/** A dialect: the syllables of one language sorted by position, with the
    lines that failed to parse (src/rng_dialect.rs). */
module RngDialect {
  import opened Wrappers
  import opened RngSyllable
  import opened WeightedIndex
  import RngWeightedRnd

  /** The languages whose syllable files ship with the crate. */
  datatype Dialects = Demonic | Elven | Fantasy | Goblin | Roman
  {
    /** `Display`, which prints the variant name. */
    function ToString(): (r: string)
      ensures |r| >= 5 && 'A' <= r[0] <= 'Z'
    {
      match this
      case Demonic => "Demonic"
      case Elven => "Elven"
      case Fantasy => "Fantasy"
      case Goblin => "Goblin"
      case Roman => "Roman"
    }

    /** The file name: the variant name with the `.txt` extension. */
    function GetFilename(): (r: string)
      ensures |r| == |ToString()| + 4
      ensures r[..|ToString()|] == ToString() && r[|ToString()|..] == ".txt"
    {
      ToString() + ".txt"
    }

    /** The file's path under the crate's language directory. */
    function GetPath(): (r: string)
      ensures r == "./src/languages/" + GetFilename()
    {
      "./src/languages/" + ToString() + ".txt"
    }
  }

  /** Different dialects name different files. */
  lemma FilenamesDistinct(a: Dialects, b: Dialects)
    ensures a.GetFilename() == b.GetFilename() <==> a == b
    ensures a.GetPath() == b.GetPath() <==> a == b
  {
    if a != b {
      assert a.GetFilename()[0] == a.ToString()[0];
      assert b.GetFilename()[0] == b.ToString()[0];
      assert a.GetFilename()[0] != b.GetFilename()[0];
      assert a.GetPath()[16] == a.GetFilename()[0];
      assert b.GetPath()[16] == b.GetFilename()[0];
    }
  }

  /** The names, file names and paths the crate checks. */
  lemma DialectNameExamples()
    ensures Elven.ToString() == "Elven" && Elven.GetFilename() == "Elven.txt"
    ensures Fantasy.GetPath() == "./src/languages/Fantasy.txt"
    ensures Demonic.ToString() == "Demonic" && Goblin.ToString() == "Goblin" && Roman.ToString() == "Roman"
  {
  }

  datatype Dialect = Dialect(
    name: string,
    prefixes: seq<Syllable>,
    centers: seq<Syllable>,
    suffixes: seq<Syllable>,
    badSyllables: seq<string>)
  {
    /** Valid means no line failed to parse; the name and the groups are
        not looked at. */
    function IsValid(): (r: bool)
      ensures r <==> badSyllables == []
    {
      |badSyllables| == 0
    }

    /** Prefixes, then centers, then suffixes. */
    function Syllables(): (r: seq<Syllable>)
      ensures |r| == |prefixes| + |centers| + |suffixes|
      ensures r[..|prefixes|] == prefixes
      ensures r[|prefixes|..|prefixes| + |centers|] == centers
      ensures r[|prefixes| + |centers|..] == suffixes
    {
      prefixes + centers + suffixes
    }

    /** A prefix chosen by a uniform draw from `0..|prefixes|`; `None` when
        there is no prefix. */
    function RandPrefix(draw: nat): (r: Option<Syllable>)
      requires |prefixes| == 0 || draw < |prefixes|
      ensures r.None? <==> |prefixes| == 0
      ensures r.Some? ==> r.value in prefixes
    {
      if |prefixes| == 0 then None else Some(prefixes[draw])
    }
  }

  /** The syllables of class `c` parsed from `lines`, in line order. */
  function ClassOf(lines: seq<string>, parse: string -> Option<Syllable>, c: Classification): (r: seq<Syllable>)
    ensures |r| <= |lines|
    ensures forall i :: 0 <= i < |r| ==> r[i].classification == c
  {
    if |lines| == 0 then []
    else
      var init := lines[..|lines| - 1];
      var line := lines[|lines| - 1];
      var rest := ClassOf(init, parse, c);
      match parse(line)
      case Some(sy) => if sy.classification == c then rest + [sy] else rest
      case None => rest
  }

  /** The lines that failed to parse, in line order. */
  function BadLines(lines: seq<string>, parse: string -> Option<Syllable>): (r: seq<string>)
    ensures |r| <= |lines|
  {
    if |lines| == 0 then []
    else
      var init := lines[..|lines| - 1];
      var line := lines[|lines| - 1];
      var rest := BadLines(init, parse);
      if parse(line).None? then rest + [line] else rest
  }

  /** One more line extends exactly one of the four outputs. */
  lemma LoadSnoc(lines: seq<string>, line: string, parse: string -> Option<Syllable>, c: Classification)
    ensures ClassOf(lines + [line], parse, c) ==
      ClassOf(lines, parse, c) + (if parse(line).Some? && parse(line).value.classification == c then [parse(line).value] else [])
    ensures BadLines(lines + [line], parse) ==
      BadLines(lines, parse) + (if parse(line).None? then [line] else [])
  {
    assert (lines + [line])[..|lines|] == lines;
  }

  /** A syllable is routed to class `c` iff it has class `c` and some line
      parses to it. */
  lemma {:induction false} ClassOfMembers(lines: seq<string>, parse: string -> Option<Syllable>, c: Classification, s: Syllable)
    ensures s in ClassOf(lines, parse, c) <==> s.classification == c && exists line :: line in lines && parse(line) == Some(s)
  {
    if |lines| > 0 {
      var init := lines[..|lines| - 1];
      assert lines == init + [lines[|lines| - 1]];
      ClassOfMembers(init, parse, c, s);
    }
  }

  /** A line is bad iff it is an input line that does not parse. */
  lemma {:induction false} BadLinesMembers(lines: seq<string>, parse: string -> Option<Syllable>, line: string)
    ensures line in BadLines(lines, parse) <==> line in lines && parse(line).None?
  {
    if |lines| > 0 {
      var init := lines[..|lines| - 1];
      assert lines == init + [lines[|lines| - 1]];
      BadLinesMembers(init, parse, line);
    }
  }

  /** Some line is bad exactly when the bad lines are not empty. */
  lemma BadLinesWitness(lines: seq<string>, parse: string -> Option<Syllable>)
    ensures BadLines(lines, parse) != [] <==> exists line :: line in lines && parse(line).None?
  {
    var bad := BadLines(lines, parse);
    if bad != [] {
      BadLinesMembers(lines, parse, bad[0]);
    } else {
      forall line | line in lines ensures parse(line).Some? {
        BadLinesMembers(lines, parse, line);
      }
    }
  }

  /** The dialect the loader builds from `lines`. */
  function Loaded(dialect: Dialects, lines: seq<string>, parse: string -> Option<Syllable>): Dialect
  {
    Dialect(
      dialect.ToString(),
      ClassOf(lines, parse, Prefix),
      ClassOf(lines, parse, Center),
      ClassOf(lines, parse, Suffix),
      BadLines(lines, parse))
  }

  /** `Dialect::new` over the lines of the dialect's file: routes each line
      to its group, or to the bad lines when it does not parse, and fails
      (carrying the dialect) when any line is bad. */
  method New(dialect: Dialects, lines: seq<string>, parse: string -> Option<Syllable>)
    returns (r: Result<Dialect, Dialect>)
    ensures (if r.Ok? then r.value else r.error) == Loaded(dialect, lines, parse)
    ensures r.Err? <==> exists line :: line in lines && parse(line).None?
  {
    var prefixes: seq<Syllable> := [];
    var centers: seq<Syllable> := [];
    var suffixes: seq<Syllable> := [];
    var bad: seq<string> := [];
    for i := 0 to |lines|
      invariant prefixes == ClassOf(lines[..i], parse, Prefix)
      invariant centers == ClassOf(lines[..i], parse, Center)
      invariant suffixes == ClassOf(lines[..i], parse, Suffix)
      invariant bad == BadLines(lines[..i], parse)
    {
      var line := lines[i];
      assert lines[..i + 1] == lines[..i] + [line];
      LoadSnoc(lines[..i], line, parse, Prefix);
      LoadSnoc(lines[..i], line, parse, Center);
      LoadSnoc(lines[..i], line, parse, Suffix);
      match parse(line) {
        case Some(sy) =>
          match sy.classification {
            case Prefix => prefixes := prefixes + [sy];
            case Center => centers := centers + [sy];
            case Suffix => suffixes := suffixes + [sy];
          }
        case None =>
          bad := bad + [line];
      }
    }
    assert lines[..|lines|] == lines;
    BadLinesWitness(lines, parse);
    var d := Dialect(dialect.ToString(), prefixes, centers, suffixes, bad);
    if |d.badSyllables| > 0 {
      r := Err(d);
    } else {
      r := Ok(d);
    }
  }

  const SYLLABLE_COUNTS: seq<u8> := [2, 3, 4, 5]

  const SYLLABLE_WEIGHTS: seq<u8> := [4, 10, 3, 1]

  /** A syllable count drawn by weight, for a uniform draw from
      `0..Sum(SYLLABLE_WEIGHTS)`. */
  function GenRndSyllableCount(draw: nat): (r: u8)
    requires draw < Sum(SYLLABLE_WEIGHTS)
    ensures 2 <= r <= 5
  {
    SYLLABLE_COUNTS[Sample(SYLLABLE_WEIGHTS, draw)]
  }

  /** Every successfully parsed syllable, in line order. */
  function Parsed(lines: seq<string>, parse: string -> Option<Syllable>): seq<Syllable>
  {
    if |lines| == 0 then []
    else
      var line := lines[|lines| - 1];
      Parsed(lines[..|lines| - 1], parse) + (if parse(line).Some? then [parse(line).value] else [])
  }

  /** Every line lands in exactly one place: the four outputs together are
      as long as the input. */
  lemma {:induction false} LoadedAccountsForEveryLine(dialect: Dialects, lines: seq<string>, parse: string -> Option<Syllable>)
    ensures var d := Loaded(dialect, lines, parse);
      |d.prefixes| + |d.centers| + |d.suffixes| + |d.badSyllables| == |lines|
  {
    if |lines| > 0 {
      var init := lines[..|lines| - 1];
      assert lines == init + [lines[|lines| - 1]];
      LoadSnoc(init, lines[|lines| - 1], parse, Prefix);
      LoadSnoc(init, lines[|lines| - 1], parse, Center);
      LoadSnoc(init, lines[|lines| - 1], parse, Suffix);
      LoadedAccountsForEveryLine(dialect, init, parse);
    }
  }

  /** Loading keeps line order: the outputs for `a + b` are those for `a`
      followed by those for `b`. */
  lemma {:induction false} LoadedKeepsOrder(a: seq<string>, b: seq<string>, parse: string -> Option<Syllable>, c: Classification)
    ensures ClassOf(a + b, parse, c) == ClassOf(a, parse, c) + ClassOf(b, parse, c)
    ensures BadLines(a + b, parse) == BadLines(a, parse) + BadLines(b, parse)
  {
    if |b| == 0 {
      assert a + b == a;
    } else {
      var init := b[..|b| - 1];
      var line := b[|b| - 1];
      assert b == init + [line];
      assert a + b == (a + init) + [line];
      LoadSnoc(a + init, line, parse, c);
      LoadSnoc(init, line, parse, c);
      LoadedKeepsOrder(a, init, parse, c);
    }
  }

  /** The three groups hold exactly the parsed syllables, each as often as
      it was parsed. */
  lemma {:induction false} LoadedSyllablesAreParsed(dialect: Dialects, lines: seq<string>, parse: string -> Option<Syllable>)
    ensures multiset(Loaded(dialect, lines, parse).Syllables()) == multiset(Parsed(lines, parse))
  {
    if |lines| > 0 {
      var init := lines[..|lines| - 1];
      var line := lines[|lines| - 1];
      assert lines == init + [line];
      LoadSnoc(init, line, parse, Prefix);
      LoadSnoc(init, line, parse, Center);
      LoadSnoc(init, line, parse, Suffix);
      LoadedSyllablesAreParsed(dialect, init, parse);
      var d0, d := Loaded(dialect, init, parse), Loaded(dialect, lines, parse);
      assert multiset(d.Syllables()) == multiset(d.prefixes) + multiset(d.centers) + multiset(d.suffixes);
      assert multiset(d0.Syllables()) == multiset(d0.prefixes) + multiset(d0.centers) + multiset(d0.suffixes);
      match parse(line) {
        case None =>
          assert Parsed(lines, parse) == Parsed(init, parse);
        case Some(sy) =>
          assert Parsed(lines, parse) == Parsed(init, parse) + [sy];
          match sy.classification {
            case Prefix => assert multiset(d.prefixes) == multiset(d0.prefixes) + multiset{sy};
            case Center => assert multiset(d.centers) == multiset(d0.centers) + multiset{sy};
            case Suffix => assert multiset(d.suffixes) == multiset(d0.suffixes) + multiset{sy};
          }
      }
    }
  }

  /** A loaded dialect is valid exactly when every line parses. */
  lemma LoadedValidIffAllParse(dialect: Dialects, lines: seq<string>, parse: string -> Option<Syllable>)
    ensures Loaded(dialect, lines, parse).IsValid() <==> forall line :: line in lines ==> parse(line).Some?
    ensures Loaded(dialect, lines, parse).name == dialect.ToString()
  {
    BadLinesWitness(lines, parse);
  }

  /** Validity looks at the bad lines only: an empty name and empty groups
      are valid, one bad line is not. */
  lemma ValidityIgnoresNameAndGroups(name: string, p: seq<Syllable>, c: seq<Syllable>, s: seq<Syllable>, bad: string)
    ensures Dialect(name, p, c, s, []).IsValid()
    ensures Dialect("", [], [], [], []).IsValid()
    ensures !Dialect(name, p, c, s, [bad]).IsValid()
  {
  }

  /** A random prefix of a loaded dialect is classified `Prefix`. */
  lemma LoadedRandPrefixIsPrefix(dialect: Dialects, lines: seq<string>, parse: string -> Option<Syllable>, draw: nat)
    requires var d := Loaded(dialect, lines, parse); |d.prefixes| == 0 || draw < |d.prefixes|
    ensures var d := Loaded(dialect, lines, parse);
      d.RandPrefix(draw).Some? ==> d.RandPrefix(draw).value.classification == Prefix
  {
  }

  /** The dialect's own count table is the normal weight table. */
  lemma SyllableCountIsNormalWeight(draw: nat)
    requires draw < Sum(SYLLABLE_WEIGHTS)
    ensures SYLLABLE_COUNTS == RngWeightedRnd.NORMAL_WEIGHT.counts
    ensures SYLLABLE_WEIGHTS == RngWeightedRnd.NORMAL_WEIGHT.weights
    ensures GenRndSyllableCount(draw) == RngWeightedRnd.NORMAL_WEIGHT.Gen(draw)
  {
  }
}
