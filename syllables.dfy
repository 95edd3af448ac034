/** An ordered collection of syllables (src/rng_syllables.rs). */
module RngSyllables {
  import opened Wrappers
  import opened RngJoiner
  import opened RngSyllable

  /** The values of `v` concatenated in order, with no separator. */
  function Collapsed(v: seq<Syllable>): string
  {
    if |v| == 0 then "" else Collapsed(v[..|v| - 1]) + v[|v| - 1].value
  }

  /** The elements of `v` that may follow an edge `from`, in their order. */
  function Filtered(v: seq<Syllable>, from: Joiner): (r: seq<Syllable>)
    ensures |r| <= |v|
    ensures forall s :: s in r <==> s in v && from.Joins(s.jprevious)
  {
    if |v| == 0 then []
    else (if from.Joins(v[0].jprevious) then [v[0]] else []) + Filtered(v[1..], from)
  }

  /** `draw` is a value the uniform draw of `rnd` can produce for a
      collection of `len` elements: any, when `len < 2` (the draw is not
      made), otherwise one of `0..len - 1` (upper bound excluded). */
  predicate RndDraw(len: nat, draw: nat) {
    len < 2 || draw < len - 1
  }

  class Syllables {
    var items: seq<Syllable>

    /** `Syllables::new_from_vector`; `Syllables::new` is the case `v == []`. */
    constructor (v: seq<Syllable>)
      ensures items == v
    {
      items := v;
    }

    /** Appends one syllable at the end. */
    method Add(elem: Syllable)
      modifies this
      ensures items == old(items) + [elem]
      ensures Contains(elem)
    {
      items := items + [elem];
    }

    /** Concatenates every value in order. */
    method Collapse() returns (s: string)
      ensures s == Collapsed(items)
    {
      s := "";
      for i := 0 to Len()
        invariant s == Collapsed(items[..i])
      {
        assert items[..i + 1][..i] == items[..i];
        s := s + Get(i).value.value;
      }
      assert items[..Len()] == items;
    }

    /** Membership under structural equality. */
    function Contains(syllable: Syllable): (r: bool)
      reads this
      ensures r <==> exists i :: 0 <= i < |items| && items[i] == syllable
    {
      syllable in items
    }

    /** The syllables that may follow an edge `from`, as a new collection. */
    method FilterFrom(from: Joiner) returns (r: Syllables)
      ensures fresh(r) && r.items == Filtered(items, from)
    {
      r := new Syllables(Filtered(items, from));
    }

    function First(): (r: Option<Syllable>)
      reads this
      ensures r.None? <==> |items| == 0
      ensures r.Some? ==> r.value == items[0]
    {
      if |items| == 0 then None else Some(items[0])
    }

    function Get(index: nat): (r: Option<Syllable>)
      reads this
      ensures r.Some? <==> index < |items|
      ensures r.Some? ==> r.value == items[index]
    {
      if index < |items| then Some(items[index]) else None
    }

    function Last(): (r: Option<Syllable>)
      reads this
      ensures r.None? <==> |items| == 0
      ensures r.Some? ==> r.value == items[|items| - 1]
    {
      if |items| == 0 then None else Some(items[|items| - 1])
    }

    function Len(): (r: nat)
      reads this
      ensures r == |items|
    {
      |items|
    }

    function IsEmpty(): (r: bool)
      reads this
      ensures r <==> Len() == 0
    {
      |items| == 0
    }

    /** The index picked for a uniform draw `draw` from `0..len - 1`. As
        written, the range leaves out the last index. */
    function Rnd(draw: nat): (i: nat)
      reads this
      requires RndDraw(|items|, draw)
      ensures |items| > 0 ==> i < |items|
      ensures |items| >= 2 ==> i != |items| - 1
      ensures |items| < 2 ==> i == 0
    {
      if |items| < 2 then 0 else draw
    }

    /** The element at a drawn index; `None` only on an empty collection. */
    function GetRandom(draw: nat): (r: Option<Syllable>)
      reads this
      requires RndDraw(|items|, draw)
      ensures r.None? <==> |items| == 0
      ensures r.Some? ==> Contains(r.value)
    {
      Get(Rnd(draw))
    }

    /** A random syllable that may follow `from`: the candidate at the
        index `rnd` draws among the joinable syllables, so with two or more
        candidates the last one is never returned. The source unwraps the
        pick, so some candidate must exist. */
    method NextFrom(from: Syllable, draw: nat) returns (next: Syllable)
      requires exists s :: s in items && from.jnext.Joins(s.jprevious)
      requires RndDraw(|Filtered(items, from.jnext)|, draw)
      ensures next in items && from.jnext.Joins(next.jprevious)
      ensures var f := Filtered(items, from.jnext);
        next == f[if |f| < 2 then 0 else draw]
      ensures var f := Filtered(items, from.jnext);
        |f| >= 2 ==> exists i :: 0 <= i < |f| - 1 && next == f[i]
    {
      var candidates := FilterFrom(from.jnext);
      var pick := candidates.GetRandom(draw);
      next := pick.value;
    }
  }

  /** Collapsing distributes over concatenation of collections. */
  lemma {:induction false} CollapsedConcat(a: seq<Syllable>, b: seq<Syllable>)
    ensures Collapsed(a + b) == Collapsed(a) + Collapsed(b)
  {
    if |b| == 0 {
      assert a + b == a;
    } else {
      var b' := b[..|b| - 1];
      assert (a + b)[..|a + b| - 1] == a + b';
      CollapsedConcat(a, b');
    }
  }

  /** Collapsing one syllable gives its value; collapsing nothing gives "". */
  lemma CollapsedUnits(x: Syllable)
    ensures Collapsed([]) == ""
    ensures Collapsed([x]) == x.value
  {
  }

  /** Filtering distributes over concatenation: the kept elements stay in
      their original order. */
  lemma {:induction false} FilteredConcat(a: seq<Syllable>, b: seq<Syllable>, from: Joiner)
    ensures Filtered(a + b, from) == Filtered(a, from) + Filtered(b, from)
  {
    if |a| == 0 {
      assert a + b == b;
    } else {
      assert (a + b)[1..] == a[1..] + b;
      FilteredConcat(a[1..], b, from);
    }
  }

  /** Filtering keeps a collection whose every element joins, and empties one
      where none does. */
  lemma {:induction false} FilteredExtremes(v: seq<Syllable>, from: Joiner)
    ensures (forall i :: 0 <= i < |v| ==> from.Joins(v[i].jprevious)) ==> Filtered(v, from) == v
    ensures (forall i :: 0 <= i < |v| ==> !from.Joins(v[i].jprevious)) ==> Filtered(v, from) == []
  {
    if |v| > 0 {
      FilteredExtremes(v[1..], from);
      if forall i :: 0 <= i < |v| ==> from.Joins(v[i].jprevious) {
        assert forall i :: 0 <= i < |v[1..]| ==> from.Joins(v[1..][i].jprevious) by {
          forall i | 0 <= i < |v[1..]| ensures from.Joins(v[1..][i].jprevious) {
            assert v[1..][i] == v[i + 1];
          }
        }
        assert [v[0]] + v[1..] == v;
      }
      if forall i :: 0 <= i < |v| ==> !from.Joins(v[i].jprevious) {
        assert forall i :: 0 <= i < |v[1..]| ==> !from.Joins(v[1..][i].jprevious) by {
          forall i | 0 <= i < |v[1..]| ensures !from.Joins(v[1..][i].jprevious) {
            assert v[1..][i] == v[i + 1];
          }
        }
      }
    }
  }

  /** `First` and `Last` are `Get` at the two ends. */
  lemma FirstLastAreGet(c: Syllables)
    ensures c.First() == c.Get(0)
    ensures c.Len() > 0 ==> c.Last() == c.Get(c.Len() - 1)
    ensures c.Len() == 0 ==> c.Last() == c.Get(0) == None
  {
  }

  /** Every index but the last is reachable by some draw. */
  lemma RndReachesAllButLast(c: Syllables, i: nat)
    requires i < c.Len() - 1
    ensures RndDraw(c.Len(), i) && c.Rnd(i) == i
  {
  }
}
