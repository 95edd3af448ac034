/** The adjacency flags of one edge of a syllable (src/rng_joiner.rs). */
module RngJoiner {

  /** A `bitflags!` set held in one byte. The flags that matter are the four
      low bits declared below; `Contains` and `IsEmpty` are bitflags' own
      `contains` and `is_empty`. */
  datatype Joiner = Joiner(bits: bv8)
  {
    /** Every flag of `f` is set in this Joiner. */
    predicate Contains(f: Joiner) {
      bits & f.bits == f.bits
    }

    predicate IsEmpty() {
      bits == 0
    }

    /** The bitflags `|` operator. */
    function Union(other: Joiner): (r: Joiner)
      ensures r.Contains(this) && r.Contains(other)
      ensures Declared(this) && Declared(other) ==> Declared(r)
    {
      Joiner(bits | other.bits)
    }

    /** Does `to` accept being adjacent to this Joiner? One direction only:
        `to` must carry SOME, and its "only" demand must match this Joiner's
        VOWEL flag. */
    predicate JoinsTo(to: Joiner)
      ensures JoinsTo(to) <==>
        to.bits & 0x01 != 0 &&
        (if bits & 0x02 != 0 then to.bits & 0x08 == 0 else to.bits & 0x04 == 0)
    {
      if to.IsEmpty() then false
      else if !to.Contains(SOME) then false
      else if Contains(VOWEL) && to.Contains(ONLY_CONSONANT) then false
      else if !Contains(VOWEL) && to.Contains(ONLY_VOWEL) then false
      else true
    }

    /** Two Joiners join when each accepts the other: both carry SOME and
        each one's "only" demand is met by the other's VOWEL flag. */
    predicate Joins(to: Joiner)
      ensures Joins(to) <==>
        && Contains(SOME) && to.Contains(SOME)
        && (to.Contains(ONLY_CONSONANT) ==> !Contains(VOWEL))
        && (to.Contains(ONLY_VOWEL) ==> Contains(VOWEL))
        && (Contains(ONLY_CONSONANT) ==> !to.Contains(VOWEL))
        && (Contains(ONLY_VOWEL) ==> to.Contains(VOWEL))
    {
      JoinsTo(to) && to.JoinsTo(this)
    }

    /** The directive token a next-edge Joiner renders to. */
    function ValueNext(): (r: string)
      ensures r == " +c" <==> Contains(ONLY_CONSONANT)
      ensures r == " +v" <==> Contains(ONLY_VOWEL) && !Contains(ONLY_CONSONANT)
      ensures r == "" <==> !Contains(ONLY_CONSONANT) && !Contains(ONLY_VOWEL)
    {
      if Contains(ONLY_CONSONANT) then " +c"
      else if Contains(ONLY_VOWEL) then " +v"
      else ""
    }

    /** The directive token a previous-edge Joiner renders to. */
    function ValuePrevious(): (r: string)
      ensures r == " -c" <==> Contains(ONLY_CONSONANT)
      ensures r == " -v" <==> Contains(ONLY_VOWEL) && !Contains(ONLY_CONSONANT)
      ensures r == "" <==> !Contains(ONLY_CONSONANT) && !Contains(ONLY_VOWEL)
    {
      if Contains(ONLY_CONSONANT) then " -c"
      else if Contains(ONLY_VOWEL) then " -v"
      else ""
    }
  }

  const NONE := Joiner(0x00)
  const SOME := Joiner(0x01)
  const VOWEL := Joiner(0x02)
  const ONLY_VOWEL := Joiner(0x04)
  const ONLY_CONSONANT := Joiner(0x08)

  /** A Joiner built from the declared flags only, as every Joiner the crate
      constructs is. */
  predicate Declared(j: Joiner) {
    j.bits & 0xF0 == 0
  }

  /** `x.JoinsTo(y)` fails exactly in the four listed situations. */
  lemma JoinsToFailsExactly(x: Joiner, y: Joiner)
    ensures !x.JoinsTo(y) <==>
      || y.bits == 0
      || y.bits & 0x01 == 0
      || (x.bits & 0x02 != 0 && y.bits & 0x08 != 0)
      || (x.bits & 0x02 == 0 && y.bits & 0x04 != 0)
  {
  }

  /** `Joins` is the conjunction of both directions, so it is symmetric. */
  lemma JoinsSymmetric(a: Joiner, b: Joiner)
    ensures a.Joins(b) <==> a.JoinsTo(b) && b.JoinsTo(a)
    ensures a.Joins(b) == b.Joins(a)
  {
  }

  /** Nothing joins NONE and NONE joins nothing; without SOME no join at all. */
  lemma NoneJoinsNothing(x: Joiner)
    ensures !NONE.Joins(x) && !x.Joins(NONE)
    ensures !x.Contains(SOME) ==> forall y: Joiner :: !x.Joins(y) && !y.Joins(x)
  {
  }

  /** `JoinsTo` alone is not symmetric: SOME|ONLY_VOWEL accepts nothing that
      lacks VOWEL, while SOME accepts SOME|ONLY_VOWEL. */
  lemma JoinsToNotSymmetric()
    ensures SOME.Union(VOWEL).JoinsTo(SOME.Union(ONLY_VOWEL))
    ensures SOME.Union(ONLY_VOWEL).JoinsTo(SOME)
    ensures !SOME.JoinsTo(SOME.Union(ONLY_VOWEL))
    ensures !SOME.Union(ONLY_VOWEL).Joins(SOME)
    ensures SOME.Union(ONLY_VOWEL).Joins(SOME.Union(VOWEL))
  {
  }

  /** Two Joiners join exactly when both carry SOME and each one's "only"
      demand is met by the other's VOWEL flag. */
  lemma JoinsMeansDemandsMet(a: Joiner, b: Joiner)
    ensures a.Joins(b) <==>
      && a.Contains(SOME) && b.Contains(SOME)
      && (b.Contains(ONLY_CONSONANT) ==> !a.Contains(VOWEL))
      && (b.Contains(ONLY_VOWEL) ==> a.Contains(VOWEL))
      && (a.Contains(ONLY_CONSONANT) ==> !b.Contains(VOWEL))
      && (a.Contains(ONLY_VOWEL) ==> b.Contains(VOWEL))
  {
  }

  /** The sixteen pairs the crate lists as joining (codes as in the comment
      table of the source: 1 = SOME, 3 = SOME|VOWEL, 5 = SOME|ONLY_VOWEL,
      7 = SOME|VOWEL|ONLY_VOWEL, 9 = SOME|ONLY_CONSONANT,
      11 = SOME|VOWEL|ONLY_CONSONANT). */
  lemma JoinsMatrix()
    ensures SOME.Union(VOWEL) == Joiner(3) && SOME.Union(ONLY_VOWEL) == Joiner(5)
    ensures SOME.Union(VOWEL).Union(ONLY_VOWEL) == Joiner(7)
    ensures SOME.Union(ONLY_CONSONANT) == Joiner(9)
    ensures SOME.Union(VOWEL).Union(ONLY_CONSONANT) == Joiner(11)
    ensures Joiner(1).Joins(Joiner(1)) && Joiner(1).Joins(Joiner(3))
    ensures Joiner(1).Joins(Joiner(9)) && Joiner(1).Joins(Joiner(11))
    ensures Joiner(3).Joins(Joiner(1)) && Joiner(3).Joins(Joiner(3))
    ensures Joiner(3).Joins(Joiner(5)) && Joiner(3).Joins(Joiner(7))
    ensures Joiner(5).Joins(Joiner(3)) && Joiner(5).Joins(Joiner(11))
    ensures Joiner(7).Joins(Joiner(3)) && Joiner(7).Joins(Joiner(7))
    ensures Joiner(9).Joins(Joiner(1)) && Joiner(9).Joins(Joiner(9))
    ensures Joiner(11).Joins(Joiner(1)) && Joiner(11).Joins(Joiner(5))
  {
  }

  /** The nineteen pairs the crate lists as not joining. */
  lemma JoinsMatrixNeg()
    ensures !Joiner(1).Joins(Joiner(5))
    ensures !Joiner(3).Joins(Joiner(9)) && !Joiner(3).Joins(Joiner(11))
    ensures !Joiner(5).Joins(Joiner(1)) && !Joiner(5).Joins(Joiner(5))
    ensures !Joiner(5).Joins(Joiner(7)) && !Joiner(5).Joins(Joiner(9))
    ensures !Joiner(7).Joins(Joiner(1)) && !Joiner(7).Joins(Joiner(5))
    ensures !Joiner(7).Joins(Joiner(9)) && !Joiner(7).Joins(Joiner(11))
    ensures !Joiner(9).Joins(Joiner(3)) && !Joiner(9).Joins(Joiner(5))
    ensures !Joiner(9).Joins(Joiner(7)) && !Joiner(9).Joins(Joiner(11))
    ensures !Joiner(11).Joins(Joiner(3)) && !Joiner(11).Joins(Joiner(7))
    ensures !Joiner(11).Joins(Joiner(9)) && !Joiner(11).Joins(Joiner(11))
  {
  }

  /** The two renderers agree: the same flag gives the same letter, with `+`
      for the next edge and `-` for the previous edge. */
  lemma RenderersAgree(j: Joiner)
    ensures |j.ValueNext()| == |j.ValuePrevious()|
    ensures j.ValueNext() != "" ==>
      j.ValueNext()[1] == '+' && j.ValuePrevious()[1] == '-' &&
      j.ValueNext()[0] == j.ValuePrevious()[0] == ' ' &&
      j.ValueNext()[2] == j.ValuePrevious()[2]
  {
  }

  /** The rendered examples the crate checks: SOME and VOWEL alone render
      nothing, ONLY_CONSONANT wins over VOWEL. */
  lemma RenderingExamples()
    ensures SOME.ValueNext() == "" && SOME.Union(VOWEL).ValueNext() == ""
    ensures SOME.ValuePrevious() == "" && SOME.Union(VOWEL).ValuePrevious() == ""
    ensures Joiner(9).ValueNext() == " +c" && Joiner(11).ValueNext() == " +c"
    ensures Joiner(5).ValueNext() == " +v" && Joiner(7).ValueNext() == " +v"
    ensures Joiner(9).ValuePrevious() == " -c" && Joiner(11).ValuePrevious() == " -c"
    ensures Joiner(5).ValuePrevious() == " -v" && Joiner(7).ValuePrevious() == " -v"
    ensures Joiner(13).ValueNext() == " +c" && Joiner(13).ValuePrevious() == " -c"
  {
  }

  /** The flag constants and their unions are Declared Joiners. */
  lemma ConstantsDeclared(a: Joiner, b: Joiner)
    requires Declared(a) && Declared(b)
    ensures Declared(NONE) && Declared(SOME) && Declared(VOWEL)
    ensures Declared(ONLY_VOWEL) && Declared(ONLY_CONSONANT)
    ensures Declared(a.Union(b))
  {
  }

  /** Bits outside the four declared flags play no part in joining or
      rendering, so the sixteen Declared Joiners cover every behaviour. */
  lemma UndeclaredBitsIgnored(a: Joiner, b: Joiner)
    ensures Declared(Joiner(a.bits & 0x0F))
    ensures a.Joins(b) == Joiner(a.bits & 0x0F).Joins(Joiner(b.bits & 0x0F))
    ensures a.JoinsTo(b) == Joiner(a.bits & 0x0F).JoinsTo(Joiner(b.bits & 0x0F))
    ensures a.ValueNext() == Joiner(a.bits & 0x0F).ValueNext()
    ensures a.ValuePrevious() == Joiner(a.bits & 0x0F).ValuePrevious()
  {
  }
}
