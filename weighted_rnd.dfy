/** Two fixed count/weight tables and a weighted pick over them
    (src/rng_weighted_rnd.rs). */
module RngWeightedRnd {
  import opened WeightedIndex

  /** A table of candidate counts and their weights. */
  datatype WeightedRnd = WeightedRnd(counts: seq<u8>, weights: seq<u8>)
  {
    /** The table can be sampled: the weights do not all vanish (so
        `WeightedIndex::new` succeeds) and each weighted index has a count. */
    predicate Usable() {
      |weights| <= |counts| && Sum(weights) > 0
    }

    /** The count whose weight band holds `draw`, a uniform draw from
        `0..Sum(weights)`. */
    function Gen(draw: nat): (r: u8)
      requires |weights| <= |counts| && draw < Sum(weights)
      ensures exists i :: 0 <= i < |weights| && weights[i] > 0 && r == counts[i]
    {
      counts[Sample(weights, draw)]
    }
  }

  const NORMAL_WEIGHT := WeightedRnd([2, 3, 4, 5], [4, 10, 3, 1])

  const SHORT_WEIGHT := WeightedRnd([2, 3], [4, 1])

  /** Both tables pair every count with one weight and can be sampled. */
  lemma TablesUsable()
    ensures |NORMAL_WEIGHT.counts| == |NORMAL_WEIGHT.weights| == 4
    ensures |SHORT_WEIGHT.counts| == |SHORT_WEIGHT.weights| == 2
    ensures Sum(NORMAL_WEIGHT.weights) == 18 && Sum(SHORT_WEIGHT.weights) == 5
    ensures NORMAL_WEIGHT.Usable() && SHORT_WEIGHT.Usable()
  {
    var w4: seq<u8>, w3: seq<u8>, w2: seq<u8>, w1: seq<u8> := [4, 10, 3, 1], [4, 10, 3], [4, 10], [4];
    assert w4[..3] == w3 && w3[..2] == w2 && w2[..1] == w1 && w1[..0] == [];
    assert Sum(w1) == 4 && Sum(w2) == 14 && Sum(w3) == 17 && Sum(w4) == 18;
    var s2: seq<u8> := [4, 1];
    assert s2[..1] == w1;
    assert Sum(s2) == 5;
  }

  /** The normal table yields 2, 3, 4 or 5. */
  lemma NormalGenRange(draw: nat)
    requires draw < Sum(NORMAL_WEIGHT.weights)
    ensures NORMAL_WEIGHT.Gen(draw) in {2, 3, 4, 5}
  {
  }

  /** The short table yields 2 or 3. */
  lemma ShortGenRange(draw: nat)
    requires draw < Sum(SHORT_WEIGHT.weights)
    ensures SHORT_WEIGHT.Gen(draw) in {2, 3}
  {
  }

  /** When the counts are distinct, exactly `weights[i]` of the `Sum(weights)`
      draws yield `counts[i]`. */
  lemma GenDistribution(t: WeightedRnd, i: nat)
    requires |t.weights| <= |t.counts| && i < |t.weights|
    requires forall j, k :: 0 <= j < k < |t.weights| ==> t.counts[j] != t.counts[k]
    ensures |set draw: nat | draw < Sum(t.weights) && t.Gen(draw) == t.counts[i]| == t.weights[i]
  {
    var byCount := set draw: nat | draw < Sum(t.weights) && t.Gen(draw) == t.counts[i];
    var byIndex := set draw: nat | draw < Sum(t.weights) && Sample(t.weights, draw) == i;
    assert byCount == byIndex;
    SampleDistribution(t.weights, i);
  }

  /** The weights of the normal table at work: of its 18 draws, 10 give 3
      and 1 gives 5. */
  lemma NormalDistribution()
    ensures |set draw: nat | draw < Sum(NORMAL_WEIGHT.weights) && NORMAL_WEIGHT.Gen(draw) == 3| == 10
    ensures |set draw: nat | draw < Sum(NORMAL_WEIGHT.weights) && NORMAL_WEIGHT.Gen(draw) == 5| == 1
  {
    TablesUsable();
    GenDistribution(NORMAL_WEIGHT, 1);
    GenDistribution(NORMAL_WEIGHT, 3);
  }
}
