/** A weighted index drawn from an explicit value instead of a random
    generator: the rand crate's `WeightedIndex` picks index `i` for a
    uniform `draw` from `0..total` when the cumulative weight up to `i`
    first exceeds `draw`. */
module WeightedIndex {

  /** Rust's `u8`. */
  type u8 = x: int | 0 <= x < 256

  /** The total of `w`. */
  function Sum(w: seq<u8>): nat
  {
    if |w| == 0 then 0 else Sum(w[..|w| - 1]) + w[|w| - 1]
  }

  lemma SumSnoc(w: seq<u8>, k: nat)
    requires k < |w|
    ensures Sum(w[..k + 1]) == Sum(w[..k]) + w[k]
  {
    assert w[..k + 1][..k] == w[..k];
  }

  /** Cumulative weights never decrease. */
  lemma {:induction false} SumPrefixMonotone(w: seq<u8>, j: nat, k: nat)
    requires j <= k <= |w|
    ensures Sum(w[..j]) <= Sum(w[..k])
  {
    if j < k {
      SumSnoc(w, k - 1);
      SumPrefixMonotone(w, j, k - 1);
    }
  }

  /** The scan from index `i` on. */
  function SampleFrom(w: seq<u8>, draw: nat, i: nat): (r: nat)
    requires i < |w| && Sum(w[..i]) <= draw < Sum(w)
    ensures i <= r < |w|
    ensures Sum(w[..r]) <= draw < Sum(w[..r]) + w[r]
    ensures forall k :: i <= k < r ==> Sum(w[..k]) + w[k] <= draw
    decreases |w| - i
  {
    SumSnoc(w, i);
    if draw < Sum(w[..i + 1]) then i
    else
      SampleFrom(w, draw, i + 1)
  }

  /** The index picked for `draw`: the first index whose cumulative weight
      exceeds `draw`. It always has a positive weight. */
  function Sample(w: seq<u8>, draw: nat): (i: nat)
    requires draw < Sum(w)
    ensures i < |w| && w[i] > 0
    ensures Sum(w[..i]) <= draw < Sum(w[..i]) + w[i]
    ensures forall k :: 0 <= k < i ==> Sum(w[..k]) + w[k] <= draw
  {
    assert |w| > 0;
    assert w[..0] == [];
    SampleFrom(w, draw, 0)
  }

  /** A draw inside the band of index `i` picks `i`, and only those do. */
  lemma SampleBand(w: seq<u8>, draw: nat, i: nat)
    requires i < |w| && draw < Sum(w)
    ensures Sample(w, draw) == i <==> Sum(w[..i]) <= draw < Sum(w[..i]) + w[i]
  {
    var j := Sample(w, draw);
    if Sum(w[..i]) <= draw < Sum(w[..i]) + w[i] && j != i {
      if j < i {
        SumSnoc(w, j);
        SumPrefixMonotone(w, j + 1, i);
      }
    }
  }

  /** The integers of `lo..hi`. */
  function Band(lo: int, hi: int): (b: set<int>)
    ensures forall r :: r in b <==> lo <= r < hi
    ensures |b| == if lo <= hi then hi - lo else 0
    decreases hi - lo
  {
    if hi <= lo then {} else Band(lo, hi - 1) + {hi - 1}
  }

  /** Of the `Sum(w)` equally likely draws, exactly `w[i]` pick index `i`. */
  lemma SampleDistribution(w: seq<u8>, i: nat)
    requires i < |w|
    ensures |set draw: nat | draw < Sum(w) && Sample(w, draw) == i| == w[i]
  {
    SumSnoc(w, i);
    SumPrefixMonotone(w, i + 1, |w|);
    assert w[..|w|] == w;
    var lo, hi := Sum(w[..i]), Sum(w[..i]) + w[i];
    var picked := set draw: nat | draw < Sum(w) && Sample(w, draw) == i;
    var band := Band(lo, hi);
    forall r | r in band ensures r in picked {
      SampleBand(w, r, i);
    }
    forall r | r in picked ensures r in band {
      SampleBand(w, r, i);
    }
    assert picked == band;
  }
}
