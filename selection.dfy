/**
 * Weighted selection (getNode): a draw in 0..100 is matched against the
 * ascending bucket keys; ties inside a bucket are broken by a second draw.
 */
module Selection {
  import opened Types
  import opened Weights

  /**
   * The index of the bucket the scan stops at: the first whose key is at
   * least the draw, or the last bucket when the draw exceeds every key.
   */
  function SelectBucket(b: seq<Bucket>, r: int): (i: nat)
    requires b != []
    ensures i < |b|
    ensures (exists j :: 0 <= j < |b| && r <= b[j].key) ==>
      r <= b[i].key && forall j :: 0 <= j < i ==> b[j].key < r
    ensures (forall j :: 0 <= j < |b| ==> b[j].key < r) ==> i == |b| - 1
  {
    if r <= b[0].key || |b| == 1 then 0
    else
      var i := 1 + SelectBucket(b[1..], r);
      assert forall j :: 1 <= j < |b| ==> b[j] == b[1..][j - 1];
      i
  }

  predicate NoEmptyBucket(b: seq<Bucket>) {
    forall i :: 0 <= i < |b| ==> b[i].hosts != []
  }

  /**
   * The host getNode returns for the draw `r` and the tie-breaking draw
   * `pick`: a host of the bucket SelectBucket stops at.
   */
  function GetNode(b: seq<Bucket>, r: int, pick: nat): (h: Host)
    requires b != [] && NoEmptyBucket(b)
    ensures h in b[SelectBucket(b, r)].hosts
  {
    var hosts := b[SelectBucket(b, r)].hosts;
    if |hosts| == 1 then hosts[0] else hosts[pick % |hosts|]
  }

  /**
   * On a normalised table, getNode always returns a registered host, from
   * the bucket its own weight rounds to.
   */
  lemma GetNodeRegistered(order: seq<Host>, w: map<Host, int>, r: int, pick: nat)
    requires WellWeighted(order, w) && order != []
    ensures Normalize(order, w) != [] && NoEmptyBucket(Normalize(order, w))
    ensures GetNode(Normalize(order, w), r, pick) in order
    ensures Normalize(order, w)[SelectBucket(Normalize(order, w), r)].key
      == Round(w[GetNode(Normalize(order, w), r, pick)], Sum(order, w))
  {
    NormalizeEmpty(order, w);
    NormalizeOrdered(order, w);
    NormalizeDrawn(order, w);
    var b := Normalize(order, w);
    var h := GetNode(b, r, pick);
    var i := NormalizePlacement(order, w, h);
    assert h in b[SelectBucket(b, r)].hosts;
  }

  /** With a single registered host every draw selects that host. */
  lemma GetNodeSingle(h: Host, w: map<Host, int>, r: int, pick: nat)
    requires h in w && w[h] > 0
    ensures Normalize([h], w) == [Bucket(100, [h])]
    ensures GetNode(Normalize([h], w), r, pick) == h
  {
    NormalizeSingle(h, w);
  }

  /**
   * Two equally weighted hosts share the bucket keyed 50: draws 0..50 stop
   * there, and draws 51..100 fall through to it as the last bucket.
   */
  lemma GetNodeEqualPair(a: Host, b: Host, w: map<Host, int>, r: int, pick: nat)
    requires a != b && a in w && b in w && w[a] == w[b] > 0
    ensures Normalize([a, b], w) == [Bucket(50, [a, b])]
    ensures SelectBucket(Normalize([a, b], w), r) == 0
    ensures GetNode(Normalize([a, b], w), r, pick) == (if pick % 2 == 0 then a else b)
  {
    NormalizeEqualPair(a, b, w);
  }
}
