/**
 * Weight normalisation: raw positive weights become buckets on a 0..100
 * scale, one bucket per rounded percentage, hosts of a bucket kept in
 * registration order, buckets sorted by key.
 */
module Weights {
  import opened Types

  /** One entry of the normalised table: a rounded percentage and the hosts that share it. */
  datatype Bucket = Bucket(key: int, hosts: seq<Host>)

  /** No host is listed twice: each host is absent from the hosts listed before it. */
  predicate Distinct(hs: seq<Host>) {
    hs == [] || (hs[|hs| - 1] !in hs[..|hs| - 1] && Distinct(hs[..|hs| - 1]))
  }

  /** Every registered host is listed once and carries a positive weight. */
  predicate WellWeighted(order: seq<Host>, w: map<Host, int>) {
    && Distinct(order)
    && forall h :: h in order ==> h in w && w[h] > 0
  }

  /** Registering a new host with a positive weight keeps the registry well weighted. */
  lemma WellWeightedAppend(order: seq<Host>, w: map<Host, int>, host: Host, n: int)
    requires WellWeighted(order, w) && host !in order && n > 0
    ensures WellWeighted(order + [host], w[host := n])
  {
    DistinctAppend(order, host);
  }

  /** The sum of the weights of `hs`, accumulated front to back; positive unless `hs` is empty. */
  function Sum(hs: seq<Host>, w: map<Host, int>): (t: int)
    requires forall h :: h in hs ==> h in w && w[h] > 0
    ensures hs != [] ==> t > 0
    ensures hs == [] ==> t == 0
  {
    if hs == [] then 0
    else
      assert forall h :: h in hs[..|hs| - 1] ==> h in hs;
      Sum(hs[..|hs| - 1], w) + w[hs[|hs| - 1]]
  }

  /** The total bounds every single weight, so no share exceeds 100. */
  lemma {:induction false} SumBounds(hs: seq<Host>, w: map<Host, int>, h: Host)
    requires forall h :: h in hs ==> h in w && w[h] > 0
    requires h in hs
    ensures w[h] <= Sum(hs, w)
  {
    var init := hs[..|hs| - 1];
    assert forall x :: x in init ==> x in hs;
    if h != hs[|hs| - 1] {
      assert h in init by {
        var i :| 0 <= i < |hs| && hs[i] == h;
        assert init[i] == h;
      }
      SumBounds(init, w, h);
    }
  }

  /** Integer division of naturals by repeated subtraction. */
  function Quot(n: nat, d: nat): nat
    requires d > 0
    decreases n
  {
    if n < d then 0 else 1 + Quot(n - d, d)
  }

  /** Quot is floor division: `d * Quot(n, d)` is the largest multiple of `d` not above `n`. */
  lemma {:induction false} QuotBounds(n: nat, d: nat)
    requires d > 0
    ensures d * Quot(n, d) <= n < d * Quot(n, d) + d
  {
    if n >= d {
      QuotBounds(n - d, d);
      assert d * Quot(n, d) == d * Quot(n - d, d) + d;
    }
  }

  lemma MulMonotone(d: int, a: int, b: int)
    requires d > 0 && a <= b
    ensures d * a <= d * b
  {
    assert d * b - d * a == d * (b - a);
  }

  /** The quotient is the one `q` with `d * q <= n < d * q + d`. */
  lemma QuotUnique(n: nat, d: nat, q: nat)
    requires d > 0 && d * q <= n < d * q + d
    ensures Quot(n, d) == q
  {
    QuotBounds(n, d);
    var p := Quot(n, d);
    if p < q {
      assert d * (p + 1) == d * p + d;
      MulMonotone(d, p + 1, q);
    } else if p > q {
      assert d * (q + 1) == d * q + d;
      MulMonotone(d, q + 1, p);
    }
  }

  /** The integer half-up rounding satisfies the bounds Round promises. */
  lemma RoundBounds(w: nat, total: nat)
    requires 0 < total
    ensures w <= total ==> Quot(200 * w + total, 2 * total) <= 100
    ensures (2 * Quot(200 * w + total, 2 * total) - 1) * total <= 200 * w
    ensures 200 * w < (2 * Quot(200 * w + total, 2 * total) + 1) * total
  {
    var n := 200 * w + total;
    var d := 2 * total;
    var k := Quot(n, d);
    QuotBounds(n, d);
    assert d * k == 2 * k * total;
    assert (2 * k - 1) * total == 2 * k * total - total;
    assert (2 * k + 1) * total == 2 * k * total + total;
    if w <= total && k > 100 {
      MulMonotone(d, 101, k);
      assert false;
    }
  }

  /**
   * The bucket of a weight `w` out of `total`: 100 * w / total rounded half up,
   * the integer form of round(($weight / $total) * 100).
   */
  function Round(w: int, total: int): (k: nat)
    requires 0 <= w && 0 < total
    ensures w <= total ==> k <= 100
  {
    RoundBounds(w, total);
    Quot(200 * w + total, 2 * total)
  }

  /** Round(w, total) is the integer nearest to 100 * w / total, halves rounded up. */
  lemma RoundNearest(w: int, total: int)
    requires 0 <= w && 0 < total
    ensures (2 * Round(w, total) - 1) * total <= 200 * w < (2 * Round(w, total) + 1) * total
  {
    RoundBounds(w, total);
  }

  /**
   * The bucket key of every registered host: its weight's rounded share of
   * the total weight, always within 0..100.
   */
  function Shares(order: seq<Host>, w: map<Host, int>): (s: map<Host, int>)
    requires WellWeighted(order, w)
    ensures forall h :: h in s <==> h in order
    ensures forall h :: h in s ==> 0 <= s[h] <= 100
  {
    assert forall h :: h in order ==> w[h] <= Sum(order, w) by {
      forall h | h in order ensures w[h] <= Sum(order, w) {
        SumBounds(order, w, h);
      }
    }
    map h | h in order :: Round(w[h], Sum(order, w))
  }

  /** The hosts of `hs` whose key in `s` is `k`, in the order of `hs`. */
  function Members(hs: seq<Host>, s: map<Host, int>, k: int): seq<Host> {
    if hs == [] then []
    else
      var last := hs[|hs| - 1];
      Members(hs[..|hs| - 1], s, k) + (if last in s && s[last] == k then [last] else [])
  }

  /** The bucket keyed `k` holding `m`, or nothing when `m` is empty. */
  function Tail(k: int, m: seq<Host>): seq<Bucket> {
    if m == [] then [] else [Bucket(k, m)]
  }

  /** The buckets with keys below `k`, ascending; the form ksort gives to the table. */
  function BucketsBelow(hs: seq<Host>, s: map<Host, int>, k: nat): seq<Bucket> {
    if k == 0 then [] else BucketsBelow(hs, s, k - 1) + Tail(k - 1, Members(hs, s, k - 1))
  }

  /** The table normalizeWeight rebuilds from the registered hosts and their weights. */
  function Normalize(order: seq<Host>, w: map<Host, int>): seq<Bucket>
    requires WellWeighted(order, w)
  {
    BucketsBelow(order, Shares(order, w), 101)
  }

  /** Extending a prefix of `hs` by one host adds that host's weight. */
  lemma SumStep(hs: seq<Host>, w: map<Host, int>, i: nat)
    requires forall h :: h in hs ==> h in w && w[h] > 0
    requires i < |hs|
    ensures Sum(hs[..i + 1], w) == Sum(hs[..i], w) + w[hs[i]]
  {
    assert hs[..i + 1][..i] == hs[..i];
  }

  lemma InitLast(hs: seq<Host>)
    requires hs != []
    ensures hs[..|hs| - 1] + [hs[|hs| - 1]] == hs
  {
  }

  /** A host is a member of group `k` exactly when it is listed and its key is `k`. */
  lemma {:induction false} MembersSpec(hs: seq<Host>, s: map<Host, int>, k: int, h: Host)
    ensures h in Members(hs, s, k) <==> h in hs && h in s && s[h] == k
  {
    if hs != [] {
      var init := hs[..|hs| - 1];
      MembersSpec(init, s, k, h);
      InitLast(hs);
    }
  }

  /** Extending a prefix of `hs` by one host appends it to the group of its key. */
  lemma MembersStep(hs: seq<Host>, s: map<Host, int>, i: nat, k: int)
    requires i < |hs|
    ensures Members(hs[..i + 1], s, k) == Members(hs[..i], s, k) + (if hs[i] in s && s[hs[i]] == k then [hs[i]] else [])
  {
    assert hs[..i + 1][..i] == hs[..i];
  }

  /** Extending the key range by one adds the bucket of that key, when it has members. */
  lemma BucketsStep(hs: seq<Host>, s: map<Host, int>, k: nat)
    requires k > 0
    ensures BucketsBelow(hs, s, k) == BucketsBelow(hs, s, k - 1) + Tail(k - 1, Members(hs, s, k - 1))
  {
  }

  /** Every bucket is non-empty, its key lies in 0..k-1, and keys strictly ascend. */
  predicate SortedBelow(b: seq<Bucket>, k: int) {
    && (forall i :: 0 <= i < |b| ==> 0 <= b[i].key < k && b[i].hosts != [])
    && (forall i, j :: 0 <= i < j < |b| ==> b[i].key < b[j].key)
  }

  /** The shape of a normalised table: sorted, keys within 0..100, no empty bucket. */
  predicate Ordered(b: seq<Bucket>) {
    SortedBelow(b, 101)
  }

  /** Host `h` is listed in exactly the buckets keyed `key`. */
  predicate PlacedAt(b: seq<Bucket>, h: Host, key: int) {
    forall i :: 0 <= i < |b| ==> (h in b[i].hosts <==> b[i].key == key)
  }

  predicate HasKey(b: seq<Bucket>, key: int) {
    exists i :: 0 <= i < |b| && b[i].key == key
  }

  /** Every host of `m` is listed in `hs`. */
  predicate Within(m: seq<Host>, hs: seq<Host>) {
    forall h :: h in m ==> h in hs
  }

  /** Every bucket lists distinct hosts, all drawn from `hs`. */
  predicate DrawnFrom(b: seq<Bucket>, hs: seq<Host>) {
    forall i :: 0 <= i < |b| ==> Distinct(b[i].hosts) && Within(b[i].hosts, hs)
  }

  lemma {:induction false} MembersDistinct(hs: seq<Host>, s: map<Host, int>, k: int)
    requires Distinct(hs)
    ensures Distinct(Members(hs, s, k))
  {
    if hs != [] {
      var init := hs[..|hs| - 1];
      var last := hs[|hs| - 1];
      var m := Members(init, s, k);
      MembersDistinct(init, s, k);
      if last in s && s[last] == k {
        MembersSpec(init, s, k, last);
        DistinctAppend(m, last);
        assert Members(hs, s, k) == m + [last];
      } else {
        assert m + [] == m;
        assert Members(hs, s, k) == m;
      }
    }
  }

  lemma DistinctAppend(hs: seq<Host>, h: Host)
    requires Distinct(hs) && h !in hs
    ensures Distinct(hs + [h])
  {
    assert (hs + [h])[..|hs|] == hs;
  }

  /** Every member of a group is listed in `hs`. */
  lemma MembersListed(hs: seq<Host>, s: map<Host, int>, k: int)
    ensures Within(Members(hs, s, k), hs)
  {
    forall h | h in Members(hs, s, k) ensures h in hs {
      MembersSpec(hs, s, k, h);
    }
  }

  /** Appending the bucket of a key above every existing key keeps the table sorted. */
  lemma SortedStep(prev: seq<Bucket>, k: nat, m: seq<Host>)
    requires k > 0
    ensures SortedBelow(prev, k - 1) ==> SortedBelow(prev + Tail(k - 1, m), k)
  {
  }

  lemma {:induction false} BucketsBelowShape(hs: seq<Host>, s: map<Host, int>, k: nat)
    ensures SortedBelow(BucketsBelow(hs, s, k), k)
  {
    if k > 0 {
      BucketsBelowShape(hs, s, k - 1);
      SortedStep(BucketsBelow(hs, s, k - 1), k, Members(hs, s, k - 1));
    }
  }

  /** Appending a bucket keeps a host placed when it is listed there exactly when the key matches. */
  lemma PlacedStep(prev: seq<Bucket>, k: int, m: seq<Host>, h: Host, key: int)
    ensures PlacedAt(prev, h, key) && (h in m <==> key == k) ==> PlacedAt(prev + Tail(k, m), h, key)
  {
  }

  /** Appending a bucket keeps every present key, and adds `k` when `m` is not empty. */
  lemma HasKeyStep(prev: seq<Bucket>, k: int, m: seq<Host>, key: int)
    ensures HasKey(prev, key) || (key == k && m != []) ==> HasKey(prev + Tail(k, m), key)
  {
    if HasKey(prev, key) {
      var i :| 0 <= i < |prev| && prev[i].key == key;
      assert (prev + Tail(k, m))[i] == prev[i];
    } else if key == k && m != [] {
      assert (prev + Tail(k, m))[|prev|].key == key;
    }
  }

  /** Appending a bucket of distinct listed hosts keeps the table drawn from `hs`. */
  lemma DrawnStep(prev: seq<Bucket>, k: int, m: seq<Host>, hs: seq<Host>)
    ensures DrawnFrom(prev, hs) && Distinct(m) && Within(m, hs) ==> DrawnFrom(prev + Tail(k, m), hs)
  {
  }

  /** A host is listed in exactly the buckets keyed by its own key. */
  lemma {:induction false} BucketsBelowPlacedAt(hs: seq<Host>, s: map<Host, int>, k: nat, h: Host)
    requires h in hs && h in s
    ensures PlacedAt(BucketsBelow(hs, s, k), h, s[h])
  {
    if k > 0 {
      BucketsBelowPlacedAt(hs, s, k - 1, h);
      PlacedNext(hs, s, k, h);
    }
  }

  lemma PlacedNext(hs: seq<Host>, s: map<Host, int>, k: nat, h: Host)
    requires k > 0 && h in hs && h in s
    ensures PlacedAt(BucketsBelow(hs, s, k - 1), h, s[h]) ==> PlacedAt(BucketsBelow(hs, s, k), h, s[h])
  {
    MembersSpec(hs, s, k - 1, h);
    PlacedStep(BucketsBelow(hs, s, k - 1), k - 1, Members(hs, s, k - 1), h, s[h]);
  }

  /** The bucket of a host's key is present once the key range covers it. */
  lemma {:induction false} BucketsBelowHasKey(hs: seq<Host>, s: map<Host, int>, k: nat, h: Host)
    requires h in hs && h in s
    ensures 0 <= s[h] < k ==> HasKey(BucketsBelow(hs, s, k), s[h])
  {
    if 0 <= s[h] < k {
      if s[h] == k - 1 {
        MembersSpec(hs, s, k - 1, h);
      } else {
        BucketsBelowHasKey(hs, s, k - 1, h);
      }
      HasKeyStep(BucketsBelow(hs, s, k - 1), k - 1, Members(hs, s, k - 1), s[h]);
    }
  }

  lemma {:induction false} BucketsBelowDrawn(hs: seq<Host>, s: map<Host, int>, k: nat)
    requires Distinct(hs)
    ensures DrawnFrom(BucketsBelow(hs, s, k), hs)
  {
    if k > 0 {
      BucketsBelowDrawn(hs, s, k - 1);
      DrawnNext(hs, s, k);
    }
  }

  lemma DrawnNext(hs: seq<Host>, s: map<Host, int>, k: nat)
    requires Distinct(hs) && k > 0
    ensures DrawnFrom(BucketsBelow(hs, s, k - 1), hs) ==> DrawnFrom(BucketsBelow(hs, s, k), hs)
  {
    MembersDistinct(hs, s, k - 1);
    MembersListed(hs, s, k - 1);
    DrawnStep(BucketsBelow(hs, s, k - 1), k - 1, Members(hs, s, k - 1), hs);
  }

  /** The table is sorted by key, its keys lie in 0..100 and no bucket is empty. */
  lemma NormalizeOrdered(order: seq<Host>, w: map<Host, int>)
    requires WellWeighted(order, w)
    ensures Ordered(Normalize(order, w))
  {
    BucketsBelowShape(order, Shares(order, w), 101);
  }

  /**
   * Every registered host sits in exactly one bucket, the one keyed by its own
   * rounded share of the total weight.
   */
  lemma NormalizePlacement(order: seq<Host>, w: map<Host, int>, h: Host) returns (i: nat)
    requires WellWeighted(order, w)
    requires h in order
    ensures i < |Normalize(order, w)|
    ensures Normalize(order, w)[i].key == Round(w[h], Sum(order, w))
    ensures h in Normalize(order, w)[i].hosts
    ensures forall j :: 0 <= j < |Normalize(order, w)| && h in Normalize(order, w)[j].hosts ==> j == i
  {
    var s := Shares(order, w);
    var b := Normalize(order, w);
    BucketsBelowPlacedAt(order, s, 101, h);
    BucketsBelowHasKey(order, s, 101, h);
    BucketsBelowShape(order, s, 101);
    i :| 0 <= i < |b| && b[i].key == s[h];
  }

  /** Hosts of the table are registered, and no bucket lists a host twice. */
  lemma NormalizeDrawn(order: seq<Host>, w: map<Host, int>)
    requires WellWeighted(order, w)
    ensures DrawnFrom(Normalize(order, w), order)
  {
    BucketsBelowDrawn(order, Shares(order, w), 101);
  }

  /** The table is empty exactly when no host is registered. */
  lemma NormalizeEmpty(order: seq<Host>, w: map<Host, int>)
    requires WellWeighted(order, w)
    ensures Normalize(order, w) == [] <==> order == []
  {
    if order != [] {
      var i := NormalizePlacement(order, w, order[0]);
    } else {
      BucketsBelowSingle(order, Shares(order, w), 101, 0);
    }
  }

  /** When every host has the key `key`, the table is that one bucket, or empty. */
  lemma {:induction false} BucketsBelowSingle(hs: seq<Host>, s: map<Host, int>, k: nat, key: int)
    requires forall h :: h in hs ==> h in s && s[h] == key
    ensures BucketsBelow(hs, s, k) == SingleBelow(hs, k, key)
  {
    if k > 0 {
      BucketsBelowSingle(hs, s, k - 1, key);
      SingleNext(hs, s, k, key);
    }
  }

  /** The table BucketsBelowSingle describes: the one bucket of `key` once `k` covers it. */
  function SingleBelow(hs: seq<Host>, k: nat, key: int): seq<Bucket> {
    if 0 <= key < k && hs != [] then [Bucket(key, hs)] else []
  }

  lemma SingleNext(hs: seq<Host>, s: map<Host, int>, k: nat, key: int)
    requires forall h :: h in hs ==> h in s && s[h] == key
    requires k > 0
    ensures BucketsBelow(hs, s, k - 1) == SingleBelow(hs, k - 1, key) ==>
      BucketsBelow(hs, s, k) == SingleBelow(hs, k, key)
  {
    if k - 1 == key {
      if hs != [] {
        TailAll(hs, s, key);
      }
    } else {
      TailNone(hs, s, k - 1, key);
    }
  }

  lemma TailAll(hs: seq<Host>, s: map<Host, int>, key: int)
    requires forall h :: h in hs ==> h in s && s[h] == key
    requires hs != []
    ensures Tail(key, Members(hs, s, key)) == [Bucket(key, hs)]
  {
    MembersAll(hs, s, key);
  }

  lemma TailNone(hs: seq<Host>, s: map<Host, int>, k: int, key: int)
    requires forall h :: h in hs ==> h in s && s[h] == key
    requires key != k
    ensures Tail(k, Members(hs, s, k)) == []
  {
    MembersNone(hs, s, k, key);
  }

  lemma {:induction false} MembersAll(hs: seq<Host>, s: map<Host, int>, key: int)
    requires forall h :: h in hs ==> h in s && s[h] == key
    ensures Members(hs, s, key) == hs
  {
    if hs != [] {
      var init := hs[..|hs| - 1];
      assert forall h :: h in init ==> h in hs;
      MembersAll(init, s, key);
      InitLast(hs);
    }
  }

  lemma {:induction false} MembersNone(hs: seq<Host>, s: map<Host, int>, k: int, key: int)
    requires forall h :: h in hs ==> h in s && s[h] == key
    requires key != k
    ensures Members(hs, s, k) == []
  {
    if hs != [] {
      var init := hs[..|hs| - 1];
      assert forall h :: h in init ==> h in hs;
      MembersNone(init, s, k, key);
    }
  }

  /** A lone host takes the whole scale: one bucket keyed 100. */
  lemma NormalizeSingle(h: Host, w: map<Host, int>)
    requires h in w && w[h] > 0
    ensures Normalize([h], w) == [Bucket(100, [h])]
  {
    var n := w[h];
    assert Sum([h], w) == n by { assert [h][..0] == []; }
    assert Round(n, n) == 100 by {
      QuotUnique(200 * n + n, 2 * n, 100);
    }
    BucketsBelowSingle([h], Shares([h], w), 101, 100);
  }

  /**
   * Two hosts of equal weight share one bucket keyed 50 (100.0 / 2 rounds to 50),
   * listed in registration order.
   */
  lemma NormalizeEqualPair(a: Host, b: Host, w: map<Host, int>)
    requires a != b && a in w && b in w && w[a] == w[b] > 0
    ensures Normalize([a, b], w) == [Bucket(50, [a, b])]
  {
    var n := w[a];
    assert Sum([a, b], w) == 2 * n by {
      assert [a][..0] == [];
      assert Sum([a], w) == n;
      assert [a, b][..1] == [a];
    }
    assert Round(n, 2 * n) == 50 by {
      QuotUnique(200 * n + 2 * n, 2 * (2 * n), 50);
    }
    BucketsBelowSingle([a, b], Shares([a, b], w), 101, 50);
  }
}
