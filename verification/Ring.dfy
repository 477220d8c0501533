/** Index arithmetic of a ring of `n` slots, done as the driver does it: add one, reset at the end. */
module Ring {
  import opened Common

  function Inc(p: nat, n: nat): nat {
    if p + 1 == n then 0 else p + 1
  }

  /** `k` increments from `p`. */
  function Advance(p: nat, n: nat, k: nat): nat
    requires p < n && k <= n
  {
    if p + k < n then p + k else p + k - n
  }

  /** How many increments lead from `p` to `s`. */
  function Dist(p: nat, s: nat, n: nat): nat
    requires p < n && s < n
  {
    if s >= p then s - p else n - p + s
  }

  /** The slot of the `j`-th item ever put into the ring. */
  ghost function Slot(j: nat, n: nat): nat
    requires n > 0
    ensures Slot(j, n) < n
  {
    if j == 0 then 0 else Inc(Slot(j - 1, n), n)
  }

  lemma {:induction false} SlotAdvance(j: nat, k: nat, n: nat)
    requires n > 0 && k <= n
    ensures Slot(j + k, n) == Advance(Slot(j, n), n, k)
  {
    if k > 0 {
      SlotAdvance(j, k - 1, n);
    }
  }

  /** Items less than a full turn apart sit in different slots, and their distance can be read off the slots. */
  lemma {:induction false} SlotDist(j: nat, k: nat, n: nat)
    requires n > 0 && k < n
    ensures Dist(Slot(j, n), Slot(j + k, n), n) == k
  {
    SlotAdvance(j, k, n);
  }

  lemma {:induction false} SlotIsMod(j: nat, n: nat)
    requires n > 0
    ensures Slot(j, n) == j % n
  {
    hide Slot;
    if j < n {
      SlotAdvance(0, j, n);
      SlotZero(n);
      ModSmall(j, n);
    } else {
      SlotIsMod(j - n, n);
      SlotAdvance(j - n, n, n);
      ModAddSelf(j - n, n);
    }
  }

  lemma {:induction false} SlotZero(n: nat)
    requires n > 0
    ensures Slot(0, n) == 0
  {
  }

  lemma {:induction false} ModSmall(j: nat, n: nat)
    requires j < n
    ensures j % n == j
  {
  }

  lemma {:induction false} ModAddSelf(j: nat, n: nat)
    requires n > 0
    ensures (j + n) % n == j % n
  {
    var r, k := j % n, j / n;
    assert j + n == r + n * (k + 1);
    Remainder(r, k + 1, n);
  }

  /** `items` written from slot `p` on, wrapping at the end. */
  function Store<T>(ring: seq<T>, p: nat, items: seq<T>): (r: seq<T>)
    requires p < |ring| && |items| <= |ring|
    ensures |r| == |ring|
  {
    seq(|ring|, s requires 0 <= s < |ring| =>
      if Dist(p, s, |ring|) < |items| then items[Dist(p, s, |ring|)] else ring[s])
  }

  lemma {:induction false} StoreNone<T>(ring: seq<T>, p: nat)
    requires p < |ring|
    ensures Store(ring, p, []) == ring && Advance(p, |ring|, 0) == p
  {
  }

  /** The window [lo, hi) of absolute positions is readable from the ring. */
  ghost predicate Holds<T>(ring: seq<T>, lo: nat, hi: nat, stream: seq<T>)
    requires |ring| > 0
  {
    && hi <= |stream|
    && forall j :: lo <= j < hi ==> ring[Slot(j, |ring|)] == stream[j]
  }

  /** Writing behind a window of fewer than `n` items leaves the window alone and extends it. */
  lemma {:induction false} StoreExtends<T>(ring: seq<T>, lo: nat, hi: nat, stream: seq<T>, items: seq<T>)
    requires 0 < |ring| && lo <= hi <= |stream|
    requires Holds(ring, lo, hi, stream)
    requires hi + |items| <= |stream| && stream[hi..hi + |items|] == items
    requires hi - lo + |items| < |ring|
    ensures Holds(Store(ring, Slot(hi, |ring|), items), lo, hi + |items|, stream)
  {
    var n := |ring|;
    forall j | lo <= j < hi + |items|
      ensures Store(ring, Slot(hi, n), items)[Slot(j, n)] == stream[j]
    {
      if j < hi {
        SlotDist(j, hi - j, n);
      } else {
        SlotDist(hi, j - hi, n);
        assert items[j - hi] == stream[j];
      }
    }
  }
}
