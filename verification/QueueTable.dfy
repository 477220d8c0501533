/** The queue table of one direction: a counter of reserved queues kept under one lock and slots claimed one by one
    under their own locks. Adds and removes by any number of threads interleave at these lock sections. The other
    direction has its own counter and slots and takes no part. */
module QueueTable {
  import opened Common

  function CountTrue(s: seq<bool>): (n: nat)
    ensures n <= |s|
  {
    if s == [] then 0 else CountTrue(s[..|s| - 1]) + (if s[|s| - 1] then 1 else 0)
  }

  lemma {:induction false} CountTrueSet(s: seq<bool>, i: nat, b: bool)
    requires i < |s|
    ensures CountTrue(s[i := b]) == CountTrue(s) - (if s[i] then 1 else 0) + (if b then 1 else 0)
    decreases |s|
  {
    var m := |s| - 1;
    if i == m {
      assert s[i := b][..m] == s[..m];
    } else {
      CountTrueSet(s[..m], i, b);
      assert s[i := b][..m] == s[..m][i := b];
    }
  }

  /** A table with fewer enabled slots than slots has a free one, and conversely. */
  lemma {:induction false} CountTrueFull(s: seq<bool>)
    ensures CountTrue(s) == |s| <==> forall i :: 0 <= i < |s| ==> s[i]
    decreases |s|
  {
    if s != [] {
      var m := |s| - 1;
      CountTrueFull(s[..m]);
      assert s == s[..m] + [s[m]];
    }
  }

  // ---------------------------------------------------------------------------
  // Interleaved adds and removes
  // ---------------------------------------------------------------------------

  /** Where a thread stands between two lock sections. `Scan(i)`, `Claim(i)`, `Undo`: it has reserved a queue and has no
      slot yet. `Holding(i)`: the add returned slot `i`. `Release`: the slot is disabled, the counter not yet lowered. */
  datatype Pc = Idle | Scan(i: nat) | Claim(i: nat) | Undo(error: int) | Failed(error: int) | Holding(i: nat) | Release

  datatype Table = Table(qcnt: nat, enabled: seq<bool>, threads: seq<Pc>)

  /** `Go` is the next lock section of a thread in the middle of a call. */
  datatype Action = Add(qidx: Option<nat>) | Remove | Go

  function Reserve(s: Table, t: nat, qidx: Option<nat>): Table
    requires t < |s.threads|
  {
    var qmax := |s.enabled|;
    if s.qcnt >= qmax then s.(threads := s.threads[t := Failed(-EAGAIN)])
    else if qidx.Some? && qidx.value >= qmax then s.(threads := s.threads[t := Failed(-EINVAL)])
    else Table(s.qcnt + 1, s.enabled, s.threads[t := if qidx.None? then Scan(0) else Claim(qidx.value)])
  }

  function Continue(s: Table, t: nat): Table
    requires t < |s.threads|
  {
    var qmax := |s.enabled|;
    match s.threads[t]
    case Scan(i) =>
      if i >= qmax then s.(threads := s.threads[t := Undo(-EAGAIN)])
      else if s.enabled[i] then s.(threads := s.threads[t := Scan(i + 1)])
      else s.(enabled := s.enabled[i := true], threads := s.threads[t := Holding(i)])
    case Claim(i) =>
      if i >= qmax || s.enabled[i] then s.(threads := s.threads[t := Undo(-EINVAL)])
      else s.(enabled := s.enabled[i := true], threads := s.threads[t := Holding(i)])
    case Undo(error) => s.(qcnt := if s.qcnt == 0 then 0 else s.qcnt - 1, threads := s.threads[t := Failed(error)])
    case Release => s.(qcnt := if s.qcnt == 0 then 0 else s.qcnt - 1, threads := s.threads[t := Idle])
    case _ => s
  }

  ghost predicate Next(s: Table, t: nat, a: Action, s': Table) {
    t < |s.threads| &&
    match a
    case Add(qidx) => (s.threads[t].Idle? || s.threads[t].Failed?) && s' == Reserve(s, t, qidx)
    case Remove =>
      && s.threads[t].Holding? && s.threads[t].i < |s.enabled|
      && s' == s.(enabled := s.enabled[s.threads[t].i := false], threads := s.threads[t := Release])
    case Go => s' == Continue(s, t)
  }

  /** Counted in the counter although no slot shows it. */
  function Weight(pc: Pc): nat {
    if pc.Scan? || pc.Claim? || pc.Undo? || pc.Release? then 1 else 0
  }

  function Weights(threads: seq<Pc>): nat {
    if threads == [] then 0 else Weights(threads[..|threads| - 1]) + Weight(threads[|threads| - 1])
  }

  lemma {:induction false} WeightsSet(threads: seq<Pc>, t: nat, pc: Pc)
    requires t < |threads|
    ensures Weights(threads[t := pc]) == Weights(threads) - Weight(threads[t]) + Weight(pc)
    ensures Weight(threads[t]) <= Weights(threads)
    decreases |threads|
  {
    var m := |threads| - 1;
    if t == m {
      assert threads[t := pc][..m] == threads[..m];
    } else {
      WeightsSet(threads[..m], t, pc);
      assert threads[t := pc][..m] == threads[..m][t := pc];
    }
  }

  ghost predicate InPlace(s: Table, t: nat)
    requires t < |s.threads|
  {
    match s.threads[t]
    case Scan(i) => i <= |s.enabled|
    case Claim(i) => i < |s.enabled|
    case Holding(i) => i < |s.enabled| && s.enabled[i]
    case _ => true
  }

  /** The counter is the enabled slots plus the adds that have no slot yet plus the removes not yet counted. */
  ghost predicate Inv(s: Table) {
    && s.qcnt == CountTrue(s.enabled) + Weights(s.threads) <= |s.enabled|
    && (forall t :: 0 <= t < |s.threads| ==> InPlace(s, t))
    && (forall t, u :: 0 <= t < u < |s.threads| && s.threads[t].Holding? && s.threads[u].Holding? ==>
          s.threads[t].i != s.threads[u].i)
  }

  lemma {:induction false} NextCounts(s: Table, t: nat, a: Action, s': Table)
    requires Inv(s) && Next(s, t, a, s')
    ensures |s'.enabled| == |s.enabled| && |s'.threads| == |s.threads|
    ensures s'.qcnt == CountTrue(s'.enabled) + Weights(s'.threads) <= |s'.enabled|
  {
    hide CountTrue, Weights;
    var pc, pc' := s.threads[t], s'.threads[t];
    WeightsSet(s.threads, t, pc');
    assert s'.threads == s.threads[t := pc'];
    assert InPlace(s, t);
    if pc'.Holding? && !pc.Holding? {
      CountTrueSet(s.enabled, pc'.i, true);
    }
    if a.Remove? {
      CountTrueSet(s.enabled, pc.i, false);
    }
  }

  lemma {:induction false} NextPlaces(s: Table, t: nat, a: Action, s': Table, u: nat)
    requires Inv(s) && Next(s, t, a, s') && u < |s.threads|
    ensures InPlace(s', u)
  {
    hide CountTrue, Weights;
    assert InPlace(s, u) && InPlace(s, t);
  }

  lemma {:induction false} NextHolders(s: Table, t: nat, a: Action, s': Table, u: nat, v: nat)
    requires Inv(s) && Next(s, t, a, s') && u < v < |s.threads| && s'.threads[u].Holding? && s'.threads[v].Holding?
    ensures s'.threads[u].i != s'.threads[v].i
  {
    hide CountTrue, Weights;
    assert InPlace(s, u) && InPlace(s, v);
  }

  lemma {:induction false} NextInv(s: Table, t: nat, a: Action, s': Table)
    requires Inv(s) && Next(s, t, a, s')
    ensures Inv(s') && |s'.enabled| == |s.enabled| && |s'.threads| == |s.threads|
  {
    hide CountTrue, Weights, InPlace, Next;
    NextCounts(s, t, a, s');
    forall u | 0 <= u < |s'.threads| ensures InPlace(s', u) {
      NextPlaces(s, t, a, s', u);
    }
    forall u, v | 0 <= u < v < |s'.threads| && s'.threads[u].Holding? && s'.threads[v].Holding?
      ensures s'.threads[u].i != s'.threads[v].i
    {
      NextHolders(s, t, a, s', u, v);
    }
  }

  ghost predicate Trace(ss: seq<Table>, acts: seq<(nat, Action)>) {
    && |ss| == |acts| + 1
    && Inv(ss[0])
    && forall k :: 0 <= k < |acts| ==> Next(ss[k], acts[k].0, acts[k].1, ss[k + 1])
  }

  /** An empty table and threads that have not begun. */
  function Empty(qmax: nat, n: nat): Table {
    Table(0, seq(qmax, _ => false), seq(n, _ => Idle))
  }

  lemma {:induction false} EmptyInv(qmax: nat, n: nat)
    ensures Inv(Empty(qmax, n))
  {
    NoneTrue(Empty(qmax, n).enabled);
    NoneWeigh(Empty(qmax, n).threads);
  }

  lemma {:induction false} NoneTrue(s: seq<bool>)
    requires forall i :: 0 <= i < |s| ==> !s[i]
    ensures CountTrue(s) == 0
  {
    if s != [] {
      NoneTrue(s[..|s| - 1]);
    }
  }

  lemma {:induction false} NoneWeigh(threads: seq<Pc>)
    requires forall i :: 0 <= i < |threads| ==> threads[i].Idle?
    ensures Weights(threads) == 0
  {
    if threads != [] {
      NoneWeigh(threads[..|threads| - 1]);
    }
  }

  /** In every interleaving of adds and removes the reservations are conserved and never exceed the table, and no two
      threads hold the same queue. */
  lemma {:induction false} ReservationsConserved(ss: seq<Table>, acts: seq<(nat, Action)>, k: nat)
    requires Trace(ss, acts) && k < |ss|
    ensures Inv(ss[k]) && |ss[k].enabled| == |ss[0].enabled| && |ss[k].threads| == |ss[0].threads|
  {
    hide Inv, Next;
    if k > 0 {
      ReservationsConserved(ss, acts, k - 1);
      assert Next(ss[k - 1], acts[k - 1].0, acts[k - 1].1, ss[k - 1 + 1]);
      NextInv(ss[k - 1], acts[k - 1].0, acts[k - 1].1, ss[k]);
    }
  }

  // --- The "full" branch ---

  /** A scanning thread has only enabled slots behind it. */
  ghost predicate NoHole(s: Table) {
    forall t, i :: 0 <= t < |s.threads| && s.threads[t].Scan? && 0 <= i < s.threads[t].i && i < |s.enabled| ==> s.enabled[i]
  }

  /** As long as nobody removes a queue, a reserved add always finds a slot: no thread ever gets past the last slot. */
  lemma {:induction false} AddsAlwaysFit(ss: seq<Table>, acts: seq<(nat, Action)>, k: nat)
    requires Trace(ss, acts) && NoHole(ss[0]) && k < |ss|
    requires forall j :: 0 <= j < |acts| ==> !acts[j].1.Remove?
    ensures NoHole(ss[k])
    ensures forall t :: 0 <= t < |ss[k].threads| && ss[k].threads[t].Scan? ==> ss[k].threads[t].i < |ss[k].enabled|
  {
    hide Inv;
    ReservationsConserved(ss, acts, k);
    if k > 0 {
      AddsAlwaysFit(ss, acts, k - 1);
      assert Next(ss[k - 1], acts[k - 1].0, acts[k - 1].1, ss[k - 1 + 1]);
      KeepsNoHole(ss[k - 1], acts[k - 1].0, acts[k - 1].1, ss[k]);
    }
    forall t | 0 <= t < |ss[k].threads| && ss[k].threads[t].Scan? ensures ss[k].threads[t].i < |ss[k].enabled| {
      ScanFits(ss[k], t);
    }
  }

  lemma {:induction false} KeepsNoHole(s: Table, t: nat, a: Action, s': Table)
    requires NoHole(s) && Next(s, t, a, s') && !a.Remove?
    ensures NoHole(s')
  {
  }

  lemma {:induction false} ScanFits(s: Table, t: nat)
    requires Inv(s) && NoHole(s) && t < |s.threads| && s.threads[t].Scan?
    ensures s.threads[t].i < |s.enabled|
  {
    hide Weights;
    CountTrueFull(s.enabled);
    WeightsSet(s.threads, t, Idle);
  }

  /** While an add has its reservation and no slot, some slot is free: the branch for a full table is never taken on a
      table that is full. */
  lemma {:induction false} ReservedSlotIsFree(s: Table, t: nat)
    requires Inv(s) && t < |s.threads| && (s.threads[t].Scan? || s.threads[t].Claim?)
    ensures exists i :: 0 <= i < |s.enabled| && !s.enabled[i]
  {
    CountTrueFull(s.enabled);
    WeightsSet(s.threads, t, Idle);
  }

  /** The rest of a scan that nobody disturbs. */
  function Alone(s: Table, t: nat): (r: Table)
    requires t < |s.threads|
    ensures |r.threads| == |s.threads|
    decreases if s.threads[t].Scan? then 1 + (if s.threads[t].i < |s.enabled| then |s.enabled| - s.threads[t].i else 0) else 0
  {
    if s.threads[t].Scan? then Alone(Continue(s, t), t) else s
  }

  /** From any reachable table, an add that scans on undisturbed takes the first free slot before it; it is refused if
      and only if every free slot lies behind it, and there is one. */
  lemma {:induction false} ScanExact(s: Table, t: nat)
    requires Inv(s) && t < |s.threads| && s.threads[t].Scan?
    ensures exists i :: 0 <= i < |s.enabled| && !s.enabled[i]
    ensures var i, s' := s.threads[t].i, Alone(s, t);
            && (s'.threads[t] == Undo(-EAGAIN) <==> forall j :: i <= j < |s.enabled| ==> s.enabled[j])
            && (s'.threads[t] != Undo(-EAGAIN) ==>
                  && s'.threads[t].Holding? && i <= s'.threads[t].i < |s.enabled| && !s.enabled[s'.threads[t].i]
                  && (forall j :: i <= j < s'.threads[t].i ==> s.enabled[j])
                  && s'.enabled == s.enabled[s'.threads[t].i := true])
    decreases |s.enabled| - s.threads[t].i
  {
    hide Inv, CountTrue, Weights;
    ReservedSlotIsFree(s, t);
    var i, s1 := s.threads[t].i, Continue(s, t);
    if i < |s.enabled| && s.enabled[i] {
      NextInv(s, t, Go, s1);
      ScanExact(s1, t);
    }
  }

  /** Where an add that names slot `i` can stand: waiting for that slot, having it, or refused. */
  predicate NamedAdd(i: nat, pc: Pc) {
    pc == Claim(i) || pc == Holding(i) || pc == Undo(-EINVAL) || pc == Failed(-EINVAL) || pc == Failed(-EAGAIN)
  }

  /** It is refused if and only if the table is fully reserved, there is no such slot, or it finds the slot taken. */
  lemma {:induction false} NamedAddExact(s: Table, t: nat, i: nat, s': Table)
    requires t < |s.threads|
    ensures Next(s, t, Add(Some(i)), s') ==>
              s'.threads[t] == if s.qcnt >= |s.enabled| then Failed(-EAGAIN)
                               else if i >= |s.enabled| then Failed(-EINVAL) else Claim(i)
    ensures Inv(s) && s.threads[t] == Claim(i) && Next(s, t, Go, s') ==>
              i < |s.enabled| && s'.threads[t] == if s.enabled[i] then Undo(-EINVAL) else Holding(i)
    ensures s.threads[t] == Undo(-EINVAL) && Next(s, t, Go, s') ==> s'.threads[t] == Failed(-EINVAL)
  {
    assert Inv(s) ==> InPlace(s, t);
  }

  /** In every interleaving, an add that names slot `i` goes nowhere else, until its thread calls again. */
  lemma {:induction false} NamedAddRun(ss: seq<Table>, acts: seq<(nat, Action)>, t: nat, i: nat, k: nat, j: nat)
    requires Trace(ss, acts) && k < j < |ss| && acts[k] == (t, Add(Some(i)))
    requires forall m :: k < m < j && acts[m].0 == t ==> acts[m].1 == Go
    ensures t < |ss[j].threads| && NamedAdd(i, ss[j].threads[t])
    decreases j
  {
    hide Inv;
    assert Next(ss[k], acts[k].0, acts[k].1, ss[k + 1]);
    if j > k + 1 {
      NamedAddRun(ss, acts, t, i, k, j - 1);
      assert Next(ss[j - 1], acts[j - 1].0, acts[j - 1].1, ss[j - 1 + 1]);
    }
  }

  /** Thread 1 passes slot 0 while thread 0 holds it; thread 0 gives it back; thread 2 takes slot 1; thread 1 finds
      no slot and gives up. */
  function Story(k: nat): Table {
    if k == 0 then Empty(2, 3)
    else if k == 1 then Table(1, [false, false], [Scan(0), Idle, Idle])
    else if k == 2 then Table(1, [true, false], [Holding(0), Idle, Idle])
    else if k == 3 then Table(2, [true, false], [Holding(0), Scan(0), Idle])
    else if k == 4 then Table(2, [true, false], [Holding(0), Scan(1), Idle])
    else if k == 5 then Table(2, [false, false], [Release, Scan(1), Idle])
    else if k == 6 then Table(1, [false, false], [Idle, Scan(1), Idle])
    else if k == 7 then Table(2, [false, false], [Idle, Scan(1), Claim(1)])
    else if k == 8 then Table(2, [false, true], [Idle, Scan(1), Holding(1)])
    else if k == 9 then Table(2, [false, true], [Idle, Scan(2), Holding(1)])
    else Table(2, [false, true], [Idle, Undo(-EAGAIN), Holding(1)])
  }

  const STORY_STEPS: seq<(nat, Action)> :=
    [(0, Add(None)), (0, Go), (1, Add(None)), (1, Go), (0, Remove), (0, Go), (2, Add(Some(1))), (2, Go), (1, Go), (1, Go)]

  lemma {:induction false} StoryBegins(k: nat)
    requires k < 5
    ensures Next(Story(k), STORY_STEPS[k].0, STORY_STEPS[k].1, Story(k + 1))
  {
  }

  lemma {:induction false} StoryEnds(k: nat)
    requires 5 <= k < 10
    ensures Next(Story(k), STORY_STEPS[k].0, STORY_STEPS[k].1, Story(k + 1))
  {
  }

  /** With removes in between, an add can be refused although a slot is free. */
  lemma {:induction false} AddRefusedBesideFreeSlot() returns (ss: seq<Table>)
    ensures |ss| == 11 && Trace(ss, STORY_STEPS) && ss[0] == Empty(2, 3)
    ensures ss[10] == Table(2, [false, true], [Idle, Undo(-EAGAIN), Holding(1)])
  {
    hide Story, Next, Inv, Empty;
    EmptyInv(2, 3);
    StoryFrame();
    ss := seq(11, k requires 0 <= k => Story(k));
    forall k | 0 <= k < |STORY_STEPS| ensures Next(ss[k], STORY_STEPS[k].0, STORY_STEPS[k].1, ss[k + 1]) {
      if k < 5 { StoryBegins(k); } else { StoryEnds(k); }
    }
  }

  lemma {:induction false} StoryFrame()
    ensures Story(0) == Empty(2, 3) && Story(10) == Table(2, [false, true], [Idle, Undo(-EAGAIN), Holding(1)])
  {
  }

  // ---------------------------------------------------------------------------
  // One add or remove at a time
  // ---------------------------------------------------------------------------

  class Slots {
    const enabled: array<bool>
    var qcnt: nat

    ghost predicate Valid()
      reads this, enabled
    {
      qcnt == CountTrue(enabled[..])
    }

    constructor (qmax: nat)
      ensures Valid() && fresh(enabled) && enabled.Length == qmax && forall i :: 0 <= i < qmax ==> !enabled[i]
    {
      enabled := new bool[qmax](_ => false);
      qcnt := 0;
      new;
      NoneTrue(enabled[..]);
    }

    /** `qdma_queue_add`: without interference it succeeds whenever a fitting slot is free, takes the wanted or the first
        free slot, and otherwise leaves the table as it was. The branch for a full table after a granted reservation
        cannot be reached. */
    method QueueAdd(qidx: Option<nat>) returns (rv: int, slot: nat)
      requires Valid()
      modifies this`qcnt, enabled
      ensures Valid()
      ensures rv == 0 <==>
              old(qcnt) < enabled.Length && (qidx.None? || (qidx.value < enabled.Length && !old(enabled[..])[qidx.value]))
      ensures rv == 0 ==> slot < enabled.Length && !old(enabled[..])[slot] && enabled[..] == old(enabled[..])[slot := true]
      ensures rv == 0 ==> qcnt == old(qcnt) + 1
      ensures rv == 0 ==> if qidx.Some? then slot == qidx.value else forall j :: 0 <= j < slot ==> old(enabled[..])[j]
      ensures rv != 0 ==> enabled[..] == old(enabled[..]) && qcnt == old(qcnt)
      ensures rv != 0 ==> rv == if old(qcnt) >= enabled.Length then -EAGAIN else -EINVAL
    {
      slot := 0;
      if qcnt >= enabled.Length {
        return -EAGAIN, 0;
      }
      if qidx.Some? && qidx.value >= enabled.Length {
        return -EINVAL, 0;
      }
      ghost var before := enabled[..];
      CountTrueFull(before);
      qcnt := qcnt + 1;
      if qidx.None? {
        while slot < enabled.Length && enabled[slot]
          invariant slot <= enabled.Length && enabled[..] == before
          invariant forall j :: 0 <= j < slot ==> before[j]
        {
          slot := slot + 1;
        }
        if slot == enabled.Length {
          assert false;
        }
      } else {
        slot := qidx.value;
        if enabled[slot] {
          qcnt := qcnt - 1;
          return -EINVAL, 0;
        }
      }
      CountTrueSet(before, slot, true);
      enabled[slot] := true;
      assert enabled[..] == before[slot := true];
      return 0, slot;
    }

    /** The table part of `qdma_queue_remove`; together with an add it restores the table. */
    method QueueRemove(slot: nat) returns (rv: int)
      requires Valid()
      modifies this`qcnt, enabled
      ensures Valid()
      ensures rv == 0 <==> slot < enabled.Length && old(enabled[..])[slot]
      ensures rv == 0 ==> enabled[..] == old(enabled[..])[slot := false] && qcnt == old(qcnt) - 1
      ensures rv != 0 ==> enabled[..] == old(enabled[..]) && qcnt == old(qcnt)
    {
      if slot >= enabled.Length || !enabled[slot] {
        return -EINVAL;
      }
      CountTrueSet(enabled[..], slot, false);
      ghost var before := enabled[..];
      enabled[slot] := false;
      assert enabled[..] == before[slot := false];
      qcnt := qcnt - 1;
      return 0;
    }
  }

  // ---------------------------------------------------------------------------
  // Queue handles
  // ---------------------------------------------------------------------------

  /** `qdma_device_get_descq_by_id`: direction and index of a handle. With `init` the queue must be enabled. */
  function Lookup(h: nat, h2cEnabled: seq<bool>, c2hEnabled: seq<bool>, init: bool): Option<(bool, nat)>
    requires |h2cEnabled| == |c2hEnabled|
  {
    var qmax := |h2cEnabled|;
    if h >= qmax then
      if h - qmax >= qmax || (init && !c2hEnabled[h - qmax]) then None else Some((true, h - qmax))
    else if init && !h2cEnabled[h] then None
    else Some((false, h))
  }

  /** A handle resolves to a direction and index if and only if it was built for them and, with `init`, the queue is
      enabled; without it, the handles in range are those below twice the table size. */
  lemma {:induction false} LookupExact(h: nat, h2cEnabled: seq<bool>, c2hEnabled: seq<bool>, init: bool, c2h: bool, idx: nat)
    requires |h2cEnabled| == |c2hEnabled|
    ensures Lookup(h, h2cEnabled, c2hEnabled, init) == Some((c2h, idx)) <==>
            && idx < |h2cEnabled| && h == (if c2h then |h2cEnabled| + idx else idx)
            && (init ==> (if c2h then c2hEnabled else h2cEnabled)[idx])
    ensures Lookup(h, h2cEnabled, c2hEnabled, false).Some? <==> h < 2 * |h2cEnabled|
  {
  }
}
