/** What the driver promises of a queue, as statements over every run. */
module QueueTheorems {
  import opened SgList
  import opened Ring
  import opened Queue
  import opened QueueRun

  // ---------------------------------------------------------------------------
  // Completion and payload
  // ---------------------------------------------------------------------------

  /** A request is finished exactly when all of its descriptors have been observed. */
  lemma {:induction false} DoneExact(w: World, r: nat)
    requires Inv(w) && r < |w.subs|
    ensures r < |w.q.done| <==> End(w.subs, r + 1) <= Observed(w)
    ensures r < |w.q.done| ==> w.q.done[r] == Completion(w.subs[r], w.subs[r].count, 0)
  {
    hide Carries, WellFormed, Partial, Slot, End;
    var k := |w.q.done|;
    if r < k {
      EndMonotone(w.subs, r + 1, k);
    } else {
      EndMonotone(w.subs, k + 1, r + 1);
      if w.q.pend == [] {
        HeadFacts(w);
        PartialBound(w.q.work[0]);
      }
    }
  }

  /** The last descriptor of request `r` is among those the hardware has reported. */
  ghost predicate WhollyReported(w: World, r: nat)
    requires r < |w.subs|
  {
    End(w.subs, r + 1) <= w.reported
  }

  /** After every writeback, the finished requests are exactly those whose last descriptor the hardware
      has reported, each finished once, in submission order, with its full byte count and no error; and
      the reported descriptors were really fetched. */
  lemma {:induction false} CompletionExact(kind: Kind, rngsz: nat, ws: seq<World>, steps: seq<Step>, i: nat)
    requires rngsz > 0 && Trace(kind, rngsz, ws, steps)
    requires i < |steps| && steps[i] == Service
    ensures var w := ws[i + 1];
            && |w.q.done| <= |w.subs| && w.reported <= |w.log|
            && (forall r :: 0 <= r < |w.subs| ==> (r < |w.q.done| <==> WhollyReported(w, r)))
            && (forall r :: 0 <= r < |w.q.done| ==> w.q.done[r] == Completion(w.subs[r], w.subs[r].count, 0))
  {
    hide Inv, Writeback, Observed, Slot, End, WellFormed;
    TraceInv(kind, rngsz, ws, steps, i);
    TraceInv(kind, rngsz, ws, steps, i + 1);
    var w := ws[i + 1];
    assert Next(ws[i], Service, w);
    ServiceInv(ws[i], w);
    Order(w);
    forall r | 0 <= r < |w.subs|
      ensures r < |w.q.done| <==> WhollyReported(w, r)
      ensures r < |w.q.done| ==> w.q.done[r] == Completion(w.subs[r], w.subs[r].count, 0)
    {
      DoneExact(w, r);
    }
  }

  /** Finished, observed, reported, fetched and programmed descriptors, each at most the next. */
  lemma {:induction false} Order(w: World)
    requires Inv(w)
    ensures |w.q.done| <= |w.subs| == |w.q.done| + |w.q.pend| + |w.q.work|
    ensures 0 <= End(w.subs, |w.q.done|) <= Observed(w) <= w.reported <= |w.log| <= Produced(w)
    ensures w.q.avail == |w.q.ring| - 1 - (Produced(w) - Observed(w))
  {
    hide Lists, Carries, AllWellFormed, Slot, End;
  }

  /** At any time of any run, what the hardware has fetched is a prefix of all submitted elements in
      submission order (no gap, no repeat), and it covers every finished request. */
  lemma {:induction false} PayloadExactlyOnce(kind: Kind, rngsz: nat, ws: seq<World>, steps: seq<Step>, i: nat)
    requires rngsz > 0 && Trace(kind, rngsz, ws, steps) && i < |ws|
    ensures var w := ws[i];
            && Hosts(kind, w.log) <= Flat(w.subs)
            && |w.q.done| <= |w.subs|
            && Flat(w.subs[..|w.q.done|]) <= Hosts(kind, w.log)
  {
    hide Lists, Charged, AllWellFormed, Slot, End, Flat, Hosts, Holds, Next;
    TraceInv(kind, rngsz, ws, steps, i);
    var w := ws[i];
    var flat, e := Flat(w.subs), End(w.subs, |w.q.done|);
    FlatEnd(w.subs, |w.q.done|);
    Order(w);
    assert flat[..e] == flat[..|w.log|][..e];
  }

  // ---------------------------------------------------------------------------
  // Conservation of credit
  // ---------------------------------------------------------------------------

  function DescSum(cbs: seq<Cb>): nat {
    if cbs == [] then 0 else cbs[0].descNr + DescSum(cbs[1..])
  }

  lemma {:induction false} DescSumCut(cbs: seq<Cb>, i: nat)
    requires i < |cbs|
    ensures DescSum(RemoveAt(cbs, i)) == DescSum(cbs) - cbs[i].descNr
  {
    if i == 0 {
      assert RemoveAt(cbs, 0) == cbs[1..];
    } else {
      DescSumCut(cbs[1..], i - 1);
      assert RemoveAt(cbs, i)[1..] == RemoveAt(cbs[1..], i - 1);
    }
  }

  lemma {:induction false} DescSumFull(cbs: seq<Cb>, subs: seq<Req>, k: nat)
    requires k + |cbs| <= |subs|
    requires forall i :: 0 <= i < |cbs| ==> cbs[i].req == subs[k + i] && cbs[i].descNr == |cbs[i].req.sgl|
    ensures DescSum(cbs) == End(subs, k + |cbs|) - End(subs, k)
    decreases |cbs|
  {
    if cbs != [] {
      assert forall i :: 0 <= i < |cbs[1..]| ==> cbs[1..][i] == cbs[i + 1];
      assert cbs[0].req == subs[k];
      DescSumFull(cbs[1..], subs, k + 1);
    }
  }

  lemma {:induction false} DescSumZero(cbs: seq<Cb>)
    requires forall i :: 0 <= i < |cbs| ==> cbs[i].descNr == 0
    ensures DescSum(cbs) == 0
  {
    if cbs != [] {
      DescSumZero(cbs[1..]);
    }
  }

  lemma {:induction false} PendSum(w: World)
    requires Inv(w)
    ensures DescSum(w.q.pend) == End(w.subs, |w.q.done| + |w.q.pend|) - Observed(w) + w.q.credit
  {
    hide Carries, AllWellFormed, Partial, Slot, Indices;
    var q, k := w.q, |w.q.done|;
    if q.pend == [] {
      ChargedNone(w);
    } else {
      assert forall i :: 0 <= i < |q.pend[1..]| ==> q.pend[1..][i] == q.pend[i + 1];
      DescSumFull(q.pend[1..], w.subs, k + 1);
    }
  }

  lemma {:induction false} ChargedNone(w: World)
    requires Inv(w) && w.q.pend == []
    ensures w.q.credit == Observed(w) - End(w.subs, |w.q.done|)
  {
  }

  lemma {:induction false} WorkSum(w: World)
    requires Inv(w)
    ensures DescSum(w.q.work) == Produced(w) - End(w.subs, |w.q.done| + |w.q.pend|)
  {
    hide Carries, Charged, AllWellFormed, Partial, Slot, Indices, End;
    if w.q.work != [] {
      DescSumZero(w.q.work[1..]);
    }
  }

  /** The descriptors charged to queued requests are those in the ring plus the credit held over. */
  predicate Balanced(q: Q) {
    DescSum(q.pend) + DescSum(q.work) == (|q.ring| - 1 - q.avail) + q.credit
  }

  lemma {:induction false} Balance(w: World)
    requires Inv(w)
    ensures Balanced(w.q)
  {
    hide Inv, Produced, End;
    PendSum(w);
    WorkSum(w);
  }

  /** Credit is conserved in every state of every run; once the ring has drained nothing is pending and the
      credit is exactly what is programmed of a half-programmed request. */
  lemma {:induction false} CreditConserved(kind: Kind, rngsz: nat, ws: seq<World>, steps: seq<Step>, i: nat)
    requires rngsz > 0 && Trace(kind, rngsz, ws, steps) && i < |ws|
    ensures var q := ws[i].q;
            && |q.ring| == rngsz && Balanced(q)
            && (q.pidx == q.cidx ==> q.pend == [] && q.credit == if q.work == [] then 0 else q.work[0].descNr)
  {
    hide Inv, Next, Dist;
    TraceInv(kind, rngsz, ws, steps, i);
    Balance(ws[i]);
    InBoundsInv(ws[i]);
    if ws[i].q.pidx == ws[i].q.cidx {
      DrainedCredit(ws[i]);
    }
  }

  lemma {:induction false} InBoundsInv(w: World)
    requires Inv(w)
    ensures InBounds(w)
  {
  }

  lemma {:induction false} DrainedCredit(w: World)
    requires Inv(w) && Ok(w.q) && w.q.pidx == w.q.cidx
    ensures w.q.pend == [] && w.q.credit == if w.q.work == [] then 0 else w.q.work[0].descNr
  {
    Occupied(w);
    DrainedAt(w);
  }

  lemma {:induction false} DrainedAt(w: World)
    requires Inv(w) && Produced(w) == Observed(w)
    ensures w.q.pend == [] && w.q.credit == if w.q.work == [] then 0 else w.q.work[0].descNr
  {
    hide Carries, AllWellFormed, Partial, Slot, Indices, End;
    if w.q.pend != [] {
      EndMonotone(w.subs, |w.q.done| + 1, |w.q.done| + |w.q.pend|);
      assert false;
    }
  }

  /** A writeback that finds a new index leaves no unspent credit beside a pending request; one that
      finds nothing new changes nothing. */
  lemma {:induction false} CreditSpent(kind: Kind, rngsz: nat, ws: seq<World>, steps: seq<Step>, i: nat)
    requires rngsz > 0 && Trace(kind, rngsz, ws, steps)
    requires i < |steps| && steps[i] == Service
    ensures ws[i].wbCidx == ws[i].q.cidx ==> ws[i + 1] == ws[i]
    ensures ws[i].wbCidx != ws[i].q.cidx ==> ws[i + 1].q.credit == 0 || ws[i + 1].q.pend == []
  {
    hide Lists, Charged, Carries, AllWellFormed, Slot, Spend;
    TraceInv(kind, rngsz, ws, steps, i);
    assert Next(ws[i], Service, ws[i + 1]);
    ServiceInv(ws[i], ws[i + 1]);
  }

  // ---------------------------------------------------------------------------
  // Ring safety and work conservation
  // ---------------------------------------------------------------------------

  /** In every state the indices are inside the ring and tell how full it is; equal indices mean empty,
      never full; and what is to be fetched lies between them. */
  lemma {:induction false} RingSafety(kind: Kind, rngsz: nat, ws: seq<World>, steps: seq<Step>, i: nat)
    requires rngsz > 0 && Trace(kind, rngsz, ws, steps) && i < |ws|
    ensures var w := ws[i];
            && w.q.pidx < rngsz && w.q.cidx < rngsz && w.hwCidx < rngsz && |w.q.ring| == rngsz
            && w.q.avail == rngsz - 1 - Dist(w.q.cidx, w.q.pidx, rngsz)
            && Dist(w.q.cidx, w.hwCidx, rngsz) <= Dist(w.q.cidx, w.q.pidx, rngsz)
  {
    hide Inv, Next, Dist;
    TraceInv(kind, rngsz, ws, steps, i);
    InBoundsInv(ws[i]);
    Occupied(ws[i]);
    FetchWindow(ws[i]);
  }

  lemma {:induction false} FetchWindow(w: World)
    requires Inv(w) && InBounds(w)
    ensures Dist(w.q.cidx, w.hwCidx, |w.q.ring|) == |w.log| - Observed(w) <= Produced(w) - Observed(w)
  {
    hide Lists, Charged, Carries, AllWellFormed, Slot, End;
    SlotDist(Observed(w), |w.log| - Observed(w), |w.q.ring|);
  }

  /** A worker pass stops only for want of a slot or of work, overwrites nothing the hardware may still
      fetch, and leaves at most the first waiting request half programmed. */
  lemma {:induction false} WorkerPassExact(kind: Kind, rngsz: nat, ws: seq<World>, steps: seq<Step>, i: nat)
    requires rngsz > 0 && Trace(kind, rngsz, ws, steps)
    requires i < |steps| && steps[i] == Worker
    ensures var q, q' := ws[i].q, ws[i + 1].q;
            && Ok(q) && |q'.ring| == |q.ring| && q'.avail <= q.avail
            && (q'.avail == 0 || q'.work == [])
            && Untouched(q, q')
            && (forall j :: 0 < j < |q'.work| ==> q'.work[j].descNr == 0 && q'.work[j].offset == 0)
  {
    hide Inv, Untouched, WorkerPass, Observed, Produced;
    TraceInv(kind, rngsz, ws, steps, i);
    TraceInv(kind, rngsz, ws, steps, i + 1);
    assert Next(ws[i], Worker, ws[i + 1]);
    WorkerInv(ws[i], ws[i + 1]);
    OnlyHead(ws[i + 1]);
    FreeSlots(ws[i], ws[i + 1]);
  }

  lemma {:induction false} OnlyHead(w: World)
    requires Inv(w)
    ensures forall j :: 0 < j < |w.q.work| ==> w.q.work[j].descNr == 0 && w.q.work[j].offset == 0
  {
  }

  lemma {:induction false} FreeSlots(w: World, w': World)
    requires Inv(w) && Inv(w') && |w'.q.ring| == |w.q.ring| && Observed(w') == Observed(w)
    requires Produced(w') == Min(Produced(w) + w.q.avail, End(w.subs, |w.subs|))
    ensures w'.q.avail <= w.q.avail
  {
    hide Lists, Charged, Carries, AllWellFormed, Slot, End, Indices;
    ProducedMax(w);
  }

  lemma {:induction false} ProducedMax(w: World)
    requires Inv(w)
    ensures Produced(w) <= End(w.subs, |w.subs|)
    ensures w.q.work == [] ==> Produced(w) == End(w.subs, |w.subs|)
  {
    hide Charged, Carries, AllWellFormed, Slot, End, Indices, Partial;
    if w.q.work != [] {
      HeadFacts(w);
      PartialBound(w.q.work[0]);
      EndMonotone(w.subs, |w.q.done| + |w.q.pend| + 1, |w.subs|);
    }
  }

  // ---------------------------------------------------------------------------
  // Bounded progress
  // ---------------------------------------------------------------------------

  /** Any number of descriptor fetches. */
  ghost predicate Fetches(w: World, w': World)
    decreases |w'.log| - |w.log|
  {
    w == w' ||
    (|w.log| < |w'.log| &&
     exists m :: Next(w, HwFetch, m) && |m.log| == |w.log| + 1 && Fetches(m, w'))
  }

  /** A worker pass, then the hardware works off all it was given and reports, then a writeback. */
  ghost predicate Round(w: World, w': World) {
    exists w1, w2, w3 ::
      && Next(w, Worker, w1) && Fetches(w1, w2) && w2.hwCidx == w2.q.pidx
      && Next(w2, HwReport, w3) && Next(w3, Service, w')
  }

  ghost predicate Rounds(w: World, n: nat, w': World)
    decreases n
  {
    if n == 0 then w == w' else exists m :: Round(w, m) && Rounds(m, n - 1, w')
  }

  /** All descriptors of all requests. */
  ghost function Total(w: World): nat {
    End(w.subs, |w.subs|)
  }

  lemma {:induction false} FetchesInv(w: World, w': World)
    requires Inv(w) && Fetches(w, w')
    ensures Inv(w') && w'.q == w.q && w'.subs == w.subs
    decreases |w'.log| - |w.log|
  {
    hide Inv;
    if w != w' {
      var m :| Next(w, HwFetch, m) && |m.log| == |w.log| + 1 && Fetches(m, w');
      FetchInv(w, m);
      FetchesInv(m, w');
    }
  }

  lemma {:induction false} Caught(w: World)
    requires Inv(w) && InBounds(w) && w.hwCidx == w.q.pidx
    ensures |w.log| == Produced(w)
  {
    hide Inv, Produced, Observed;
    FetchWindow(w);
    Occupied(w);
  }

  /** One round moves the observed position on by a full ring less one, or to the very end. */
  lemma {:induction false} RoundAdvances(w: World, w': World)
    requires Inv(w) && Round(w, w')
    ensures Inv(w') && w'.subs == w.subs && |w'.q.ring| == |w.q.ring|
    ensures Observed(w') == Min(Observed(w) + |w.q.ring| - 1, Total(w))
  {
    hide Inv, Fetches, WorkerPass, Writeback, End;
    var w1, w2, w3 :|
      && Next(w, Worker, w1) && Fetches(w1, w2) && w2.hwCidx == w2.q.pidx
      && Next(w2, HwReport, w3) && Next(w3, Service, w');
    WorkerInv(w, w1);
    FetchesInv(w1, w2);
    Caught(w2);
    ReportInv(w2, w3);
    ServiceInv(w3, w');
    ServiceFrame(w3, w');
    Order(w3);
  }

  lemma {:induction false} ServiceFrame(w: World, w': World)
    requires Next(w, Service, w')
    ensures w' == w.(q := w'.q) && |w'.q.ring| == |w.q.ring|
  {
  }

  /** All requests are finished exactly when everything has been observed. */
  lemma {:induction false} AllDone(w: World)
    requires Inv(w)
    ensures |w.q.done| == |w.subs| <==> Observed(w) == Total(w)
    ensures 0 <= Observed(w) <= Total(w)
  {
    hide Inv, Observed, Produced;
    Order(w);
    ProducedMax(w);
    if w.subs != [] {
      DoneExact(w, |w.subs| - 1);
    } else {
      Nothing(w);
    }
  }

  lemma {:induction false} Nothing(w: World)
    requires Inv(w) && w.subs == []
    ensures |w.q.done| == 0 && Observed(w) == 0
  {
  }

  /** What `n` rounds can carry at most. */
  function Carried(n: nat, rngsz: nat): (c: nat)
    requires rngsz > 0
    ensures c == n * (rngsz - 1)
  {
    if n == 0 then 0 else Carried(n - 1, rngsz) + (rngsz - 1)
  }

  /** `n` rounds finish every request if and only if `n` rings less one slot each hold all the
      descriptors still to be observed. */
  lemma {:induction false} RoundsExact(w: World, n: nat, w': World)
    requires Inv(w)
    ensures |w.q.ring| > 0 && Observed(w) >= 0
    ensures Rounds(w, n, w') ==>
              && Inv(w') && w'.subs == w.subs
              && Observed(w') == Min(Observed(w) + Carried(n, |w.q.ring|), Total(w))
              && (|w'.q.done| == |w.subs| <==> Total(w) - Observed(w) <= Carried(n, |w.q.ring|))
    decreases n
  {
    hide Inv, Round, Observed, End;
    InBoundsInv(w);
    AllDone(w);
    if Rounds(w, n, w') {
      if n > 0 {
        var m :| Round(w, m) && Rounds(m, n - 1, w');
        RoundAdvances(w, m);
        RoundsExact(m, n - 1, w');
      }
      AllDone(w');
    }
  }

  /** Rounds are always possible, so the bound is met by real runs. */
  lemma {:induction false} RoundExists(w: World) returns (w': World)
    requires Inv(w)
    ensures Round(w, w')
  {
    hide Inv, Next, Fetches, Observed, Produced, End;
    InBoundsInv(w);
    var w1 := w.(q := WorkerPass(w.q));
    assert Next(w, Worker, w1) by { NextWorker(w, w1); }
    WorkerInv(w, w1);
    var w2 := DrainExists(w1);
    FetchesInv(w1, w2);
    InBoundsInv(w2);
    var w3 := w2.(wbCidx := w2.hwCidx, reported := |w2.log|);
    w' := w3.(q := Writeback(w3.q, w3.wbCidx));
    assert Next(w2, HwReport, w3) && Next(w3, Service, w') by { NextReport(w2, w3, w'); }
  }

  lemma {:induction false} NextWorker(w: World, w1: World)
    requires InBounds(w) && w1 == w.(q := WorkerPass(w.q))
    ensures Next(w, Worker, w1)
  {
  }

  lemma {:induction false} NextReport(w2: World, w3: World, w': World)
    requires InBounds(w2) && w3 == w2.(wbCidx := w2.hwCidx, reported := |w2.log|)
    requires w' == w3.(q := Writeback(w3.q, w3.wbCidx))
    ensures Next(w2, HwReport, w3) && Next(w3, Service, w')
  {
  }

  lemma {:induction false} DrainExists(w: World) returns (w': World)
    requires Inv(w)
    ensures Fetches(w, w') && w'.hwCidx == w'.q.pidx && |w.log| <= |w'.log|
    decreases Produced(w) - |w.log|
  {
    hide Inv, Produced, Observed;
    InBoundsInv(w);
    if w.hwCidx == w.q.pidx {
      w' := w;
    } else {
      var m := w.(hwCidx := Inc(w.hwCidx, |w.q.ring|), log := w.log + [w.q.ring[w.hwCidx]]);
      assert Next(w, HwFetch, m);
      FetchInv(w, m);
      Order(m);
      w' := DrainExists(m);
      assert Fetches(w, w');
    }
  }

  // ---------------------------------------------------------------------------
  // Timeouts
  // ---------------------------------------------------------------------------

  /** Taking a timed-out request off its list keeps the credit balance if and only if nothing was programmed
      for it yet; and then all else is in order too, as if it had never been submitted. */
  lemma {:induction false} TimeoutExact(w: World, i: nat)
    requires Inv(w) && i < |w.q.pend| + |w.q.work| && |w.q.done| + |w.q.pend| + |w.q.work| == |w.subs|
    ensures Balanced(Unlink(w.q, i)) <==> Queued(w.q, i).descNr == 0
    ensures Queued(w.q, i).descNr == 0 ==> Inv(Leave(w, i))
  {
    hide Inv, RemoveAt;
    Balance(w);
    if i < |w.q.pend| {
      DescSumCut(w.q.pend, i);
    } else {
      DescSumCut(w.q.work, i - |w.q.pend|);
    }
    if Queued(w.q, i).descNr == 0 {
      LeaveInv(w, i);
    }
  }

  /** The request that leaves is the one at its place; all others keep their order and their list. */
  lemma {:induction false} UnlinkExact(q: Q, i: nat, j: nat)
    requires i < |q.pend| + |q.work| && j < |q.pend| + |q.work| - 1
    ensures var q' := Unlink(q, i);
            && |q'.pend| == |q.pend| - (if i < |q.pend| then 1 else 0) && |q'.pend| + |q'.work| == |q.pend| + |q.work| - 1
            && Queued(q', j) == Queued(q, if j < i then j else j + 1)
            && q' == q.(pend := q'.pend, work := q'.work)
  {
  }

  /** A request that the worker gives up keeps the credit balance if and only if nothing was programmed for it yet. */
  lemma {:induction false} FailExact(q: Q, i: nat, error: int)
    requires Balanced(q) && i < |q.work|
    ensures Balanced(Fail(q, i, error)) <==> q.work[i].descNr == 0
  {
    DescSumCut(q.work, i);
  }

  /** When the first pending caller times out, a writeback with news completes the next request as soon as the
      news covers that request alone. The hardware has finished it only when the news covers both, so in
      between the request is completed too early. */
  lemma {:induction false} TimeoutCompletesNext(w: World, news: nat)
    requires Inv(w) && InBounds(w) && |w.q.pend| >= 2 && news == w.reported - Observed(w) > 0
    ensures |w.q.done| + 1 < |w.subs|
    ensures var a, b, q' := w.q.pend[0], w.q.pend[1], Writeback(Unlink(w.q, 0), w.wbCidx);
            && (Completed(b, 0) in q'.done[|w.q.done|..] <== b.descNr <= news + w.q.credit)
            && (|q'.done| > |w.q.done| <==> b.descNr <= news + w.q.credit)
            && (WhollyReported(w, |w.q.done| + 1) <==> a.descNr + b.descNr <= news + w.q.credit)
            && a.descNr > 0
  {
    hide Carries, AllWellFormed, Partial, Slot, Lists;
    var q, k := w.q, |w.q.done|;
    SlotNews(w, news);
    PendReqs(w.subs, q.done, q.pend, q.work);
    EndStep(w.subs, k + 1);
    PendingProgrammed(w, 0);
    assert RemoveAt(q.pend, 0) == q.pend[1..];
    var s := Spend(q.pend[1..], news + q.credit);
    var q' := Writeback(Unlink(q, 0), w.wbCidx);
    assert q'.done[k..] == AllCompleted(s.done);
    if q.pend[1].descNr <= news + q.credit {
      assert s.done[0] == q.pend[1];
      assert AllCompleted(s.done)[0] == Completed(q.pend[1], 0);
    }
  }

  lemma {:induction false} SlotNews(w: World, news: nat)
    requires Inv(w) && InBounds(w) && news == w.reported - Observed(w) > 0
    ensures Dist(w.q.cidx, w.wbCidx, |w.q.ring|) == news && w.q.pidx != w.q.cidx && w.wbCidx != w.q.cidx
  {
    hide Lists, Charged, Carries, AllWellFormed, End, Slot;
    SlotDist(Observed(w), news, |w.q.ring|);
    SlotDist(Observed(w), Produced(w) - Observed(w), |w.q.ring|);
  }
}
