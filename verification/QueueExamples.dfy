/** Runs that show where promises end: credit that stays beside a pending request, a request that is completed before the
    hardware has finished it, and one that is given up with its descriptors in the ring. */
module QueueExamples {
  import opened SgList
  import opened Ring
  import opened Queue
  import opened QueueRun
  import opened QueueTheorems
  import opened Payload
  import opened Common

  lemma {:induction false} TraceSnoc(kind: Kind, rngsz: nat, ws: seq<World>, steps: seq<Step>, s: Step, w: World)
    requires rngsz > 0 && Trace(kind, rngsz, ws, steps) && Next(ws[|ws| - 1], s, w)
    ensures Trace(kind, rngsz, ws + [w], steps + [s])
    ensures Inv(w) && InBounds(w) && |w.q.ring| == rngsz && w.q.kind == kind
  {
    hide Inv, Next;
    var ws', steps' := ws + [w], steps + [s];
    forall i | 0 <= i < |steps'| ensures Next(ws'[i], steps'[i], ws'[i + 1]) {
      if i < |steps| {
        assert Next(ws[i], steps[i], ws[i + 1]);
      }
    }
    TraceInv(kind, rngsz, ws', steps', |steps'|);
    InBoundsInv(w);
  }

  lemma {:induction false} WorkKeepsCredit(q: Q, i: nat)
    requires Ok(q) && i <= |q.work|
    ensures WorkLoop(q, i).credit == q.credit
    decreases |q.work| - i
  {
    if i < |q.work| {
      var q' := Proc(q, i);
      if q'.avail != 0 {
        WorkKeepsCredit(q', if |q'.work| < |q.work| then i else i + 1);
      }
    }
  }

  /** One more step of a run. */
  lemma {:induction false} Extend(kind: Kind, rngsz: nat, ws: seq<World>, steps: seq<Step>, s: Step)
    returns (ws': seq<World>, steps': seq<Step>, w': World)
    requires rngsz > 0 && Trace(kind, rngsz, ws, steps) && Enabled(ws[|ws| - 1], s) && !s.TimedOut?
    ensures Trace(kind, rngsz, ws', steps') && ws' == ws + [w'] && steps' == steps + [s]
    ensures Next(ws[|ws| - 1], s, w') && Inv(ws[|ws| - 1]) && Inv(w') && InBounds(w') && |w'.q.ring| == rngsz && w'.q.kind == kind
  {
    hide Inv;
    TraceInv(kind, rngsz, ws, steps, |steps|);
    var w := ws[|ws| - 1];
    w' := match s
      case Submitted(r) => w.(q := Submit(w.q, r), subs := w.subs + [r])
      case Worker => w.(q := WorkerPass(w.q))
      case HwFetch => w.(hwCidx := Inc(w.hwCidx, |w.q.ring|), log := w.log + [w.q.ring[w.hwCidx]])
      case HwReport => w.(wbCidx := w.hwCidx, reported := |w.log|)
      case Service => w.(q := Writeback(w.q, w.wbCidx))
      case TimedOut(i) => w;
    TraceSnoc(kind, rngsz, ws, steps, s, w');
    ws', steps' := ws + [w'], steps + [s];
  }

  /** Where the programming, the observation, the fetching and the reporting of descriptors stand. */
  ghost predicate At(w: World, produced: nat, observed: nat, fetched: nat, reported: nat) {
    Inv(w) && Produced(w) == produced && Observed(w) == observed && |w.log| == fetched && w.reported == reported
  }

  lemma {:induction false} StartAt(kind: Kind, rngsz: nat)
    requires rngsz > 0
    ensures Trace(kind, rngsz, [Start(kind, rngsz)], []) && At(Start(kind, rngsz), 0, 0, 0, 0)
    ensures InBounds(Start(kind, rngsz))
  {
    hide Inv;
    InitInv(kind, rngsz);
    InBoundsInv(Start(kind, rngsz));
  }

  lemma {:induction false} SubmitAt(w: World, r: Req, w': World)
    requires At(w, 0, 0, 0, 0) && Inv(w') && Next(w, Submitted(r), w')
    ensures At(w', 0, 0, 0, 0)
  {
    hide Lists, Charged, Carries, AllWellFormed, Slot, Indices, WellFormed, End;
    EndGrow(w.subs, r, |w.q.done| + |w.q.pend|);
  }

  lemma {:induction false} WorkerAt(w: World, w': World, p: nat, o: nat, f: nat, r: nat)
    requires At(w, p, o, f, r) && InBounds(w) && Next(w, Worker, w')
    ensures At(w', Min(p + w.q.avail, End(w.subs, |w.subs|)), o, f, r)
    ensures w'.subs == w.subs && w'.q.done == w.q.done && w'.q.credit == w.q.credit
  {
    hide Inv, Produced, Observed, End, WorkLoop;
    WorkerInv(w, w');
    WorkKeepsCredit(w.q, 0);
  }

  lemma {:induction false} MayFetch(w: World)
    requires Inv(w) && InBounds(w) && |w.log| < Produced(w)
    ensures Enabled(w, HwFetch)
  {
    hide Inv, Produced, Observed;
    FetchWindow(w);
    Occupied(w);
  }

  lemma {:induction false} OneRequest(w: World)
    requires Inv(w) && |w.subs| == 1
    ensures End(w.subs, 0) == 0 && End(w.subs, 1) == |w.subs[0].sgl|
    ensures Observed(w) < |w.subs[0].sgl| ==> w.q.done == []
    ensures w.q.done == [] && w.q.pend == [] ==> w.q.work != [] && w.q.work[0].descNr == Produced(w) < |w.subs[0].sgl|
  {
    hide Inv;
    DoneExact(w, 0);
    Order(w);
    if w.q.done == [] && w.q.pend == [] {
      HeadFacts(w);
      PartialBound(w.q.work[0]);
    }
  }

  /** A request of two elements on a ring of two slots, which holds one descriptor at a time: when the second
      descriptor has been programmed, the service finds no news and leaves the credit for the first beside the
      pending request. */
  lemma {:induction false} CreditBesidePending(kind: Kind, req: Req) returns (ws: seq<World>, steps: seq<Step>)
    requires WellFormed(req, kind) && |req.sgl| == 2
    ensures Trace(kind, 2, ws, steps)
    ensures steps == [Submitted(req), Worker, HwFetch, HwReport, Service, Worker, Service]
    ensures var q := ws[|ws| - 1].q; q.credit == 1 && |q.pend| == 1 && q.pend[0].req == req
  {
    hide Inv, Produced, Observed, End, WorkerPass, Writeback, WellFormed, Trace;
    var w, w1;
    w := Start(kind, 2);
    StartAt(kind, 2);
    ws, steps := [w], [];
    ws, steps, w1 := Extend(kind, 2, ws, steps, Submitted(req));
    SubmitAt(w, req, w1);
    OneRequest(w1);
    Order(w1);
    ws, steps, w := Extend(kind, 2, ws, steps, Worker);
    WorkerAt(w1, w, 0, 0, 0, 0);
    MayFetch(w);
    ws, steps, w1 := Extend(kind, 2, ws, steps, HwFetch);
    FetchInv(w, w1);
    ws, steps, w := Extend(kind, 2, ws, steps, HwReport);
    ReportInv(w1, w);
    ws, steps, w1 := Extend(kind, 2, ws, steps, Service);
    ServiceInv(w, w1);
    ServiceFrame(w, w1);
    DrainedAt(w1);
    OneRequest(w1);
    Order(w1);
    ws, steps, w := Extend(kind, 2, ws, steps, Worker);
    WorkerAt(w1, w, 1, 1, 1, 1);
    OneRequest(w);
    Order(w);
    ProducedMax(w);
    LoneRequest(w);
    ws, steps, w1 := Extend(kind, 2, ws, steps, Service);
    NoNews(w, w1);
  }

  lemma {:induction false} NoNews(w: World, w': World)
    requires Inv(w) && w.reported == Observed(w) && Next(w, Service, w')
    ensures w' == w
  {
    hide Lists, Charged, Carries, AllWellFormed, Slot, End;
  }

  /** When all of a single unfinished request is programmed it is the one pending. */
  lemma {:induction false} LoneRequest(w: World)
    requires Inv(w) && |w.subs| == 1 && w.q.done == [] && Produced(w) == End(w.subs, 1)
    ensures |w.q.pend| == 1 && w.q.pend[0].req == w.subs[0]
  {
    hide Carries, Charged, AllWellFormed, Slot, End, Indices;
    if w.q.work != [] {
      HeadFacts(w);
      assert false;
    }
  }

  /** Two requests of one element each are in the ring and the hardware has reported the first. If the first caller
      times out now, the writeback completes the second request, which the hardware has not finished. */
  lemma {:induction false} TimeoutCompletesWrongRequest(kind: Kind, rngsz: nat, a: Req, b: Req) returns (ws: seq<World>, steps: seq<Step>)
    requires WellFormed(a, kind) && WellFormed(b, kind) && |a.sgl| == |b.sgl| == 1 && rngsz >= 3
    ensures Trace(kind, rngsz, ws, steps)
    ensures steps == [Submitted(a), Submitted(b), Worker, HwFetch, HwReport]
    ensures var w := ws[|ws| - 1];
            && InBounds(w) && |w.q.pend| == 2 && w.q.pend[0].req == a && w.q.pend[1].req == b
            && w.subs == [a, b] && !WhollyReported(w, 1) && w.q.done == []
            && Completed(w.q.pend[1], 0) in Writeback(Unlink(w.q, 0), w.wbCidx).done
  {
    hide Inv, Produced, Observed, End, WorkerPass, Writeback, WellFormed, Trace;
    var w, w1;
    w := Start(kind, rngsz);
    StartAt(kind, rngsz);
    ws, steps := [w], [];
    ws, steps, w1 := Extend(kind, rngsz, ws, steps, Submitted(a));
    SubmitAt(w, a, w1);
    ws, steps, w := Extend(kind, rngsz, ws, steps, Submitted(b));
    SubmitAt(w1, b, w);
    Order(w);
    TwoEnds(w.subs);
    ws, steps, w1 := Extend(kind, rngsz, ws, steps, Worker);
    WorkerAt(w, w1, 0, 0, 0, 0);
    MayFetch(w1);
    ws, steps, w := Extend(kind, rngsz, ws, steps, HwFetch);
    FetchInv(w1, w);
    ws, steps, w1 := Extend(kind, rngsz, ws, steps, HwReport);
    ReportInv(w, w1);
    BothPending(w1);
    TimeoutCompletesNext(w1, 1);
    assert w1.q.done == [];
  }

  lemma {:induction false} TwoEnds(subs: seq<Req>)
    requires |subs| == 2
    ensures End(subs, 1) == |subs[0].sgl| && End(subs, 2) == |subs[0].sgl| + |subs[1].sgl|
  {
  }

  lemma {:induction false} BothPending(w: World)
    requires Inv(w) && |w.subs| == 2 && w.q.done == [] && w.q.credit == 0 && Observed(w) == 0
    requires Produced(w) == End(w.subs, 2)
    ensures |w.q.pend| == 2 && w.q.pend[0].req == w.subs[0] && w.q.pend[1].req == w.subs[1]
    ensures w.q.pend[0].descNr == |w.subs[0].sgl| && w.q.pend[1].descNr == |w.subs[1].sgl|
  {
    hide Carries, AllWellFormed, Slot, Indices;
    if w.q.work != [] {
      HeadFacts(w);
      PartialBound(w.q.work[0]);
      EndMonotone(w.subs, |w.q.done| + |w.q.pend| + 1, 2);
      assert false;
    }
    TwoEnds(w.subs);
  }

  /** One element that is not as long as the request says: the first worker pass programs it, the second gives the request
      up, and its descriptor stays uncounted. */
  lemma {:induction false} WrongCountLeaks(kind: Kind, rngsz: nat, req: Req)
    requires rngsz >= 3 && |req.sgl| == 1 && Small(req.sgl, Cap(kind)) && req.count != req.sgl[0].len
    ensures var q1 := WorkerPass(Submit(Init(kind, rngsz), req));
            var q2 := WorkerPass(q1);
            && |q1.work| == 1 && q1.work[0].descNr == 1 && Balanced(q1)
            && q2.work == [] && q2.pend == [] && |q2.done| == 1 && q2.done[0].status == -EINVAL && !Balanced(q2)
  {
    hide Pass, Proc, Split, Store, Resume, WorkLoop, WorkerPass, DescSum;
    var q0 := Submit(Init(kind, rngsz), req);
    SplitSmall(req.sgl, Cap(kind));
    OneByte(req.sgl);
    CountExact(kind, req, rngsz - 1, rngsz - 2);
    var s0 := Progress(Cb(req, 0, 0), [], Active);
    var s1 := Pass(kind, s0, rngsz - 1);
    PassOut(kind, s0, rngsz - 1);
    PassOut(kind, s1, rngsz - 2);
    ProcIsPass(q0, []);
    LonePass(q0);
    var q1 := Proc(q0, 0);
    assert q1.work == [s1.cb] && q1.avail == rngsz - 2;
    ProcIsPass(q1, s1.out);
    LonePass(q1);
    GivenUp(q1, req);
    DescSums(s1.cb);
  }

  lemma {:induction false} DescSums(cb: Cb)
    ensures DescSum([]) == 0 && DescSum([cb]) == cb.descNr
  {
  }

  /** A worker pass over a single request. */
  lemma {:induction false} LonePass(q: Q)
    requires Ok(q) && |q.work| == 1 && Proc(q, 0).avail > 0
    ensures WorkerPass(q) == Proc(q, 0)
  {
    hide Proc;
    var q' := Proc(q, 0);
    assert WorkLoop(q, 0) == WorkLoop(q', if |q'.work| < 1 then 0 else 1);
  }

  lemma {:induction false} OneByte(sgl: seq<Sg>)
    requires |sgl| == 1
    ensures Bytes(sgl) == sgl[0].len
  {
  }

  lemma {:induction false} PassOut(kind: Kind, s: Progress, avail: nat)
    ensures var s' := Pass(kind, s, avail);
            |s'.out| - |s.out| == s'.cb.descNr - s.cb.descNr
  {
    hide Split, Resume;
  }

  lemma {:induction false} GivenUp(q: Q, req: Req)
    requires Ok(q) && |q.work| == 1 && q.work[0].req == req && |req.sgl| == 1 && 0 < req.sgl[0].len == q.work[0].offset
    requires q.avail > 0 && q.work[0].offset != req.count
    ensures Proc(q, 0).done == q.done + [Completion(req, q.work[0].offset, -EINVAL)]
  {
    assert Find(req.sgl, req.sgl[0].len, 0, 0) == Found(1, 0);
  }
}
