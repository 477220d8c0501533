/** The mailbox between a virtual function (VF) and its physical function (PF): one message register each way, a
    sender that waits for its answer, and two drain routines. Steps are the sections run under the mailbox
    locks; they interleave freely, also with the messages of other VFs. Nothing times out. */
module Mailbox {
  import opened Common
  import Fmap

  const STATUS_ERR: int := 1
  const STATUS_EINVAL: int := 2

  datatype ContextOp = Write | Read | Clear

  datatype Op = Hello | Bye | MapRange(qbase: nat, qmax: nat) | IntrCtxt | Qctxt(what: ContextOp) | Other(code: nat)

  /** The operation field of a message, by which the sender recognises its answer. */
  function Code(op: Op): nat {
    match op
    case Hello => 1
    case Bye => 2
    case MapRange(_, _) => 4
    case IntrCtxt => 5
    case Qctxt(Write) => 6
    case Qctxt(Read) => 7
    case Qctxt(Clear) => 8
    case Other(code) => code
  }

  /** `Other` stands for the codes that the PF has no handler for. */
  predicate Proper(op: Op) {
    op.Other? ==> op.code !in {1, 2, 4, 5, 6, 7, 8}
  }

  /** `serial` numbers the requests of the VF. */
  datatype Msg = Msg(op: Op, ack: bool, wait: bool, status: int, serial: nat)

  /** The sending thread of the VF. */
  datatype Sender = Ready | Waiting(req: Msg)

  /** The PF's drain routine: `status` is the variable it carries from message to message. */
  datatype Drain = Off | Reading(status: int) | Replying(reply: Msg, status: int)

  /** How a message went, as far as the drain routine looks at it. */
  datatype Outcome = Good | Bad | Unknown

  /** How a request went, whether the context operation it asked for was done, and whether its VF had a slot, and a slot was
      free, when the PF took it. */
  datatype Handling = Handling(outcome: Outcome, ok: bool, known: bool, free: bool)

  /** `me`: the id of the VF. `toPf`, `toVf`: a message sent and not yet received. `mReq`: the buffer in which the waiting
      sender looks for its answer. `batch`: how the messages of the current drain went. `handled`: how each request went.
      `answered`: the requests whose sender was woken, with the answer it found. `pf`: range registers and VF table. */
  datatype World = World(
    me: nat, toPf: Option<Msg>, toVf: Option<Msg>, sender: Sender, mReq: Msg, drain: Drain,
    next: nat, batch: seq<Outcome>, handled: map<nat, Handling>, answered: seq<(Msg, Msg)>, pf: Fmap.World)

  const ZERO: Msg := Msg(Other(0), false, false, 0, 0)

  /** `ok`: the context operation, if the message asks for one, succeeds. `PfOther` is a message of another VF. */
  datatype Step =
    Send(op: Op, wait: bool) | PfBegin | PfTake(ok: bool) | PfOther(src: nat, op: Op, ok: bool) | PfReply | PfEnd | VfTake | Wake

  /** What a handler does to the registers and the table. */
  ghost function Effect(pf: Fmap.World, src: nat, op: Op): Fmap.World
    requires src >= Fmap.PF_MAX
  {
    match op
    case Hello => Fmap.After(pf, Fmap.From(Fmap.Hello(src)))
    case Bye => Fmap.After(pf, Fmap.From(Fmap.Bye(src)))
    case MapRange(qbase, qmax) => Fmap.After(pf, Fmap.From(Fmap.MapReq(src, qbase, qmax)))
    case _ => pf
  }

  /** The drain routine looks at the result of the context operations only: what the table routines return for a hello
      or a range request is dropped. */
  function OutcomeOf(op: Op, ok: bool): Outcome {
    match op
    case IntrCtxt => Bad
    case Qctxt(_) => if ok then Good else Bad
    case Other(_) => Unknown
    case _ => Good
  }

  /** A reply is the request sent back; to a range request it names the base that was granted. */
  function Granted(src: nat, op: Op): Op
    requires src >= Fmap.PF_MAX
  {
    if op.MapRange? then op.(qbase := Fmap.Answer(src, op.qbase, op.qmax).qbase) else op
  }

  /** The status after one more message: an error stays, and an unknown operation always sets its own code. */
  function NextStatus(status: int, o: Outcome): int {
    match o
    case Unknown => -STATUS_EINVAL
    case Bad => if status == 0 then -STATUS_ERR else status
    case Good => status
  }

  ghost predicate Next(w: World, s: Step, w': World) {
    w.me >= Fmap.PF_MAX &&
    match s
    case Send(op, wait) =>
      // mbox_send waits for the register to be free; the answer buffer is cleared before the lock is dropped
      && w.sender.Ready? && w.toPf.None? && Proper(op)
      && (var m := Msg(op, false, wait, 0, w.next);
          w' == w.(toPf := Some(m), next := w.next + 1,
                   mReq := if wait then ZERO else w.mReq,
                   sender := if wait then Waiting(m) else Ready))
    case PfBegin => w.drain.Off? && w' == w.(drain := Reading(0), batch := [])
    case PfTake(ok) =>
      && w.drain.Reading? && w.toPf.Some?
      && w' == Taken(w, w.toPf.value, ok)
    case PfOther(src, op, ok) =>
      && w.drain.Reading? && src >= Fmap.PF_MAX && src != w.me && Proper(op)
      && w' == w.(drain := Reading(NextStatus(w.drain.status, OutcomeOf(op, ok))),
                  batch := w.batch + [OutcomeOf(op, ok)], pf := Effect(w.pf, src, op))
    case PfReply =>
      && w.drain.Replying? && w.toVf.None?
      && w' == w.(toVf := Some(w.drain.reply), drain := Reading(w.drain.status))
    case PfEnd => w.drain.Reading? && w.toPf.None? && w' == w.(drain := Off)
    case VfTake =>
      && w.toVf.Some?
      && (var m := w.toVf.value;
          w' == w.(toVf := None, mReq := if m.ack && m.wait then m else w.mReq))
    case Wake =>
      && w.sender.Waiting? && w.mReq.ack && Code(w.mReq.op) == Code(w.sender.req.op)
      && w' == w.(sender := Ready, answered := w.answered + [(w.sender.req, w.mReq)])
  }

  /** The PF has taken message `m` and handled it. */
  ghost function Taken(w: World, m: Msg, ok: bool): World
    requires w.me >= Fmap.PF_MAX && w.drain.Reading?
  {
    var outcome := OutcomeOf(m.op, ok);
    var st := NextStatus(w.drain.status, outcome);
    var h := Handling(outcome, ok, Fmap.Registered(w.pf.vfs, w.me), Fmap.Registered(w.pf.vfs, Fmap.ID_INVALID));
    w.(toPf := None, drain := Replying(m.(op := Granted(w.me, m.op), ack := true, status := st), st),
       batch := w.batch + [outcome], handled := w.handled[m.serial := h], pf := Effect(w.pf, w.me, m.op))
  }

  // ---------------------------------------------------------------------------
  // The invariant
  // ---------------------------------------------------------------------------

  function WaitedIn(m: Option<Msg>): nat {
    if m.Some? && m.value.wait then 1 else 0
  }

  function WaitedReply(d: Drain): nat {
    if d.Replying? && d.reply.wait then 1 else 0
  }

  /** `m` is the reply to the request with its number, and says how that request went. */
  ghost predicate TrueReply(w: World, m: Msg) {
    && m.ack && m.serial < w.next && m.serial in w.handled
    && (m.status == 0 ==> w.handled[m.serial].outcome.Good?)
  }

  /** `m` belongs to the request the sender waits for. */
  ghost predicate ForSender(w: World, m: Msg) {
    m.wait ==> w.sender.Waiting? && m.serial == w.sender.req.serial && w.me >= Fmap.PF_MAX
               && m.op == Granted(w.me, w.sender.req.op)
  }

  ghost predicate AllGood(batch: seq<Outcome>) {
    forall i :: 0 <= i < |batch| ==> batch[i].Good?
  }

  ghost predicate Exchange(w: World) {
    // a request on its way has not been handled
    && (w.toPf.Some? ==> var m := w.toPf.value;
        && !m.ack && m.serial < w.next && m.serial !in w.handled && Proper(m.op)
        && (m.wait <==> w.sender.Waiting?) && (m.wait ==> m == w.sender.req))
    && (w.drain.Replying? ==> TrueReply(w, w.drain.reply) && ForSender(w, w.drain.reply))
    && (w.toVf.Some? ==> TrueReply(w, w.toVf.value) && ForSender(w, w.toVf.value))
    && (forall s :: s in w.handled ==> s < w.next)
    // exactly one trace of a waited request exists until its sender is woken
    && (w.sender.Waiting? ==> Proper(w.sender.req.op))
    && (w.sender.Waiting? ==>
          if w.mReq.ack then
            && TrueReply(w, w.mReq) && w.mReq.wait && ForSender(w, w.mReq)
            && WaitedIn(w.toPf) + WaitedReply(w.drain) + WaitedIn(w.toVf) == 0
          else WaitedIn(w.toPf) + WaitedReply(w.drain) + WaitedIn(w.toVf) == 1)
    && (w.sender.Ready? ==> WaitedIn(w.toPf) + WaitedReply(w.drain) + WaitedIn(w.toVf) == 0)
    // the carried status remembers the whole drain
    && (w.drain.Reading? ==> (w.drain.status == 0 <==> AllGood(w.batch)))
    && (w.drain.Replying? ==> w.drain.status == w.drain.reply.status && (w.drain.status == 0 <==> AllGood(w.batch)))
    && (forall i :: 0 <= i < |w.answered| ==>
          TrueReply(w, w.answered[i].1) && w.answered[i].1.serial == w.answered[i].0.serial)
  }

  /** What the handling of a request of this VF left behind in registers and table. */
  ghost predicate Left(me: nat, pf: Fmap.World, op: Op, h: Handling) {
    me >= Fmap.PF_MAX &&
    match op
    case Hello => Fmap.Registered(pf.vfs, me) <==> h.free || h.known
    case Bye => !Fmap.Registered(pf.vfs, me) && me in pf.regs && Fmap.Decode(pf.regs[me]) == Fmap.Range(0, 0)
    case MapRange(_, qmax) =>
      && me in pf.regs && me in pf.granted
      && (var range := Fmap.Range(Granted(me, op).qbase, qmax);
          && pf.granted[me] == range
          && (Fmap.Decode(pf.regs[me]) == range <==> Fmap.InFields(range))
          && (Fmap.Matches(pf, me) <==> h.known && Fmap.Short(range)))
    case IntrCtxt => h.outcome.Bad?
    case Qctxt(_) => h.outcome.Good? <==> h.ok
    case Other(_) => h.outcome.Unknown?
  }

  /** Until the waiting sender is woken, nothing disturbs what its request left behind. */
  ghost predicate Settled(w: World) {
    w.sender.Waiting? && w.sender.req.serial in w.handled ==>
      Left(w.me, w.pf, w.sender.req.op, w.handled[w.sender.req.serial])
  }

  ghost predicate Inv(w: World) {
    Fmap.PF_MAX <= w.me != Fmap.ID_INVALID && Exchange(w) && Settled(w)
  }

  // --- The exchange ---

  lemma {:induction false} SendExchange(w: World, op: Op, wait: bool, w': World)
    requires Exchange(w) && Next(w, Send(op, wait), w')
    ensures Exchange(w')
  {
  }

  lemma {:induction false} DrainExchange(w: World, s: Step, w': World)
    requires Exchange(w) && Next(w, s, w') && (s.PfBegin? || s.PfReply? || s.PfEnd?)
    ensures Exchange(w')
  {
  }

  lemma {:induction false} TakeExchange(w: World, ok: bool, w': World)
    requires Exchange(w) && Next(w, PfTake(ok), w')
    ensures Exchange(w')
  {
    hide Effect;
    AllGoodMore(w.batch, OutcomeOf(w.toPf.value.op, ok));
  }

  lemma {:induction false} OtherExchange(w: World, src: nat, op: Op, ok: bool, w': World)
    requires Exchange(w) && Next(w, PfOther(src, op, ok), w')
    ensures Exchange(w')
  {
    hide Effect;
    AllGoodMore(w.batch, OutcomeOf(op, ok));
  }

  lemma {:induction false} VfTakeExchange(w: World, w': World)
    requires Exchange(w) && Next(w, VfTake, w')
    ensures Exchange(w')
  {
  }

  lemma {:induction false} WakeExchange(w: World, w': World)
    requires Exchange(w) && Next(w, Wake, w')
    ensures Exchange(w')
  {
  }

  lemma {:induction false} AllGoodMore(batch: seq<Outcome>, o: Outcome)
    ensures AllGood(batch + [o]) <==> AllGood(batch) && o.Good?
  {
    assert (batch + [o])[|batch|] == o;
    assert forall i :: 0 <= i < |batch| ==> (batch + [o])[i] == batch[i];
  }

  // --- The tables ---

  /** A handler leaves behind what it should, as far as the table has room for it. */
  lemma {:induction false} HandlerLeaves(pf: Fmap.World, me: nat, op: Op, ok: bool)
    requires Fmap.PF_MAX <= me != Fmap.ID_INVALID
    ensures Left(me, Effect(pf, me, op), op,
                 Handling(OutcomeOf(op, ok), ok, Fmap.Registered(pf.vfs, me), Fmap.Registered(pf.vfs, Fmap.ID_INVALID)))
  {
    match op
    case Hello => Fmap.HelloExact(pf, me);
    case Bye => Fmap.ByeExact(pf, me);
    case MapRange(qbase, qmax) => Fmap.MapExact(pf, me, qbase, qmax);
    case _ =>
  }

  /** Messages of other VFs do not disturb it. */
  lemma {:induction false} OthersKeep(pf: Fmap.World, me: nat, op: Op, h: Handling, src: nat, other: Op)
    requires Left(me, pf, op, h) && src >= Fmap.PF_MAX && src != me && me != Fmap.ID_INVALID
    ensures Left(me, Effect(pf, src, other), op, h)
  {
    if other.Hello? || other.Bye? || other.MapRange? {
      var e := if other.Hello? then Fmap.From(Fmap.Hello(src)) else if other.Bye? then Fmap.From(Fmap.Bye(src))
               else Fmap.From(Fmap.MapReq(src, other.qbase, other.qmax));
      Fmap.OthersApart(pf, me, src, e);
    }
  }

  lemma {:induction false} NextSettled(w: World, s: Step, w': World)
    requires Inv(w) && Next(w, s, w')
    ensures Settled(w')
  {
    hide Left, Effect, OutcomeOf, Fmap.Registered;
    match s
    case PfTake(ok) => HandlerLeaves(w.pf, w.me, w.toPf.value.op, ok);
    case PfOther(src, op, ok) =>
      if w.sender.Waiting? && w.sender.req.serial in w.handled {
        OthersKeep(w.pf, w.me, w.sender.req.op, w.handled[w.sender.req.serial], src, op);
      }
    case _ =>
  }

  lemma {:induction false} NextExchange(w: World, s: Step, w': World)
    requires Exchange(w) && Next(w, s, w')
    ensures Exchange(w') && w'.me == w.me
  {
    hide Exchange;
    match s
    case Send(op, wait) => SendExchange(w, op, wait, w');
    case PfTake(ok) => TakeExchange(w, ok, w');
    case PfOther(src, op, ok) => OtherExchange(w, src, op, ok, w');
    case VfTake => VfTakeExchange(w, w');
    case Wake => WakeExchange(w, w');
    case _ => DrainExchange(w, s, w');
  }

  lemma {:induction false} NextInv(w: World, s: Step, w': World)
    requires Inv(w) && Next(w, s, w')
    ensures Inv(w') && w'.me == w.me
  {
    hide Exchange, Settled, Next;
    NextExchange(w, s, w');
    NextSettled(w, s, w');
  }

  /** The mailbox is empty and nobody has sent anything; the table is as it is. */
  ghost predicate Fresh(w: World, me: nat) {
    w == World(me, None, None, Ready, ZERO, Off, 0, [], map[], [], w.pf)
  }

  ghost predicate Trace(me: nat, ws: seq<World>, steps: seq<Step>) {
    && Fmap.PF_MAX <= me != Fmap.ID_INVALID
    && |ws| == |steps| + 1
    && Fresh(ws[0], me)
    && forall i :: 0 <= i < |steps| ==> Next(ws[i], steps[i], ws[i + 1])
  }

  lemma {:induction false} TraceInv(me: nat, ws: seq<World>, steps: seq<Step>, i: nat)
    requires Trace(me, ws, steps) && i < |ws|
    ensures Inv(ws[i]) && ws[i].me == me
  {
    hide Next;
    if i > 0 {
      hide Inv;
      TraceInv(me, ws, steps, i - 1);
      assert Next(ws[i - 1], steps[i - 1], ws[i - 1 + 1]);
      NextInv(ws[i - 1], steps[i - 1], ws[i]);
    }
  }

  // ---------------------------------------------------------------------------
  // What holds of every run
  // ---------------------------------------------------------------------------

  lemma {:induction false} HandledKept(me: nat, ws: seq<World>, steps: seq<Step>, i: nat, j: nat, serial: nat)
    requires Trace(me, ws, steps) && i <= j < |ws| && serial in ws[i].handled
    ensures serial in ws[j].handled && ws[j].handled[serial] == ws[i].handled[serial]
    decreases j - i
  {
    hide Exchange, Settled, Effect;
    if i < j {
      assert Next(ws[i], steps[i], ws[i + 1]);
      if steps[i].PfTake? {
        TraceInv(me, ws, steps, i);
        NotYetHandled(ws[i]);
      }
      HandledKept(me, ws, steps, i + 1, j, serial);
    }
  }

  lemma {:induction false} NotYetHandled(w: World)
    requires Inv(w) && w.toPf.Some?
    ensures w.toPf.value.serial !in w.handled
  {
  }

  /** No request is handled, and so none is answered, twice. */
  lemma {:induction false} HandledOnce(me: nat, ws: seq<World>, steps: seq<Step>, i: nat, j: nat)
    requires Trace(me, ws, steps) && i < j < |steps| && steps[i].PfTake? && steps[j].PfTake?
    ensures ws[i].toPf.Some? && ws[j].toPf.Some? && ws[i].toPf.value.serial != ws[j].toPf.value.serial
  {
    hide Inv;
    assert Next(ws[i], steps[i], ws[i + 1]) && Next(ws[j], steps[j], ws[j + 1]);
    HandledKept(me, ws, steps, i + 1, j, ws[i].toPf.value.serial);
    TraceInv(me, ws, steps, j);
    NotYetHandled(ws[j]);
  }

  /** What a good status tells the VF whose request was handled as `h` says. */
  ghost predicate GoodTells(w: World, req: Msg, reply: Msg, h: Handling)
    requires w.me >= Fmap.PF_MAX
  {
    match req.op
    case Hello => Fmap.Registered(w.pf.vfs, w.me) <==> h.free || h.known
    case Bye =>
      !Fmap.Registered(w.pf.vfs, w.me) && w.me in w.pf.regs && Fmap.Decode(w.pf.regs[w.me]) == Fmap.Range(0, 0)
    case MapRange(_, qmax) =>
      && reply.op == Granted(w.me, req.op)
      && w.me in w.pf.regs && w.me in w.pf.granted
      && (var range := Fmap.Range(reply.op.qbase, qmax);
          && w.pf.granted[w.me] == range
          && (Fmap.Decode(w.pf.regs[w.me]) == range <==> Fmap.InFields(range))
          && (Fmap.Matches(w.pf, w.me) <==> h.known && Fmap.Short(range)))
    case Qctxt(_) => h.ok
    case IntrCtxt => false
    case Other(_) => false
  }

  /** In every run, when a sender is woken it has the reply to its own request. If the status is good, a context operation
      has succeeded; after a goodbye the VF has neither slot nor range; after a range request the register decodes to the range in the reply if and only if that fits 11 and
      12 bits, and the table holds it if and only if the VF was in the table when the PF took the request and it fits 16
      bits each; and after a hello the VF is in the table if and only if a
      slot was free or it was there before. Unsupported and unknown operations are never answered with good. */
  lemma {:induction false} AnswersExact(me: nat, ws: seq<World>, steps: seq<Step>, i: nat)
    requires Trace(me, ws, steps) && i < |steps| && steps[i] == Wake
    ensures var w := ws[i];
            && w.me == me && w.sender.Waiting?
            && (var req, reply := w.sender.req, w.mReq;
                && reply.ack && reply.serial == req.serial && req.serial in w.handled
                && (reply.status == 0 ==> GoodTells(w, req, reply, w.handled[req.serial])))
  {
    hide Next, Effect, Fmap.Registered, Fmap.Matches, Granted;
    TraceInv(me, ws, steps, i);
    assert Next(ws[i], steps[i], ws[i + 1]);
    Woken(ws[i], ws[i + 1]);
  }

  lemma {:induction false} Woken(w: World, w': World)
    requires Next(w, Wake, w')
    ensures w.sender.Waiting? && w.mReq.ack
  {
  }

  /** The record that `AnswersExact` speaks of is what the PF found when it took the request. */
  lemma {:induction false} HandlingIs(me: nat, ws: seq<World>, steps: seq<Step>, j: nat, i: nat)
    requires Trace(me, ws, steps) && j < |steps| && steps[j].PfTake? && j < i < |ws|
    ensures ws[j].toPf.Some?
    ensures var serial := ws[j].toPf.value.serial;
            && serial in ws[i].handled
            && ws[i].handled[serial] ==
               Handling(OutcomeOf(ws[j].toPf.value.op, steps[j].ok), steps[j].ok, Fmap.Registered(ws[j].pf.vfs, me),
                        Fmap.Registered(ws[j].pf.vfs, Fmap.ID_INVALID))
  {
    hide Inv, Effect, OutcomeOf, Fmap.Registered;
    TraceInv(me, ws, steps, j);
    assert Next(ws[j], steps[j], ws[j + 1]);
    HandledKept(me, ws, steps, j + 1, i, ws[j].toPf.value.serial);
  }

  /** A VF without a slot asks for its range, or says hello when no slot is free: it is answered with a good status
      although the table does not know it. */
  lemma {:induction false} GoodButUnknown(me: nat, pf: Fmap.World, op: Op) returns (ws: seq<World>, steps: seq<Step>)
    requires Fmap.PF_MAX <= me != Fmap.ID_INVALID && !Fmap.Registered(pf.vfs, me)
    requires op.MapRange? || (op.Hello? && !Fmap.Registered(pf.vfs, Fmap.ID_INVALID))
    ensures Trace(me, ws, steps) && ws[0].pf == pf && steps == [Send(op, true), PfBegin, PfTake(true), PfReply, VfTake, Wake]
    ensures var w := ws[6];
            && |w.answered| == 1 && w.answered[0].0.op == op && w.answered[0].1.status == 0
            && !Fmap.Registered(w.pf.vfs, me)
  {
    var w0 := World(me, None, None, Ready, ZERO, Off, 0, [], map[], [], pf);
    var req := Msg(op, false, true, 0, 0);
    var w1 := w0.(toPf := Some(req), next := 1, sender := Waiting(req));
    var w2 := w1.(drain := Reading(0), batch := []);
    var w3 := Taken(w2, req, true);
    var w4 := w3.(toVf := Some(w3.drain.reply), drain := Reading(0));
    var w5 := w4.(toVf := None, mReq := w4.toVf.value);
    var w6 := w5.(sender := Ready, answered := [(req, w5.mReq)]);
    ws, steps := [w0, w1, w2, w3, w4, w5, w6], [Send(op, true), PfBegin, PfTake(true), PfReply, VfTake, Wake];
    hide Effect, Fmap.Registered;
    UnknownStays(pf, me, op);
    assert Code(Granted(me, op)) == Code(op);
    assert [] + [(req, w5.mReq)] == [(req, w5.mReq)];
  }

  lemma {:induction false} UnknownStays(pf: Fmap.World, me: nat, op: Op)
    requires Fmap.PF_MAX <= me != Fmap.ID_INVALID && !Fmap.Registered(pf.vfs, me)
    requires op.MapRange? || (op.Hello? && !Fmap.Registered(pf.vfs, Fmap.ID_INVALID))
    ensures !Fmap.Registered(Effect(pf, me, op).vfs, me)
  {
  }

  /** How far the request of a waiting sender still has to go. */
  ghost function Distance(w: World): nat {
    if w.sender.Ready? then 0
    else if w.mReq.ack then 1
    else if WaitedIn(w.toVf) == 1 then 2
    else if WaitedReply(w.drain) == 1 then (if w.toVf.None? then 3 else 4)
    else match w.drain
         case Reading(_) => 5
         case Off => 6
         case Replying(_, _) => if w.toVf.None? then 7 else 8
  }

  /** No answer gets lost: while a sender waits there is always a step of the two drain routines, or its waking, that
      brings its answer nearer, so at most eight such steps wake it. */
  lemma {:induction false} AnswerComesNearer(w: World) returns (s: Step, w': World)
    requires Inv(w) && w.sender.Waiting?
    ensures Next(w, s, w') && !s.Send? && Distance(w') < Distance(w) <= 8
  {
    if w.mReq.ack {
      s, w' := Wake, w.(sender := Ready, answered := w.answered + [(w.sender.req, w.mReq)]);
    } else if w.toVf.Some? && (WaitedIn(w.toVf) == 1 || w.drain.Replying?) {
      var m := w.toVf.value;
      s, w' := VfTake, w.(toVf := None, mReq := if m.ack && m.wait then m else w.mReq);
    } else if w.drain.Replying? {
      s, w' := PfReply, w.(toVf := Some(w.drain.reply), drain := Reading(w.drain.status));
    } else if w.drain.Off? {
      s, w' := PfBegin, w.(drain := Reading(0), batch := []);
    } else {
      s, w' := PfTake(true), Taken(w, w.toPf.value, true);
    }
  }

  /** The status is not reset between messages: a reply says "good" if and only if every message before it in the same
      drain, of whichever VF, went well, and this one is a hello, a goodbye, a range request or a context operation that
      was done. An unknown operation always gets its own code, and a first failure the general one. */
  lemma {:induction false} ReplyStatusExact(w: World, ok: bool, w': World)
    requires Inv(w) && Next(w, PfTake(ok), w')
    ensures w'.drain.Replying?
    ensures var op, status := w.toPf.value.op, w'.drain.reply.status;
            && (status == 0 <==> (op.Hello? || op.Bye? || op.MapRange? || (op.Qctxt? && ok)) && AllGood(w.batch))
            && (op.Other? ==> status == -STATUS_EINVAL)
            && ((op.IntrCtxt? || (op.Qctxt? && !ok)) && AllGood(w.batch) ==> status == -STATUS_ERR)
            && (!op.Other? && !AllGood(w.batch) ==> status == w.drain.status)
  {
  }

  /** Messages of other VFs count in the same way. */
  lemma {:induction false} OtherStatusExact(w: World, src: nat, op: Op, ok: bool, w': World)
    requires Inv(w) && Next(w, PfOther(src, op, ok), w')
    ensures w'.drain.Reading?
    ensures w'.drain.status == 0 <==> (op.Hello? || op.Bye? || op.MapRange? || (op.Qctxt? && ok)) && AllGood(w.batch)
    ensures AllGood(w'.batch) <==> w'.drain.status == 0
  {
    hide Effect;
    OtherExchange(w, src, op, ok, w');
  }

  /** In every run, a sender woken with a good status after a context operation waited for a request that the PF took in a
      step in which the operation was done. */
  lemma {:induction false} ContextDone(me: nat, ws: seq<World>, steps: seq<Step>, j: nat, i: nat)
    requires Trace(me, ws, steps) && j < i < |steps| && steps[j].PfTake? && steps[i] == Wake
    ensures ws[j].toPf.Some? && ws[i].sender.Waiting?
    ensures ws[j].toPf.value.serial == ws[i].sender.req.serial && ws[i].sender.req.op.Qctxt? && ws[i].mReq.status == 0 ==>
              steps[j].ok
  {
    hide Next, Inv, Effect, Fmap.Registered, Fmap.Matches;
    HandlingIs(me, ws, steps, j, i);
    AnswersExact(me, ws, steps, i);
  }

  /** A waiting sender recognises its answer by the operation code, and no two operations share one. */
  lemma {:induction false} CodesDiffer(a: Op, b: Op)
    requires Proper(a) && Proper(b)
    ensures Code(a) == Code(b) <==> a == b || (a.MapRange? && b.MapRange?)
    ensures Code(Hello) == 1 && Code(Bye) == 2 && Code(MapRange(0, 0)) == 4 && Code(Other(3)) == 3 && Code(IntrCtxt) == 5
    ensures Code(Qctxt(Write)) == 6 && Code(Qctxt(Read)) == 7 && Code(Qctxt(Clear)) == 8
  {
  }

  /** Another VF asks for what is not supported, and a goodbye handled in the same drain is answered as bad. */
  lemma {:induction false} GoodAfterBad(me: nat, pf: Fmap.World, src: nat) returns (ws: seq<World>, steps: seq<Step>)
    requires Fmap.PF_MAX <= me != Fmap.ID_INVALID && src >= Fmap.PF_MAX && src != me
    ensures Trace(me, ws, steps) && ws[0].pf == pf
    ensures steps == [Send(Bye, true), PfBegin, PfOther(src, IntrCtxt, true), PfTake(true), PfReply, VfTake, Wake]
    ensures var w := ws[7];
            && |w.answered| == 1 && w.answered[0].0.op == Bye && w.answered[0].1.status == -STATUS_ERR
            && 0 in w.handled && w.handled[0].outcome.Good? && w.answered[0].0.serial == 0
  {
    var w0 := World(me, None, None, Ready, ZERO, Off, 0, [], map[], [], pf);
    var req := Msg(Bye, false, true, 0, 0);
    var w1 := w0.(toPf := Some(req), next := 1, sender := Waiting(req));
    var w2 := w1.(drain := Reading(0), batch := []);
    var w3 := w2.(drain := Reading(-STATUS_ERR), batch := [Bad], pf := Effect(pf, src, IntrCtxt));
    var w4 := Taken(w3, req, true);
    var w5 := w4.(toVf := Some(w4.drain.reply), drain := Reading(-STATUS_ERR));
    var w6 := w5.(toVf := None, mReq := w5.toVf.value);
    var w7 := w6.(sender := Ready, answered := [(req, w6.mReq)]);
    ws := [w0, w1, w2, w3, w4, w5, w6, w7];
    steps := [Send(Bye, true), PfBegin, PfOther(src, IntrCtxt, true), PfTake(true), PfReply, VfTake, Wake];
    hide Effect, Fmap.Registered;
    assert [] + [(req, w6.mReq)] == [(req, w6.mReq)] && [] + [Bad] == [Bad];
  }

  lemma {:induction false} AllGoodSnoc(batch: seq<Outcome>, i: nat)
    requires i < |batch|
    ensures AllGood(batch[..i + 1]) <==> AllGood(batch[..i]) && batch[i].Good?
  {
  }

  /** The status after a drain of these messages. */
  function StatusAfter(outcomes: seq<Outcome>): int {
    if outcomes == [] then 0 else NextStatus(StatusAfter(outcomes[..|outcomes| - 1]), outcomes[|outcomes| - 1])
  }

  /** It is zero if all messages went well; the code for an unknown operation if the last is one; the general code for a
      first failure; else what it was before. */
  lemma {:induction false} StatusAfterExact(outcomes: seq<Outcome>)
    ensures StatusAfter(outcomes) == 0 <==> AllGood(outcomes)
    ensures outcomes != [] ==>
              var front, last := outcomes[..|outcomes| - 1], outcomes[|outcomes| - 1];
              && (last.Unknown? ==> StatusAfter(outcomes) == -STATUS_EINVAL)
              && (last.Bad? && AllGood(front) ==> StatusAfter(outcomes) == -STATUS_ERR)
              && (!last.Unknown? && !AllGood(front) ==> StatusAfter(outcomes) == StatusAfter(front))
  {
    if outcomes != [] {
      var m := |outcomes| - 1;
      StatusAfterExact(outcomes[..m]);
      AllGoodSnoc(outcomes, m);
      assert outcomes[..m + 1] == outcomes;
    }
  }

  /** The drain loop of the PF over the messages it finds, with its one status variable: each reply's status code. */
  method DrainStatuses(outcomes: seq<Outcome>) returns (statuses: seq<int>)
    ensures |statuses| == |outcomes|
    ensures forall i :: 0 <= i < |statuses| ==> statuses[i] == StatusAfter(outcomes[..i + 1])
  {
    var status, i := 0, 0;
    statuses := [];
    while i < |outcomes|
      invariant 0 <= i == |statuses| <= |outcomes| && status == StatusAfter(outcomes[..i])
      invariant forall j :: 0 <= j < i ==> statuses[j] == StatusAfter(outcomes[..j + 1])
    {
      assert outcomes[..i + 1][..i] == outcomes[..i];
      status := NextStatus(status, outcomes[i]);
      statuses := statuses + [status];
      i := i + 1;
    }
  }
}
