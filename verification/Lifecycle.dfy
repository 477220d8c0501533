/** The life of one queue: flags, buffers, interrupt vector and list membership through add, start, stop and remove, with
    allocation and context programming failing at any point. Buffers are tokens of a heap that notices when one is freed
    twice; a list entry notices when it is unlinked or linked twice. */
module Lifecycle {
  import opened Common

  type Buf = nat

  /** `live`: buffers allocated and not freed. `next`: the next fresh one. `twice`: some buffer was freed while not live. */
  datatype Heap = Heap(live: set<Buf>, next: Buf, twice: bool)

  /** The queue's entry for the list of a vector: as initialised, on a list, or unlinked and unusable. */
  datatype Entry = Idle | Linked | Poisoned

  /** `rx`: received pages not yet read. */
  datatype Bufs = Bufs(desc: Option<Buf>, fl: Option<Buf>, wrb: Option<Buf>, rx: set<Buf>, heap: Heap)

  /** `vecs`: how many queues each interrupt vector serves, empty in polled mode. `vec`: the queue's own vector. */
  datatype Irq = Irq(vecs: seq<nat>, vec: nat)

  /** `listed`: on the worker thread's list. `programmed`: its contexts are set in the hardware. `crashed`: an entry was
      unlinked that had been unlinked before, or linked while on a list. */
  datatype Life = Life(
    rxRing: bool, enabled: bool, inited: bool, online: bool, listed: bool, programmed: bool,
    bufs: Bufs, irq: Irq, entry: Entry, crashed: bool)

  /** Which of the failable steps of a start succeed. */
  datatype Luck = Luck(desc: bool, fl: bool, wrb: bool, prog: int)

  function FreeBuf(heap: Heap, b: Option<Buf>): Heap {
    if b.None? then heap else FreeBufs(heap, {b.value})
  }

  function FreeBufs(heap: Heap, bs: set<Buf>): Heap {
    if bs <= heap.live then heap.(live := heap.live - bs) else heap.(twice := true)
  }

  function NewBuf(heap: Heap): Heap {
    heap.(live := heap.live + {heap.next}, next := heap.next + 1)
  }

  /** `qdma_descq_free_resource`. */
  function FreeResource(b: Bufs): Bufs {
    Bufs(None, None, None, {}, FreeBufs(FreeBuf(FreeBuf(FreeBuf(b.heap, b.desc), b.fl), b.wrb), b.rx))
  }

  function TakeDesc(b: Bufs): Bufs { b.(desc := Some(b.heap.next), heap := NewBuf(b.heap)) }
  function TakeFl(b: Bufs): Bufs { b.(fl := Some(b.heap.next), heap := NewBuf(b.heap)) }
  function TakeWrb(b: Bufs): Bufs { b.(wrb := Some(b.heap.next), heap := NewBuf(b.heap)) }
  function TakeRx(b: Bufs): Bufs { b.(rx := b.rx + {b.heap.next}, heap := NewBuf(b.heap)) }
  function FreeRx(b: Bufs): Bufs { b.(rx := {}, heap := FreeBufs(b.heap, b.rx)) }

  /** The first of the vectors that serve the fewest queues. */
  function Least(vecs: seq<nat>): (i: nat)
    requires vecs != []
    ensures i < |vecs| && forall j :: 0 <= j < |vecs| ==> vecs[i] <= vecs[j] && (j < i ==> vecs[i] < vecs[j])
  {
    if |vecs| == 1 then 0 else
      var m := |vecs| - 1;
      var i := Least(vecs[..m]);
      assert forall j :: 0 <= j < m ==> vecs[j] == vecs[..m][j];
      if vecs[m] < vecs[i] then m else i
  }

  /** `desc_alloc_irq`. */
  function TakeVector(q: Irq): Irq {
    if q.vecs == [] then q else
      var i := Least(q.vecs);
      Irq(q.vecs[i := q.vecs[i] + 1], i)
  }

  /** `desc_free_irq`. */
  function FreeVector(q: Irq): Irq {
    if q.vec < |q.vecs| && q.vecs[q.vec] > 0 then q.(vecs := q.vecs[q.vec := q.vecs[q.vec] - 1]) else q
  }

  /** `qdma_descq_alloc_resource`, for a queue that needs a freelist and a writeback ring if `rxRing`: a failure frees what
      was allocated before it. */
  function AllocResource(b: Bufs, rxRing: bool, luck: Luck): Bufs {
    if !luck.desc then FreeResource(b)
    else if !rxRing then TakeDesc(b)
    else if !luck.fl then FreeResource(TakeDesc(b))
    else if !luck.wrb then FreeResource(TakeFl(TakeDesc(b)))
    else TakeWrb(TakeFl(TakeDesc(b)))
  }

  predicate AllocOk(rxRing: bool, luck: Luck) {
    luck.desc && (rxRing ==> luck.fl && luck.wrb)
  }

  /** `qdma_thread_add_work`: in polled mode the vector list is left alone. */
  function AddWork(l: Life): Life {
    l.(listed := true, entry := if l.irq.vecs == [] then l.entry else Linked, crashed := l.crashed || l.listed)
  }

  /** `qdma_thread_remove_work`: a queue without a polling thread is taken off the vector list, whether it is on one or not. */
  function RemoveWork(l: Life): Life {
    if l.listed && l.irq.vecs == [] then l.(listed := false)
    else l.(listed := false, entry := Poisoned, crashed := l.crashed || l.entry.Poisoned?)
  }

  /** `ReceiveQ`: a page is handed to the receive queue. `ReadQ`: a reader empties it. */
  datatype Op = AddQ | StartQ(luck: Luck) | StopQ | RemoveQ | ReceiveQ | ReadQ

  function Code(l: Life, op: Op): int {
    match op
    case AddQ => if l.enabled then -EINVAL else 0
    case StartQ(luck) =>
      if !l.enabled || l.inited || l.online then -EINVAL
      else if !AllocOk(l.rxRing, luck) then -ENOMEM
      else if luck.prog < 0 then luck.prog else 0
    case StopQ => if l.enabled then 0 else -EINVAL
    case RemoveQ => if l.enabled then 0 else -EINVAL
    case _ => 0
  }

  function Started(l: Life, luck: Luck): Life {
    if !l.enabled || l.inited || l.online then l
    else
      var bufs := AllocResource(l.bufs, l.rxRing, luck);
      var irq := if AllocOk(l.rxRing, luck) then TakeVector(l.irq) else l.irq;
      if Code(l, StartQ(luck)) < 0 then l.(bufs := FreeResource(bufs), irq := irq, programmed := false, inited := false)
      else AddWork(l.(bufs := bufs, irq := irq, inited := true, programmed := true, online := true))
  }

  function Stopped(l: Life): Life {
    if !l.enabled then l
    else RemoveWork(l).(bufs := FreeResource(l.bufs), programmed := false, online := false, inited := false)
  }

  function Removed(l: Life): Life {
    if !l.enabled then l
    else l.(bufs := FreeResource(l.bufs), irq := FreeVector(l.irq), online := false, inited := false, enabled := false)
  }

  function Apply(l: Life, op: Op): Life {
    match op
    case AddQ => l.(enabled := true)
    case StartQ(luck) => Started(l, luck)
    case StopQ => Stopped(l)
    case RemoveQ => Removed(l)
    case ReceiveQ => if l.inited && l.rxRing then l.(bufs := TakeRx(l.bufs)) else l
    case ReadQ => l.(bufs := FreeRx(l.bufs))
  }

  // ---------------------------------------------------------------------------
  // The driver's routines
  // ---------------------------------------------------------------------------

  class Queue {
    const st: bool
    const c2h: bool
    var enabled: bool
    var inited: bool
    var online: bool
    var listed: bool
    var programmed: bool
    var desc: Option<Buf>
    var fl: Option<Buf>
    var wrb: Option<Buf>
    var rx: set<Buf>
    var heap: Heap
    var vecs: seq<nat>
    var vec: nat
    var entry: Entry
    var crashed: bool

    ghost function Buffers(): Bufs
      reads this
    {
      Bufs(desc, fl, wrb, rx, heap)
    }

    ghost function Vectors(): Irq
      reads this
    {
      Irq(vecs, vec)
    }

    ghost function Value(): Life
      reads this
    {
      Life(st && c2h, enabled, inited, online, listed, programmed, Buffers(), Vectors(), entry, crashed)
    }

    constructor (st: bool, c2h: bool, vecs: seq<nat>)
      ensures Value() == Fresh(st && c2h, vecs)
    {
      this.st, this.c2h := st, c2h;
      enabled, inited, online, listed, programmed := false, false, false, false, false;
      desc, fl, wrb, rx, heap := None, None, None, {}, Heap({}, 0, false);
      this.vecs, vec, entry, crashed := vecs, 0, Idle, false;
    }

    method FreeBuffers()
      modifies this`desc, this`fl, this`wrb, this`rx, this`heap
      ensures Buffers() == FreeResource(old(Buffers()))
    {
      if desc.Some? {
        heap := FreeBuf(heap, desc);
        desc := None;
      }
      if fl.Some? {
        heap := FreeBuf(heap, fl);
        fl := None;
      }
      if wrb.Some? {
        heap := FreeBuf(heap, wrb);
        wrb := None;
      }
      if rx != {} {
        heap := FreeBufs(heap, rx);
        rx := {};
      }
    }

    /** The loop that picks a vector stops early at one that serves no queue. */
    method AllocIrq()
      modifies this`vecs, this`vec
      ensures Vectors() == TakeVector(old(Vectors()))
    {
      if vecs == [] {
        return;
      }
      var i, idx, min := 0, 0, vecs[0];
      while i < |vecs|
        invariant 0 <= i <= |vecs| && 0 <= idx < |vecs| && min == vecs[idx]
        invariant forall j :: 0 <= j < i ==> min <= vecs[j]
        invariant forall j :: 0 <= j < idx ==> min < vecs[j]
      {
        if vecs[i] < min {
          min, idx := vecs[i], i;
        }
        if min == 0 {
          break;
        }
        i := i + 1;
      }
      vec := idx;
      vecs := vecs[idx := vecs[idx] + 1];
    }

    method FreeIrq()
      modifies this`vecs
      ensures Vectors() == FreeVector(old(Vectors()))
    {
      if vec < |vecs| && vecs[vec] > 0 {
        vecs := vecs[vec := vecs[vec] - 1];
      }
    }

    method AllocBuffers(luck: Luck) returns (rv: int)
      modifies this`desc, this`fl, this`wrb, this`rx, this`heap, this`vecs, this`vec
      ensures Buffers() == AllocResource(old(Buffers()), st && c2h, luck)
      ensures Vectors() == if AllocOk(st && c2h, luck) then TakeVector(old(Vectors())) else old(Vectors())
      ensures rv == if AllocOk(st && c2h, luck) then 0 else -ENOMEM
    {
      hide FreeBufs, FreeBuf, NewBuf, Least;
      if !luck.desc {
        FreeBuffers();
        return -ENOMEM;
      }
      desc, heap := Some(heap.next), NewBuf(heap);
      if st && c2h {
        if !luck.fl {
          FreeBuffers();
          return -ENOMEM;
        }
        fl, heap := Some(heap.next), NewBuf(heap);
        if !luck.wrb {
          FreeBuffers();
          return -ENOMEM;
        }
        wrb, heap := Some(heap.next), NewBuf(heap);
      }
      AllocIrq();
      return 0;
    }

    method JoinThreads()
      modifies this`listed, this`entry, this`crashed
      ensures Value() == AddWork(old(Value()))
    {
      crashed := crashed || listed;
      listed := true;
      if vecs != [] {
        entry := Linked;
      }
    }

    method LeaveThreads()
      modifies this`listed, this`entry, this`crashed
      ensures Value() == RemoveWork(old(Value()))
    {
      if listed && vecs == [] {
        listed := false;
      } else {
        crashed := crashed || entry.Poisoned?;
        listed, entry := false, Poisoned;
      }
    }

    /** `qdma_queue_start`. */
    method Start(luck: Luck) returns (rv: int)
      modifies this
      ensures rv == Code(old(Value()), StartQ(luck)) && Value() == Started(old(Value()), luck)
    {
      hide FreeResource, AllocResource, TakeVector, AllocOk;
      if !enabled || inited || online {
        return -EINVAL;
      }
      rv := AllocBuffers(luck);
      if rv >= 0 {
        inited := true;
        rv := luck.prog;
      }
      if rv < 0 {
        programmed := false;
        FreeBuffers();
        inited := false;
        return;
      }
      rv := 0;
      programmed := true;
      online := true;
      JoinThreads();
    }

    /** `qdma_queue_stop`. */
    method Stop() returns (rv: int)
      modifies this
      ensures rv == Code(old(Value()), StopQ) && Value() == Stopped(old(Value()))
    {
      hide FreeResource;
      if !enabled {
        return -EINVAL;
      }
      LeaveThreads();
      programmed := false;
      FreeBuffers();
      online := false;
      inited := false;
      return 0;
    }

    /** `qdma_queue_remove`: the flags are cleared first, so the cleanup routine it calls, which would
        clear the contexts of an initialised queue, never does. */
    method Remove() returns (rv: int)
      modifies this
      ensures rv == Code(old(Value()), RemoveQ) && Value() == Removed(old(Value()))
    {
      hide FreeResource, FreeVector;
      if !enabled {
        return -EINVAL;
      }
      inited := false;
      online := false;
      Cleanup();
      enabled := false;
      return 0;
    }

    method Cleanup()
      modifies this`inited, this`online, this`programmed, this`desc, this`fl, this`wrb, this`rx, this`heap, this`vecs
      ensures Buffers() == FreeResource(old(Buffers())) && Vectors() == FreeVector(old(Vectors())) && !inited
      ensures old(inited) ==> !online && !programmed
      ensures !old(inited) ==> online == old(online) && programmed == old(programmed)
    {
      if inited {
        inited := false;
        online := false;
        programmed := false;
      }
      FreeIrq();
      FreeBuffers();
    }

    method Add() returns (rv: int)
      modifies this`enabled
      ensures rv == Code(old(Value()), AddQ) && Value() == Apply(old(Value()), AddQ)
    {
      if enabled {
        return -EINVAL;
      }
      enabled := true;
      return 0;
    }
  }

  lemma {:induction false} VectorsStay(q: Irq)
    ensures |TakeVector(q).vecs| == |q.vecs| && (q.vecs != [] ==> TakeVector(q).vec < |q.vecs|)
  {
  }

  // ---------------------------------------------------------------------------
  // Every run: flags and buffers
  // ---------------------------------------------------------------------------

  /** A queue never added, on a device whose vectors serve other queues. */
  function Fresh(rxRing: bool, vecs: seq<nat>): Life {
    Life(rxRing, false, false, false, false, false, Bufs(None, None, None, {}, Heap({}, 0, false)), Irq(vecs, 0), Idle, false)
  }

  function Run(l: Life, ops: seq<Op>): Life {
    if ops == [] then l else Apply(Run(l, ops[..|ops| - 1]), ops[|ops| - 1])
  }

  function Owned(b: Option<Buf>): set<Buf> {
    if b.Some? then {b.value} else {}
  }

  /** The live buffers are exactly the queue's own, all different. */
  predicate BufsOk(b: Bufs) {
    && !b.heap.twice
    && b.heap.live == Owned(b.desc) + Owned(b.fl) + Owned(b.wrb) + b.rx
    && (forall x :: x in b.heap.live ==> x < b.heap.next)
    && (b.desc.Some? ==> b.desc != b.fl && b.desc != b.wrb && b.desc.value !in b.rx)
    && (b.fl.Some? ==> b.fl != b.wrb && b.fl.value !in b.rx)
    && (b.wrb.Some? ==> b.wrb.value !in b.rx)
  }

  /** Flags are nested, buffers exist exactly while the queue is initialised, none is leaked or freed twice. */
  predicate LifeOk(l: Life) {
    && (l.online ==> l.inited) && (l.inited ==> l.enabled)
    && (l.inited <==> l.bufs.desc.Some?)
    && (l.bufs.fl.Some? <==> l.inited && l.rxRing) && (l.bufs.wrb.Some? <==> l.inited && l.rxRing)
    && (l.bufs.rx != {} ==> l.inited && l.rxRing)
    && BufsOk(l.bufs)
  }

  lemma {:induction false} FreeOk(b: Bufs)
    requires BufsOk(b)
    ensures BufsOk(FreeResource(b)) && FreeResource(b).heap.live == {}
  {
  }

  lemma {:induction false} TakeDescOk(b: Bufs)
    requires BufsOk(b) && b.desc.None?
    ensures BufsOk(TakeDesc(b))
  {
  }

  lemma {:induction false} TakeFlOk(b: Bufs)
    requires BufsOk(b) && b.fl.None?
    ensures BufsOk(TakeFl(b))
  {
  }

  lemma {:induction false} TakeWrbOk(b: Bufs)
    requires BufsOk(b) && b.wrb.None?
    ensures BufsOk(TakeWrb(b))
  {
  }

  lemma {:induction false} RxOk(b: Bufs)
    requires BufsOk(b)
    ensures BufsOk(TakeRx(b)) && BufsOk(FreeRx(b))
  {
  }

  lemma {:induction false} AllocKeepsBufs(b: Bufs, rxRing: bool, luck: Luck)
    requires BufsOk(b) && b.desc.None? && b.fl.None? && b.wrb.None?
    ensures BufsOk(AllocResource(b, rxRing, luck))
  {
    hide FreeResource, BufsOk, NewBuf;
    TakeDescOk(b);
    TakeFlOk(TakeDesc(b));
    TakeWrbOk(TakeFl(TakeDesc(b)));
    FreeOk(TakeDesc(b));
    FreeOk(TakeFl(TakeDesc(b)));
    FreeOk(b);
  }

  lemma {:induction false} ApplyOk(l: Life, op: Op)
    requires LifeOk(l)
    ensures LifeOk(Apply(l, op))
  {
    hide BufsOk, FreeBuf, FreeBufs, NewBuf, Least, TakeVector;
    FreeOk(l.bufs);
    RxOk(l.bufs);
    if op.StartQ? && !l.inited {
      AllocKeepsBufs(l.bufs, l.rxRing, op.luck);
      FreeOk(AllocResource(l.bufs, l.rxRing, op.luck));
    }
  }

  /** Holds after every sequence of calls, whatever fails on the way. */
  lemma {:induction false} RunOk(rxRing: bool, vecs: seq<nat>, ops: seq<Op>)
    ensures LifeOk(Run(Fresh(rxRing, vecs), ops))
  {
    hide Apply;
    if ops != [] {
      RunOk(rxRing, vecs, ops[..|ops| - 1]);
      ApplyOk(Run(Fresh(rxRing, vecs), ops[..|ops| - 1]), ops[|ops| - 1]);
    }
  }

  /** What each call brings about in every reachable state, and when it fails. */
  lemma {:induction false} CallsExact(l: Life, luck: Luck)
    requires LifeOk(l)
    ensures var r, code := Apply(l, StartQ(luck)), Code(l, StartQ(luck));
            && (code == 0 <==> !l.online && r.online)
            && (code == 0 ==> r.inited && r.programmed && r.listed && r.bufs.desc.Some? && r.enabled)
            && (code != 0 ==> r.online == l.online && r.inited == l.inited && r.enabled == l.enabled && r.listed == l.listed)
            && (code == -EINVAL <== !l.enabled || l.inited)
            && (code == -ENOMEM <== l.enabled && !l.inited && !(luck.desc && (l.rxRing ==> luck.fl && luck.wrb)))
            && (code == luck.prog <== l.enabled && !l.inited && luck == Luck(true, true, true, luck.prog) && luck.prog < 0)
    ensures var r, code := Apply(l, StopQ), Code(l, StopQ);
            && code == (if l.enabled then 0 else -EINVAL) && !r.online && !r.inited && r.enabled == l.enabled
            && r.bufs.desc == r.bufs.fl == r.bufs.wrb == None && r.bufs.rx == {} && r.bufs.heap.live == {}
    ensures var r, code := Apply(l, RemoveQ), Code(l, RemoveQ);
            && code == (if l.enabled then 0 else -EINVAL) && !r.online && !r.inited && !r.enabled && r.bufs.heap.live == {}
    ensures Code(l, AddQ) == (if l.enabled then -EINVAL else 0) && Apply(l, AddQ).enabled
  {
    hide TakeVector, FreeVector, BufsOk, FreeBuf, FreeBufs, NewBuf;
    FreeOk(l.bufs);
    assert !l.enabled ==> l.bufs.heap.live == {} by { NoBuffers(l); }
  }

  lemma {:induction false} NoBuffers(l: Life)
    requires LifeOk(l)
    ensures !l.inited ==> l.bufs.heap.live == {}
  {
  }

  // ---------------------------------------------------------------------------
  // Every run: the worker's list and the hardware
  // ---------------------------------------------------------------------------

  /** Off the worker's list and out of the hardware whenever not online; on a vector's list while on the worker's, unless
      polled. */
  predicate Detached(l: Life) {
    (l.listed <==> l.online) && (l.programmed <==> l.online) && (l.listed && l.irq.vecs != [] ==> l.entry.Linked?)
  }

  /** Every call keeps this if and only if it is not the removal of an online queue. */
  lemma {:induction false} DetachedExact(l: Life, op: Op)
    requires LifeOk(l) && Detached(l)
    ensures Detached(Apply(l, op)) <==> !(op == RemoveQ && l.online)
  {
    hide BufsOk, FreeResource, AllocResource, TakeVector;
    VectorsStay(l.irq);
  }

  /** So it holds in a run in which every removal is of a queue that was stopped or never started. */
  lemma {:induction false} RunDetached(rxRing: bool, vecs: seq<nat>, ops: seq<Op>)
    requires forall i :: 0 <= i < |ops| && ops[i] == RemoveQ ==> !Run(Fresh(rxRing, vecs), ops[..i]).online
    ensures Detached(Run(Fresh(rxRing, vecs), ops))
  {
    hide Apply, LifeOk;
    if ops != [] {
      var m, l := |ops| - 1, Fresh(rxRing, vecs);
      forall i | 0 <= i < m && ops[..m][i] == RemoveQ ensures !Run(l, ops[..m][..i]).online {
        assert ops[..m][..i] == ops[..i];
      }
      RunDetached(rxRing, vecs, ops[..m]);
      RunOk(rxRing, vecs, ops[..m]);
      DetachedExact(Run(l, ops[..m]), ops[m]);
    }
  }

  /** Add, start, remove: the queue is gone, its buffers are freed, and the worker still has it on its list. */
  lemma {:induction false} RemovedButListed(rxRing: bool, vecs: seq<nat>, luck: Luck)
    requires luck == Luck(true, true, true, 0)
    ensures var l := Run(Fresh(rxRing, vecs), [AddQ, StartQ(luck), RemoveQ]);
            !l.enabled && l.bufs.desc.None? && l.listed && l.programmed
  {
    RunThree(Fresh(rxRing, vecs), AddQ, StartQ(luck), RemoveQ);
  }

  lemma {:induction false} RunThree(l: Life, a: Op, b: Op, c: Op)
    ensures Run(l, [a, b, c]) == Apply(Apply(Apply(l, a), b), c)
  {
    hide Apply;
    var ops := [a, b, c];
    assert ops[..2] == [a, b] && ops[..2][..1] == [a] && ops[..2][..1][..0] == [];
    assert Run(l, [a]) == Apply(l, a);
    assert Run(l, [a, b]) == Apply(Apply(l, a), b);
  }

  /** A stop unlinks the list entry of a queue that is not running too, and a second time that crashes: from every state
      in which a stop is harmless, a second one right after it crashes if and only if interrupts are used, the queue was
      not running, or an idle queue was stopped before. */
  lemma {:induction false} StopTwiceExact(l: Life)
    requires l.enabled && !Apply(l, StopQ).crashed
    ensures Apply(Apply(l, StopQ), StopQ).crashed <==> l.irq.vecs != [] || !l.listed || l.entry.Poisoned?
  {
    hide FreeResource;
  }

  /** Started and stopped, then stopped again, with interrupts. */
  lemma {:induction false} StopTwiceCrashes(rxRing: bool, luck: Luck)
    requires luck == Luck(true, true, true, 0)
    ensures var l := Run(Fresh(rxRing, [0]), [AddQ, StartQ(luck), StopQ]);
            !l.crashed && Apply(l, StopQ).crashed
  {
    hide FreeResource, AllocResource, TakeVector;
    VectorsStay(Irq([0], 0));
    RunThree(Fresh(rxRing, [0]), AddQ, StartQ(luck), StopQ);
  }

  /** A successful start links an entry that is still on the worker's list if and only if the queue was listed. */
  lemma {:induction false} RelistExact(l: Life, luck: Luck)
    requires !l.crashed && Code(l, StartQ(luck)) == 0
    ensures Apply(l, StartQ(luck)).crashed <==> l.listed
  {
    hide FreeResource, AllocResource, TakeVector;
  }

  /** Removed while online, added and started again. */
  lemma {:induction false} RelistCrashes(rxRing: bool, vecs: seq<nat>, luck: Luck)
    requires luck == Luck(true, true, true, 0)
    ensures var l := Run(Fresh(rxRing, vecs), [AddQ, StartQ(luck), RemoveQ]);
            !l.crashed && Apply(Apply(l, AddQ), StartQ(luck)).crashed
  {
    hide FreeResource, AllocResource, TakeVector, FreeVector;
    RunThree(Fresh(rxRing, vecs), AddQ, StartQ(luck), RemoveQ);
  }

  /** A run never crashes if it stops only queues that are online and removes only queues that are not. */
  lemma {:induction false} RunNeverCrashes(rxRing: bool, vecs: seq<nat>, ops: seq<Op>)
    requires forall i :: 0 <= i < |ops| && ops[i] == RemoveQ ==> !Run(Fresh(rxRing, vecs), ops[..i]).online
    requires forall i :: 0 <= i < |ops| && ops[i] == StopQ ==> Run(Fresh(rxRing, vecs), ops[..i]).online
    ensures !Run(Fresh(rxRing, vecs), ops).crashed
  {
    hide Apply, LifeOk;
    if ops != [] {
      var m, l := |ops| - 1, Fresh(rxRing, vecs);
      forall i | 0 <= i < m && (ops[..m][i] == RemoveQ || ops[..m][i] == StopQ) ensures ops[..m][..i] == ops[..i] {
      }
      RunNeverCrashes(rxRing, vecs, ops[..m]);
      RunDetached(rxRing, vecs, ops[..m]);
      CrashStep(Run(l, ops[..m]), ops[m]);
    }
  }

  lemma {:induction false} CrashStep(l: Life, op: Op)
    requires !l.crashed && Detached(l) && (op == StopQ ==> l.online)
    ensures !Apply(l, op).crashed
  {
    hide FreeResource, AllocResource, TakeVector;
  }

  // ---------------------------------------------------------------------------
  // Interrupt vectors
  // ---------------------------------------------------------------------------

  /** A reservation goes to the first of the vectors that serve the fewest queues and raises its count by one. */
  lemma {:induction false} VectorTaken(q: Irq, j: nat)
    requires j < |q.vecs|
    ensures var r := TakeVector(q);
            && r.vec < |q.vecs| && q.vecs[r.vec] <= q.vecs[j] && (j < r.vec ==> q.vecs[r.vec] < q.vecs[j])
            && r.vecs == q.vecs[r.vec := q.vecs[r.vec] + 1]
  {
  }

  /** No two vectors differ by more than one queue. */
  predicate Even(vecs: seq<nat>) {
    forall i, j :: 0 <= i < |vecs| && 0 <= j < |vecs| ==> vecs[i] <= vecs[j] + 1
  }

  /** Evenly used vectors stay so over any calls other than removals. */
  lemma {:induction false} StaysEven(l: Life, ops: seq<Op>)
    requires Even(l.irq.vecs) && RemoveQ !in ops
    ensures Even(Run(l, ops).irq.vecs)
  {
    hide Apply;
    if ops != [] {
      var k := |ops| - 1;
      assert forall op :: op in ops[..k] ==> op in ops;
      assert ops[k] in ops;
      StaysEven(l, ops[..k]);
      VectorStep(Run(l, ops[..k]), ops[k]);
    }
  }

  predicate Allocates(l: Life, op: Op) {
    op.StartQ? && l.enabled && !l.inited && !l.online && AllocOk(l.rxRing, op.luck)
  }

  /** How many of the starts in a run get all their buffers, whether or not they succeed in the end. */
  function Allocs(l: Life, ops: seq<Op>): nat {
    if ops == [] then 0 else
      var front := ops[..|ops| - 1];
      Allocs(l, front) + (if Allocates(Run(l, front), ops[|ops| - 1]) then 1 else 0)
  }

  /** What a call that is not a removal does to the vectors. */
  lemma {:induction false} VectorStep(l: Life, op: Op)
    requires op != RemoveQ
    ensures (l.enabled ==> Apply(l, op).enabled)
    ensures Apply(l, op).irq == if Allocates(l, op) then TakeVector(l.irq) else l.irq
  {
    hide FreeResource, AllocResource, TakeVector;
  }

  lemma {:induction false} SumSet(v: seq<nat>, i: nat, x: nat)
    requires i < |v|
    ensures Sum(v[i := x]) == Sum(v) - v[i] + x
  {
    var m := |v| - 1;
    if i == m {
      assert v[i := x][..m] == v[..m];
    } else {
      assert v[i := x][..m] == v[..m][i := x];
      SumSet(v[..m], i, x);
    }
  }

  /** Up to its removal a queue has taken a vector once for every start that got its buffers, and released none. */
  lemma {:induction false} VectorsTaken(l: Life, ops: seq<Op>)
    requires l.enabled && l.irq.vec < |l.irq.vecs| && RemoveQ !in ops
    ensures var m, n := Run(l, ops), Allocs(l, ops);
            var v, v' := l.irq.vecs, m.irq.vecs;
            && m.enabled && m.irq.vec < |v'| == |v| && Sum(v') == Sum(v) + n
            && (n == 0 ==> m.irq == l.irq)
            && (n == 1 ==> v' == v[m.irq.vec := v[m.irq.vec] + 1])
            && (n > 0 ==> v'[m.irq.vec] > 0)
  {
    hide Apply, Sum, AllocOk;
    if ops != [] {
      var k := |ops| - 1;
      assert forall op :: op in ops[..k] ==> op in ops;
      assert ops[k] in ops;
      VectorsTaken(l, ops[..k]);
      var m := Run(l, ops[..k]);
      VectorStep(m, ops[k]);
      var v := m.irq.vecs;
      SumSet(v, Least(v), v[Least(v)] + 1);
    }
  }

  /** The vector counts after the removal are those before the queue was added if and only if exactly one start in between
      got its buffers, or none did and the count that is lowered regardless was zero already. Every further start leaks one. */
  lemma {:induction false} VectorsExact(l: Life, ops: seq<Op>)
    requires l.enabled && l.irq.vec < |l.irq.vecs| && RemoveQ !in ops
    ensures var n, v, v' := Allocs(l, ops), l.irq.vecs, Apply(Run(l, ops), RemoveQ).irq.vecs;
            && (v' == v <==> n == 1 || (n == 0 && v[l.irq.vec] == 0))
            && (n > 0 ==> Sum(v') == Sum(v) + n - 1)
  {
    hide Run, Allocs, Sum, FreeResource;
    VectorsTaken(l, ops);
    var q := Run(l, ops).irq;
    if q.vecs[q.vec] > 0 {
      SumSet(q.vecs, q.vec, q.vecs[q.vec] - 1);
    }
  }

  /** Started and stopped twice, a queue leaves its vector one too high. */
  lemma {:induction false} StopLeaksVector(rxRing: bool, luck: Luck)
    requires luck == Luck(true, true, true, 0)
    ensures var l := Apply(Fresh(rxRing, [0]), AddQ);
            Apply(Apply(Run(l, [StartQ(luck), StopQ, StartQ(luck)]), StopQ), RemoveQ).irq.vecs == [1]
  {
    hide FreeResource, AllocResource;
    RunThree(Apply(Fresh(rxRing, [0]), AddQ), StartQ(luck), StopQ, StartQ(luck));
  }

  /** Added and removed without a start, it lowers a count that another queue has raised. */
  lemma {:induction false} RemoveTakesVector(rxRing: bool)
    ensures Apply(Apply(Fresh(rxRing, [1]), AddQ), RemoveQ).irq.vecs == [0]
  {
  }
}
