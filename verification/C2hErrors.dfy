/** Every run of a receiving queue, with writeback entries in error at any place. Pages keep one owner, and the driver
    never gets past the first entry in error: it stops there for good. */
module C2hErrors {
  import opened Common
  import opened SgList
  import opened Ring
  import opened Rx
  import opened C2h
  import opened C2hRun

  // ---------------------------------------------------------------------------
  // Pages and bounds in every run
  // ---------------------------------------------------------------------------

  /** Freelist and descriptors agree, every page has one owner, the byte count is right. */
  ghost predicate Sound(s: Q) {
    |s.fl| > 0 && s.desc == s.fl && Owned(s) && MemOk(s) && FragsOk(s)
  }

  lemma {:induction false} SoundBounds(s: Q)
    requires Sound(s)
    ensures MemFor(s) && Unread(s.rxq) && s.dlen == Waiting(s.rxq) && Backed(s.mem, s.rxq)
  {
    ShapeMem(s, [], 0);
    forall i | 0 <= i < |s.rxq|
      ensures s.rxq[i].pg in s.mem && s.rxq[i].off <= s.rxq[i].len <= |s.mem[s.rxq[i].pg]|
    {
      FragAllocated(s, i);
    }
  }

  lemma {:induction false} TakePageSound(s: Q, p: nat, k: nat)
    requires Sound(s) && p < |s.fl| && 0 < k <= PAGE_SIZE
    ensures Sound(TakePage(s, p, k))
  {
    hide Owned, Waiting, Blank;
    TakePageOwned(s, p, k);
    WaitingTail(s.rxq, Frag(s.fl[p], 0, k));
  }

  lemma {:induction false} TakePacketSound(s: Q, p: nat, len: nat)
    requires Sound(s) && p < |s.fl| == |s.desc|
    ensures Sound(TakePacket(s, p, len).s)
    decreases len
  {
    hide Sound, TakePage;
    if len > 0 {
      var k := Min(len, PAGE_SIZE);
      TakePageSound(s, p, k);
      TakePageSize(s, p, k);
      TakePacketSound(TakePage(s, p, k), Inc(p, |s.fl|), len - k);
    }
  }

  lemma {:induction false} TakePageSize(s: Q, p: nat, k: nat)
    requires p < |s.fl| == |s.desc|
    ensures var s' := TakePage(s, p, k); |s'.fl| == |s'.desc| == |s.fl| && s'.pidx == s.pidx && s'.cidxWrb == s.cidxWrb
  {
  }

  lemma {:induction false} IndexSound(s: Q, s': Q)
    requires Sound(s) && s' == s.(pidx := s'.pidx, cidxWrb := s'.cidxWrb)
    ensures Sound(s')
  {
    assert Owners(s') == Owners(s);
  }

  lemma {:induction false} TakeEntriesSound(s: Q, wrb: seq<Entry>, p: nat, budget: nat)
    requires Sound(s) && p < |s.fl| == |s.desc| && s.cidxWrb < |wrb|
    ensures Sound(TakeEntries(s, wrb, p, budget).s)
    decreases budget
  {
    hide Sound, TakePacket;
    if budget > 0 && !wrb[s.cidxWrb].err {
      TakePacketSound(s, p, wrb[s.cidxWrb].len);
      var o := TakePacket(s, p, wrb[s.cidxWrb].len);
      var s' := o.s.(cidxWrb := Inc(s.cidxWrb, |wrb|));
      IndexSound(o.s, s');
      TakeEntriesSound(s', wrb, o.p, budget - 1);
    }
  }

  lemma {:induction false} DmaSound(s: Q, slot: nat, payload: seq<Byte>)
    requires Sound(s) && slot < |s.desc| && MemFor(s)
    ensures Sound(Dma(s, slot, payload))
    decreases |payload|
  {
    if payload != [] {
      var k := Min(|payload|, PAGE_SIZE);
      var s' := WritePage(s, slot, payload[..k]);
      OwnedMem(s, s');
      assert MemOk(s');
      DmaSound(s', Inc(slot, |s.desc|), payload[k..]);
    }
  }

  lemma {:induction false} ReadSound(s: Q, k: nat)
    requires Sound(s) && k <= s.dlen && Unread(s.rxq)
    ensures Sound(ReadBytes(s, k))
  {
    hide Drop, Freed, Waiting;
    assert Shape(s, [], 0);
    ReadShape(s, [], 0, k);
  }

  /** The index bounds and the page bookkeeping. */
  ghost predicate Safe(w: World, rngsz: nat) {
    && Sound(w.s) && |w.s.fl| == |w.wrb| == rngsz
    && w.s.pidx < rngsz && w.s.cidxWrb < rngsz
    && w.hwDesc < rngsz && w.doorbell < rngsz && w.hwWrb < rngsz && w.wbPidx < rngsz
  }

  lemma {:induction false} NextSafe(w: World, step: Step, w': World, rngsz: nat)
    requires Safe(w, rngsz) && Next(w, step, w')
    ensures Safe(w', rngsz)
  {
    hide Sound, MemFor, Dma, TakeEntries, Drop, Freed, Stream, PageLens, Sum, Unread, Backed;
    match step
    case Deliver(payload) => DmaSound(w.s, w.hwDesc, payload);
    case ServiceWb =>
      var budget := Budget(w.wbPidx, w.s.cidxWrb, rngsz);
      TakeEntriesSound(w.s, w.wrb, w.s.pidx, budget);
      IndexSound(TakeEntries(w.s, w.wrb, w.s.pidx, budget).s, w'.s);
      EntriesKeepPidx(w.s, w.wrb, w.s.pidx, budget);
    case ReadInto(lens) => ReadSound(w.s, Min(Sum(lens), w.s.dlen));
    case _ =>
  }

  /** In every state of every run, with or without entries in error, the guards of all steps hold, so no run is cut off;
      every page has one owner; and tearing down frees each page ever allocated exactly once. */
  lemma {:induction false} TeardownExact(rngsz: nat, ws: seq<World>, steps: seq<Step>, i: nat)
    requires rngsz > 0 && Trace(rngsz, ws, steps) && i < |ws|
    ensures Safe(ws[i], rngsz) && InBounds(ws[i])
    ensures forall pg: Page :: multiset(Teardown(ws[i].s))[pg] == if pg < ws[i].s.nextPage then 1 else 0
  {
    TraceSafe(rngsz, ws, steps, i);
    SoundBounds(ws[i].s);
    hide Owned;
    TeardownFreesAll(ws[i].s);
  }

  lemma {:induction false} TraceSafe(rngsz: nat, ws: seq<World>, steps: seq<Step>, i: nat)
    requires rngsz > 0 && Trace(rngsz, ws, steps) && i < |ws|
    ensures Safe(ws[i], rngsz)
  {
    hide Safe, Next;
    if i == 0 {
      StartSafe(rngsz);
    } else {
      TraceSafe(rngsz, ws, steps, i - 1);
      assert Next(ws[i - 1], steps[i - 1], ws[i - 1 + 1]);
      NextSafe(ws[i - 1], steps[i - 1], ws[i], rngsz);
    }
  }

  lemma {:induction false} StartSafe(rngsz: nat)
    requires rngsz > 0
    ensures Safe(Start(rngsz), rngsz)
  {
    hide Owned, MemOk;
    StartConserves(rngsz);
  }

  // ---------------------------------------------------------------------------
  // The driver stops at an entry in error
  // ---------------------------------------------------------------------------

  /** The entry in slot `x` is in error and posted, and the driver has not gone past it. */
  ghost predicate Blocked(w: World, x: nat) {
    && InBounds(w) && x < |w.wrb| && w.wrb[x].err
    && Dist(w.s.cidxWrb, x, |w.wrb|) < Dist(w.s.cidxWrb, w.hwWrb, |w.wrb|)
  }

  /** A batch ends at an entry in error at the latest. */
  lemma {:induction false} BatchStops(s: Q, wrb: seq<Entry>, p: nat, budget: nat, x: nat)
    requires p < |s.fl| == |s.desc| && s.cidxWrb < |wrb| && x < |wrb| && wrb[x].err
    ensures var c := TakeEntries(s, wrb, p, budget).s.cidxWrb;
            Dist(s.cidxWrb, c, |wrb|) + Dist(c, x, |wrb|) == Dist(s.cidxWrb, x, |wrb|)
    decreases budget
  {
    hide TakePacket;
    if budget > 0 && !wrb[s.cidxWrb].err {
      var o := TakePacket(s, p, wrb[s.cidxWrb].len);
      BatchStops(o.s.(cidxWrb := Inc(s.cidxWrb, |wrb|)), wrb, o.p, budget - 1, x);
    }
  }

  lemma {:induction false} NextBlocked(w: World, step: Step, w': World, x: nat)
    requires Blocked(w, x) && Next(w, step, w') && InBounds(w')
    ensures Blocked(w', x) && |w'.wrb| == |w.wrb| && w'.taken >= w.taken
    ensures w'.taken - w.taken == Dist(w.s.cidxWrb, x, |w.wrb|) - Dist(w'.s.cidxWrb, x, |w.wrb|)
    ensures w'.s.cidxWrb == w.s.cidxWrb ==>
              && w'.s.fl == w.s.fl && w'.s.desc == w.s.desc && w'.s.pidx == w.s.pidx && w'.s.nextPage == w.s.nextPage
              && |w'.read| + w'.s.dlen == |w.read| + w.s.dlen
  {
    hide MemFor, Dma, TakeEntries, Drop, Freed, Stream, PageLens, Sum, Unread, Backed, Waiting;
    match step
    case ServiceWb =>
      var budget := Budget(w.wbPidx, w.s.cidxWrb, |w.wrb|);
      BatchStops(w.s, w.wrb, w.s.pidx, budget, x);
      if w'.s.cidxWrb == w.s.cidxWrb {
        NothingTaken(w.s, w.wrb, w.s.pidx, budget, x);
      }
    case _ =>
  }

  /** A call that does not get on takes nothing at all. */
  lemma {:induction false} NothingTaken(s: Q, wrb: seq<Entry>, p: nat, budget: nat, x: nat)
    requires p < |s.fl| == |s.desc| && s.cidxWrb < |wrb| && x < |wrb| && wrb[x].err
    requires TakeEntries(s, wrb, p, budget).s.cidxWrb == s.cidxWrb
    ensures TakeEntries(s, wrb, p, budget).s == s && TakeEntries(s, wrb, p, budget).p == p
  {
    hide TakePacket;
    if budget > 0 && !wrb[s.cidxWrb].err {
      var o := TakePacket(s, p, wrb[s.cidxWrb].len);
      BatchStops(o.s.(cidxWrb := Inc(s.cidxWrb, |wrb|)), wrb, o.p, budget - 1, x);
      assert false;
    }
  }

  /** In every run, once an entry in error has been posted, the driver takes at most the entries before it, whatever
      else is delivered and however often it is called. */
  lemma {:induction false} ErrorNeverPassed(rngsz: nat, ws: seq<World>, steps: seq<Step>, i: nat, j: nat)
    requires rngsz > 0 && Trace(rngsz, ws, steps) && i < |steps| && steps[i].DeliverBad? && i < j < |ws|
    ensures var x, w, w' := ws[i].hwWrb, ws[i], ws[j];
            && InBounds(w) && |w.wrb| == rngsz && Blocked(w', x) && |w'.wrb| == rngsz
            && w'.taken + Dist(w'.s.cidxWrb, x, rngsz) == w.taken + Dist(w.s.cidxWrb, x, rngsz)
    decreases j
  {
    hide Next, InBounds, Safe;
    var x := ws[i].hwWrb;
    TeardownExact(rngsz, ws, steps, i);
    TeardownExact(rngsz, ws, steps, j);
    SafeSize(ws[i], rngsz);
    SafeSize(ws[j], rngsz);
    if j == i + 1 {
      assert Next(ws[i], steps[i], ws[i + 1]);
      BadBlocks(ws[i], steps[i].len, ws[j]);
    } else {
      ErrorNeverPassed(rngsz, ws, steps, i, j - 1);
      assert Next(ws[j - 1], steps[j - 1], ws[j - 1 + 1]);
      BlockedBounds(ws[j - 1], x);
      NextBlocked(ws[j - 1], steps[j - 1], ws[j], x);
      BlockedBounds(ws[j], x);
    }
  }

  lemma {:induction false} SafeSize(w: World, rngsz: nat)
    requires Safe(w, rngsz)
    ensures |w.wrb| == rngsz && w.s.cidxWrb < rngsz && w.hwWrb < rngsz
  {
    hide Sound;
  }

  lemma {:induction false} BlockedBounds(w: World, x: nat)
    requires Blocked(w, x)
    ensures x < |w.wrb| && w.s.cidxWrb < |w.wrb|
  {
    hide MemFor, Unread, Backed, Waiting;
  }

  lemma {:induction false} BadBlocks(w: World, len: nat, w': World)
    requires Next(w, DeliverBad(len), w') && InBounds(w')
    ensures Blocked(w', w.hwWrb) && w'.taken == w.taken && w'.s == w.s
  {
    hide MemFor, Unread, Backed, Waiting;
  }

  /** In every run, from the service call on that reaches the entry in error, no service call takes anything: the indices,
      the freelist and the descriptors stay as they are, and readers get only what was queued then. */
  lemma {:induction false} ErrorFreezes(rngsz: nat, ws: seq<World>, steps: seq<Step>, i: nat, j: nat, x: nat)
    requires rngsz > 0 && Trace(rngsz, ws, steps) && i <= j < |ws| && Blocked(ws[i], x) && ws[i].s.cidxWrb == x
    ensures var w, w' := ws[i], ws[j];
            && Blocked(w', x) && w'.s.cidxWrb == x && w'.taken == w.taken
            && w'.s.fl == w.s.fl && w'.s.desc == w.s.desc && w'.s.pidx == w.s.pidx && w'.s.nextPage == w.s.nextPage
            && |w'.read| + w'.s.dlen == |w.read| + w.s.dlen
    decreases j
  {
    hide Next, InBounds, Safe;
    if i < j {
      ErrorFreezes(rngsz, ws, steps, i, j - 1, x);
      assert Next(ws[j - 1], steps[j - 1], ws[j - 1 + 1]);
      TeardownExact(rngsz, ws, steps, j);
      BlockedBounds(ws[j - 1], x);
      NextBlocked(ws[j - 1], steps[j - 1], ws[j], x);
      StaysAt(ws[j - 1], ws[j], x);
    }
  }

  lemma {:induction false} StaysAt(w: World, w': World, x: nat)
    requires Blocked(w, x) && Blocked(w', x) && |w'.wrb| == |w.wrb| && w.s.cidxWrb == x
    requires w'.taken - w.taken == Dist(w.s.cidxWrb, x, |w.wrb|) - Dist(w'.s.cidxWrb, x, |w.wrb|) && w'.taken >= w.taken
    ensures w'.s.cidxWrb == x && w'.taken == w.taken
  {
    hide MemFor, Unread, Backed, Waiting;
  }

  // ---------------------------------------------------------------------------
  // What the entry in error leaves behind
  // ---------------------------------------------------------------------------

  lemma {:induction false} TakeThenError(s: Q, wrb: seq<Entry>, p: nat, good: nat, budget: nat)
    requires p < |s.fl| == |s.desc| && s.cidxWrb < |wrb| && good < budget
    requires var o := TakeEntries(s, wrb, p, good); o.ok && wrb[o.s.cidxWrb].err
    ensures TakeEntries(s, wrb, p, budget) == TakeEntries(s, wrb, p, good).(ok := false)
    decreases good
  {
    if good > 0 && !wrb[s.cidxWrb].err {
      var o := TakePacket(s, p, wrb[s.cidxWrb].len);
      TakeThenError(o.s.(cidxWrb := Inc(s.cidxWrb, |wrb|)), wrb, o.p, good - 1, budget - 1);
    }
  }

  /** When an entry in error follows good ones in a batch, their packets are queued and their slots refilled but the
      producer index stays behind: it is right if and only if those packets were all empty. */
  lemma {:induction false} ErrorEntryExact(s: Q, wrb: seq<Entry>, packets: seq<nat>, i: nat, pidxWrb: nat,
                                           delivered: seq<Byte>, read: seq<Byte>)
    requires |wrb| == |s.desc| == |s.fl| > 0 && i <= |packets| && s.cidxWrb == Slot(i, |wrb|)
    requires Holds(wrb, i, |packets|, Entries(packets)) && wrb[Slot(|packets|, |wrb|)].err
    requires Conserves(s, Lens(packets), |Lens(packets[..i])|, delivered, read)
    requires s.pidx == Slot(|Lens(packets[..i])|, |s.fl|)
    requires |packets| - i < Budget(pidxWrb, s.cidxWrb, |s.fl|)
    ensures Service(s, wrb, pidxWrb).pidx == Slot(|Lens(packets)|, |s.fl|) <==> Sum(packets[i..]) == 0
    ensures Service(s, wrb, pidxWrb).cidxWrb == Slot(|packets|, |wrb|)
  {
    hide Conserves, Holds, Lens, TakePacket, Slot;
    var p, good := |Lens(packets[..i])|, |packets| - i;
    var o := TakeEntries(s, wrb, s.pidx, good);
    TakeEntriesConserves(s, wrb, packets, i, good, o, delivered, read);
    assert packets[..i + good] == packets;
    TakeThenError(s, wrb, s.pidx, good, Budget(pidxWrb, s.cidxWrb, |s.fl|));
    EntriesKeepPidx(s, wrb, s.pidx, Budget(pidxWrb, s.cidxWrb, |s.fl|));
    ConservesBounds(s, Lens(packets), p, delivered, read);
    PendingBytes(packets, i);
    SlotDist(p, |Lens(packets)| - p, |s.fl|);
    PositiveSum(s, Lens(packets), p, delivered, read);
  }

  lemma {:induction false} PositiveSum(s: Q, lens: seq<nat>, p: nat, delivered: seq<Byte>, read: seq<Byte>)
    requires Conserves(s, lens, p, delivered, read) && p <= |lens|
    ensures Sum(lens[p..]) == 0 <==> p == |lens|
  {
  }

  lemma {:induction false} PacketKeepsPidx(s: Q, p: nat, len: nat)
    requires p < |s.fl| == |s.desc|
    ensures TakePacket(s, p, len).s.pidx == s.pidx
    decreases len
  {
    if len > 0 {
      var k := Min(len, PAGE_SIZE);
      PacketKeepsPidx(TakePage(s, p, k), Inc(p, |s.fl|), len - k);
    }
  }

  lemma {:induction false} EntriesKeepPidx(s: Q, wrb: seq<Entry>, p: nat, budget: nat)
    requires p < |s.fl| == |s.desc| && s.cidxWrb < |wrb|
    ensures TakeEntries(s, wrb, p, budget).s.pidx == s.pidx
    decreases budget
  {
    if budget > 0 && !wrb[s.cidxWrb].err {
      PacketKeepsPidx(s, p, wrb[s.cidxWrb].len);
      var o := TakePacket(s, p, wrb[s.cidxWrb].len);
      EntriesKeepPidx(o.s.(cidxWrb := Inc(s.cidxWrb, |wrb|)), wrb, o.p, budget - 1);
    }
  }

  lemma {:induction false} BadPut(wrb: seq<Entry>, packets: seq<nat>, taken: nat, len: nat)
    requires |wrb| > 0 && taken <= |packets| && |packets| + 1 < taken + |wrb|
    requires Holds(wrb, taken, |packets|, Entries(packets))
    ensures Holds(wrb[Slot(|packets|, |wrb|) := Entry(len, true)], taken, |packets|, Entries(packets))
  {
    hide Slot;
    var n, h := |wrb|, |packets|;
    forall j | taken <= j < h ensures wrb[Slot(h, n) := Entry(len, true)][Slot(j, n)] == Entries(packets)[j] {
      SlotDist(j, h - j, n);
    }
  }

  /** In every state reached without errors: when the hardware posts an entry in error and reports it, the service call
      stops at that entry, and its producer index is where the hardware stands if and only if the packets before the
      entry in the batch were all empty. */
  lemma {:induction false} ErrorReached(w: World, len: nat, w1: World, w2: World, w3: World)
    requires Inv(w) && Next(w, DeliverBad(len), w1) && Next(w1, Report, w2) && Next(w2, ServiceWb, w3)
    ensures w3.s.cidxWrb == w.hwWrb && w.taken <= |w.packets|
    ensures w3.s.pidx == w.hwDesc <==> Sum(w.packets[w.taken..]) == 0
  {
    hide Conserves, Holds, Lens, Slot, MemFor, Backed, Unread, Waiting, TakeEntries;
    InvInBounds(w);
    Room(w, 0);
    var n, h := |w.s.fl|, |w.packets|;
    BadPut(w.wrb, w.packets, w.taken, len);
    SlotStep(h, n);
    SlotDist(w.taken, h + 1 - w.taken, n);
    ErrorEntryExact(w.s, w1.wrb, w.packets, w.taken, w2.wbPidx, w.delivered, w.read);
  }

  /** One packet, then an entry in error: the packet is queued and the producer index still says that nothing was taken. */
  lemma {:induction false} ErrorRun(rngsz: nat, b: Byte) returns (ws: seq<World>, steps: seq<Step>)
    requires rngsz >= 3
    ensures Trace(rngsz, ws, steps) && steps == [Deliver([b]), DeliverBad(0), Report, ServiceWb]
    ensures ws[4].s.cidxWrb == 1 && ws[4].hwDesc == 1 && ws[4].s.pidx != 1
  {
    hide Conserves, Holds, MemFor, Backed, Unread, Waiting, Dma, BlankPages, Service, TakeEntries;
    var w0 := Start(rngsz);
    StartInv(rngsz);
    InvInBounds(w0);
    assert PageLens(1) == [1] + PageLens(0);
    var w1 := w0.(s := Dma(w0.s, 0, [b]), hwDesc := 1, wrb := w0.wrb[0 := Entry(1, false)], hwWrb := 1,
                  packets := [1], delivered := [b]);
    assert Next(w0, Deliver([b]), w1);
    DeliverInv(w0, [b], w1);
    InvInBounds(w1);
    var w2 := w1.(wrb := w1.wrb[1 := Entry(0, true)], hwWrb := 2);
    assert Next(w1, DeliverBad(0), w2);
    var w3 := w2.(wbPidx := 2, reported := 1);
    var s', budget := Service(w3.s, w3.wrb, 2), Budget(2, w3.s.cidxWrb, rngsz);
    var w4 := w3.(s := s', taken := Dist(w3.s.cidxWrb, s'.cidxWrb, rngsz),
                  doorbell := if budget == 0 || !TakeEntries(w3.s, w3.wrb, w3.s.pidx, budget).ok then w3.doorbell
                              else if s'.pidx > 0 then s'.pidx - 1 else rngsz - 1);
    assert Next(w2, Report, w3) && Next(w3, ServiceWb, w4);
    ErrorReached(w1, 0, w2, w3, w4);
    assert w1.packets[0..] == [1] && [1][..0] == [];
    ws, steps := [w0, w1, w2, w3, w4], [Deliver([b]), DeliverBad(0), Report, ServiceWb];
  }
}
