/** Every run of a receiving queue: the hardware fills posted pages and reports packets, the service routine
    turns them into fragments, readers drain them. No byte is lost, repeated or reordered, and no page is
    in two places. */
module C2hRun {
  import opened Common
  import opened SgList
  import opened Ring
  import opened Rx
  import opened C2h

  // ---------------------------------------------------------------------------
  // Pages of packets
  // ---------------------------------------------------------------------------

  /** How many bytes of a packet land in each of its pages. */
  function PageLens(len: nat): seq<nat>
    decreases len
  {
    if len == 0 then [] else [Min(len, PAGE_SIZE)] + PageLens(len - Min(len, PAGE_SIZE))
  }

  /** The driver's page count, and the fills add up to the packet. */
  lemma {:induction false} PageLensExact(len: nat)
    ensures |PageLens(len)| == (len + PAGE_SIZE - 1) / PAGE_SIZE
    ensures Sum(PageLens(len)) == len
    ensures forall i :: 0 <= i < |PageLens(len)| ==> 0 < PageLens(len)[i] <= PAGE_SIZE
    decreases len
  {
    if len > 0 {
      var k := Min(len, PAGE_SIZE);
      PageLensExact(len - k);
      SumCons(k, PageLens(len - k));
    }
  }

  lemma {:induction false} SumCons(k: nat, lens: seq<nat>)
    ensures Sum([k] + lens) == k + Sum(lens)
    decreases |lens|
  {
    if lens == [] {
      assert [k] + lens == [k];
      assert [k][..0] == [];
    } else {
      var m := |lens| - 1;
      assert ([k] + lens)[..m + 1] == [k] + lens[..m];
      SumCons(k, lens[..m]);
    }
  }

  lemma {:induction false} SumConcat(a: seq<nat>, b: seq<nat>)
    ensures Sum(a + b) == Sum(a) + Sum(b)
    decreases |b|
  {
    if b == [] {
      assert a + b == a;
    } else {
      assert (a + b)[..|a + b| - 1] == a + b[..|b| - 1];
      SumConcat(a, b[..|b| - 1]);
    }
  }

  /** The fills of all pages of all packets. */
  function Lens(packets: seq<nat>): seq<nat> {
    if packets == [] then [] else Lens(packets[..|packets| - 1]) + PageLens(packets[|packets| - 1])
  }

  lemma {:induction false} LensSnoc(packets: seq<nat>, len: nat)
    ensures Lens(packets + [len]) == Lens(packets) + PageLens(len)
  {
  }

  lemma {:induction false} LensPrefix(packets: seq<nat>, i: nat)
    requires i <= |packets|
    ensures Lens(packets[..i]) <= Lens(packets)
    decreases |packets|
  {
    if i == |packets| {
      assert packets[..i] == packets;
    } else {
      var front := packets[..|packets| - 1];
      LensPrefix(front, i);
      assert front[..i] == packets[..i];
    }
  }

  /** Packet `i` has its own stretch of pages. */
  lemma {:induction false} LensAt(packets: seq<nat>, i: nat)
    requires i < |packets|
    ensures var p := |Lens(packets[..i])|;
            && |Lens(packets[..i + 1])| == p + |PageLens(packets[i])| <= |Lens(packets)|
            && Lens(packets)[p..p + |PageLens(packets[i])|] == PageLens(packets[i])
  {
    assert packets[..i + 1] == packets[..i] + [packets[i]];
    LensSnoc(packets[..i], packets[i]);
    LensPrefix(packets, i + 1);
    var all, upTo, p := Lens(packets), Lens(packets[..i + 1]), |Lens(packets[..i])|;
    assert all[p..|upTo|] == upTo[p..];
  }

  lemma {:induction false} LensSum(packets: seq<nat>)
    ensures Sum(Lens(packets)) == Sum(packets)
  {
    if packets != [] {
      LensSum(packets[..|packets| - 1]);
      PageLensExact(packets[|packets| - 1]);
      SumConcat(Lens(packets[..|packets| - 1]), PageLens(packets[|packets| - 1]));
    }
  }

  // ---------------------------------------------------------------------------
  // The hardware writes pages
  // ---------------------------------------------------------------------------

  ghost function WritePage(s: Q, slot: nat, chunk: seq<Byte>): Q
    requires slot < |s.desc| && s.desc[slot] in s.mem && |chunk| <= |s.mem[s.desc[slot]]|
  {
    var pg := s.desc[slot];
    s.(mem := s.mem[pg := chunk + s.mem[pg][|chunk|..]])
  }

  /** A packet goes into the posted pages from `slot` on. */
  ghost function Dma(s: Q, slot: nat, payload: seq<Byte>): (r: Q)
    requires slot < |s.desc| && MemFor(s)
    ensures r == s.(mem := r.mem) && MemFor(r)
    decreases |payload|
  {
    if payload == [] then s else
      var k := Min(|payload|, PAGE_SIZE);
      Dma(WritePage(s, slot, payload[..k]), Inc(slot, |s.desc|), payload[k..])
  }

  ghost predicate MemFor(s: Q) {
    forall i :: 0 <= i < |s.desc| ==> s.desc[i] in s.mem && |s.mem[s.desc[i]]| == PAGE_SIZE
  }

  lemma {:induction false} ShapeMem(s: Q, lens: seq<nat>, p: nat)
    requires Shape(s, lens, p)
    ensures MemFor(s)
  {
    hide Owned, FragsOk;
    forall i | 0 <= i < |s.desc| ensures s.desc[i] < s.nextPage {
      FlAllocated(s, i);
    }
  }

  lemma {:induction false} WriteShape(s: Q, lens: seq<nat>, p: nat, chunk: seq<Byte>, s': Q)
    requires Shape(s, lens, p) && 0 < |chunk| <= PAGE_SIZE && |lens| + 1 < p + |s.fl| && MemFor(s)
    requires s' == WritePage(s, Slot(|lens|, |s.fl|), chunk)
    ensures Shape(s', lens + [|chunk|], p)
  {
    hide Slot;
    OwnedMem(s, s');
  }

  lemma {:induction false} OwnedMem(s: Q, s': Q)
    requires Owned(s) && s' == s.(mem := s'.mem)
    ensures Owned(s')
  {
    assert Owners(s') == Owners(s);
  }

  lemma {:induction false} WriteStream(s: Q, lens: seq<nat>, p: nat, chunk: seq<Byte>, s': Q)
    requires Shape(s, lens, p) && 0 < |chunk| <= PAGE_SIZE && |lens| + 1 < p + |s.fl| && MemFor(s)
    requires Backed(s.mem, s.rxq) && s' == WritePage(s, Slot(|lens|, |s.fl|), chunk)
    ensures Backed(s'.mem, s'.rxq) && Stream(s'.mem, s'.rxq) == Stream(s.mem, s.rxq)
  {
    hide Owned, FragsOk, Slot, Stream;
    var slot := Slot(|lens|, |s.fl|);
    forall i | 0 <= i < |s.rxq| ensures s.rxq[i].pg in s'.mem && s'.mem[s.rxq[i].pg] == s.mem[s.rxq[i].pg] {
      FragApart(s, i, slot);
      FragAllocated(s, i);
    }
    StreamSame(s.mem, s'.mem, s.rxq);
  }

  lemma {:induction false} WritePending(s: Q, lens: seq<nat>, p: nat, chunk: seq<Byte>, s': Q)
    requires Shape(s, lens, p) && 0 < |chunk| <= PAGE_SIZE && |lens| + 1 < p + |s.fl| && MemFor(s)
    requires Posted(s.mem, s.fl, lens, p) && s' == WritePage(s, Slot(|lens|, |s.fl|), chunk)
    ensures Posted(s'.mem, s'.fl, lens + [|chunk|], p)
    ensures Pending(s'.mem, s'.fl, lens + [|chunk|], p) == Pending(s.mem, s.fl, lens, p) + chunk
  {
    hide Owned, FragsOk, Slot, Pending;
    var n, h := |s.fl|, |lens|;
    forall t | p <= t < h
      ensures s'.fl[Slot(t, n)] == s.fl[Slot(t, n)] && s.fl[Slot(t, n)] in s'.mem
      ensures s'.mem[s.fl[Slot(t, n)]] == s.mem[s.fl[Slot(t, n)]]
    {
      SlotDist(t, h - t, n);
      FlDistinct(s, Slot(t, n), Slot(h, n));
    }
    PendingSame(s.mem, s.fl, s'.mem, s'.fl, lens, p);
    PendingSnoc(s'.mem, s'.fl, lens, p, |chunk|);
    assert s'.mem[s.fl[Slot(h, n)]][..|chunk|] == chunk;
  }

  /** Writing the next posted page disturbs neither queued nor pending bytes. */
  lemma {:induction false} WriteConserves(s: Q, lens: seq<nat>, p: nat, chunk: seq<Byte>, s': Q, delivered: seq<Byte>, read: seq<Byte>)
    requires Conserves(s, lens, p, delivered, read) && 0 < |chunk| <= PAGE_SIZE && |lens| + 1 < p + |s.fl| && MemFor(s)
    requires s.desc == s.fl && s' == WritePage(s, Slot(|lens|, |s.fl|), chunk)
    ensures Conserves(s', lens + [|chunk|], p, delivered + chunk, read)
  {
    hide Shape, Posted, Stream, Slot, Backed, MemFor, Pending;
    assert p <= |lens| by { ShapeFl(s, lens, p); }
    WriteShape(s, lens, p, chunk, s');
    WriteStream(s, lens, p, chunk, s');
    WritePending(s, lens, p, chunk, s');
    var a, c := read + Stream(s.mem, s.rxq), Pending(s.mem, s.fl, lens, p);
    assert (a + c) + chunk == a + (c + chunk);
  }

  lemma {:induction false} DmaConserves(s: Q, lens: seq<nat>, p: nat, payload: seq<Byte>, delivered: seq<Byte>, read: seq<Byte>)
    requires Conserves(s, lens, p, delivered, read) && |s.desc| == |s.fl| > 0 && MemFor(s)
    requires |lens| + |PageLens(|payload|)| < p + |s.fl|
    ensures Conserves(Dma(s, Slot(|lens|, |s.fl|), payload), lens + PageLens(|payload|), p, delivered + payload, read)
    decreases |payload|
  {
    hide Shape, Posted, Stream, Backed, Pending, MemFor;
    if payload == [] {
      assert lens + [] == lens && delivered + [] == delivered;
    } else {
      var k := Min(|payload|, PAGE_SIZE);
      var slot := Slot(|lens|, |s.fl|);
      assert s.desc == s.fl by { ShapeFl(s, lens, p); }
      WriteReady(s, slot, payload[..k]);
      var s' := WritePage(s, slot, payload[..k]);
      WriteConserves(s, lens, p, payload[..k], s', delivered, read);
      assert MemFor(s') by { ShapeMem(s', lens + [k], p); }
      DmaConserves(s', lens + [k], p, payload[k..], delivered + payload[..k], read);
      assert lens + PageLens(|payload|) == (lens + [k]) + PageLens(|payload| - k);
      assert delivered + payload == (delivered + payload[..k]) + payload[k..];
      assert Slot(|lens| + 1, |s.fl|) == Inc(slot, |s.fl|);
    }
  }

  lemma {:induction false} WriteReady(s: Q, slot: nat, chunk: seq<Byte>)
    requires MemFor(s) && slot < |s.desc| && |chunk| <= PAGE_SIZE
    ensures s.desc[slot] in s.mem && |chunk| <= |s.mem[s.desc[slot]]|
  {
  }

  // ---------------------------------------------------------------------------
  // The service routine takes packets
  // ---------------------------------------------------------------------------

  function FragLens(fs: seq<Frag>): (r: seq<nat>)
    ensures |r| == |fs|
  {
    seq(|fs|, i requires 0 <= i < |fs| => fs[i].len)
  }

  lemma {:induction false} FragLensSnoc(fs: seq<Frag>, f: Frag)
    ensures FragLens(fs + [f]) == FragLens(fs) + [f.len]
  {
  }

  lemma {:induction false} TakePacketConserves(s: Q, lens: seq<nat>, p: nat, len: nat, o: Outcome, delivered: seq<Byte>, read: seq<Byte>)
    requires Conserves(s, lens, p, delivered, read) && |s.desc| == |s.fl| > 0
    requires p + |PageLens(len)| <= |lens| && lens[p..p + |PageLens(len)|] == PageLens(len)
    requires o == TakePacket(s, Slot(p, |s.fl|), len)
    ensures o.ok && Conserves(o.s, lens, p + |PageLens(len)|, delivered, read)
    ensures o.p == Slot(p + |PageLens(len)|, |s.fl|)
    ensures FragLens(o.s.rxq) == FragLens(s.rxq) + PageLens(len)
    decreases len
  {
    hide Conserves, FragLens;
    if len == 0 {
      assert FragLens(s.rxq) + [] == FragLens(s.rxq);
    } else {
      var k := Min(len, PAGE_SIZE);
      var rest := PageLens(len - k);
      assert PageLens(len) == [k] + rest;
      assert lens[p..p + 1 + |rest|][0] == k;
      assert lens[p + 1..p + 1 + |rest|] == lens[p..p + 1 + |rest|][1..] == rest;
      var s' := TakePage(s, Slot(p, |s.fl|), k);
      TakePageConserves(s, lens, p, s', delivered, read);
      FragLensSnoc(s.rxq, Frag(s.fl[Slot(p, |s.fl|)], 0, k));
      TakePacketConserves(s', lens, p + 1, len - k, o, delivered, read);
      assert FragLens(s.rxq) + [k] + rest == FragLens(s.rxq) + ([k] + rest);
    }
  }

  ghost function Entries(packets: seq<nat>): (r: seq<Entry>)
    ensures |r| == |packets|
  {
    seq(|packets|, i requires 0 <= i < |packets| => Entry(packets[i], false))
  }

  lemma {:induction false} ConservesFrame(s: Q, s': Q, lens: seq<nat>, p: nat, delivered: seq<Byte>, read: seq<Byte>)
    requires Conserves(s, lens, p, delivered, read)
    requires s' == s.(pidx := s'.pidx, cidxWrb := s'.cidxWrb)
    ensures Conserves(s', lens, p, delivered, read)
  {
    assert Owners(s') == Owners(s);
  }

  /** The entries of packets `i` to `i + budget` are taken in order, each with all its pages. */
  lemma {:induction false} TakeEntriesConserves(s: Q, wrb: seq<Entry>, packets: seq<nat>, i: nat, budget: nat, o: Outcome,
                                                delivered: seq<Byte>, read: seq<Byte>)
    requires |wrb| > 0 && i + budget <= |packets| && s.cidxWrb == Slot(i, |wrb|)
    requires Holds(wrb, i, |packets|, Entries(packets))
    requires |s.desc| == |s.fl| > 0
    requires Conserves(s, Lens(packets), |Lens(packets[..i])|, delivered, read)
    requires o == TakeEntries(s, wrb, Slot(|Lens(packets[..i])|, |s.fl|), budget)
    ensures o.ok && o.s.cidxWrb == Slot(i + budget, |wrb|)
    ensures o.p == Slot(|Lens(packets[..i + budget])|, |s.fl|)
    ensures Conserves(o.s, Lens(packets), |Lens(packets[..i + budget])|, delivered, read)
    ensures FragLens(o.s.rxq) == FragLens(s.rxq) + Lens(packets[i..i + budget])
    decreases budget
  {
    hide Conserves, FragLens, TakePacket, PageLens, Lens;
    if budget == 0 {
      LensNone();
      assert packets[i..i + budget] == [];
      assert FragLens(s.rxq) + [] == FragLens(s.rxq);
    } else {
      var p, len := |Lens(packets[..i])|, packets[i];
      assert wrb[Slot(i, |wrb|)] == Entries(packets)[i] == Entry(len, false);
      LensAt(packets, i);
      var t := TakePacket(s, Slot(p, |s.fl|), len);
      TakePacketConserves(s, Lens(packets), p, len, t, delivered, read);
      var s' := t.s.(cidxWrb := Inc(s.cidxWrb, |wrb|));
      ConservesFrame(t.s, s', Lens(packets), p + |PageLens(len)|, delivered, read);
      TakeEntriesConserves(s', wrb, packets, i + 1, budget - 1, o, delivered, read);
      LensCons(packets, i, i + budget);
      assert FragLens(s.rxq) + PageLens(len) + Lens(packets[i + 1..i + budget])
          == FragLens(s.rxq) + (PageLens(len) + Lens(packets[i + 1..i + budget]));
    }
  }

  lemma {:induction false} LensNone()
    ensures Lens([]) == []
  {
  }

  lemma {:induction false} LensCons(packets: seq<nat>, i: nat, j: nat)
    requires i < j <= |packets|
    ensures Lens(packets[i..j]) == PageLens(packets[i]) + Lens(packets[i + 1..j])
    decreases j
  {
    hide Lens, PageLens;
    if j == i + 1 {
      assert packets[i..j] == [packets[i]] && packets[i + 1..j] == [];
      LensNone();
      LensSnoc([], packets[i]);
      assert [] + [packets[i]] == [packets[i]];
      assert [] + PageLens(packets[i]) == PageLens(packets[i]) == PageLens(packets[i]) + [];
    } else {
      LensCons(packets, i, j - 1);
      assert packets[i..j] == packets[i..j - 1] + [packets[j - 1]];
      assert packets[i + 1..j] == packets[i + 1..j - 1] + [packets[j - 1]];
      LensSnoc(packets[i..j - 1], packets[j - 1]);
      LensSnoc(packets[i + 1..j - 1], packets[j - 1]);
    }
  }

  // ---------------------------------------------------------------------------
  // Runs
  // ---------------------------------------------------------------------------

  /** `hwDesc`, `hwWrb`: the next descriptor and writeback slot of the hardware. `doorbell`: the producer index
      posted to it. `wbPidx`: the writeback index it last reported, after `reported` packets. `packets`: the lengths
      of all packets received, of which the driver has taken `taken`. */
  datatype World = World(
    s: Q, wrb: seq<Entry>, hwDesc: nat, doorbell: nat, hwWrb: nat, wbPidx: nat,
    packets: seq<nat>, taken: nat, reported: nat, delivered: seq<Byte>, read: seq<Byte>)

  /** `DeliverBad`: the hardware posts a writeback entry with the error bit. */
  datatype Step = Deliver(payload: seq<Byte>) | DeliverBad(len: nat) | Report | ServiceWb | ReadInto(lens: seq<nat>)

  ghost predicate InBounds(w: World) {
    && |w.s.desc| == |w.s.fl| == |w.wrb|
    && w.s.pidx < |w.s.fl| && w.s.cidxWrb < |w.s.fl|
    && w.hwDesc < |w.s.fl| && w.doorbell < |w.s.fl| && w.hwWrb < |w.s.fl| && w.wbPidx < |w.s.fl|
    && MemFor(w.s) && Unread(w.s.rxq) && w.s.dlen == Waiting(w.s.rxq) && Backed(w.s.mem, w.s.rxq)
  }

  /** The hardware receives a packet when enough descriptors are posted and a writeback slot is free. */
  ghost predicate CanDeliver(w: World, payload: seq<Byte>)
    requires InBounds(w)
  {
    |PageLens(|payload|)| <= Dist(w.hwDesc, w.doorbell, |w.s.fl|) && HasSlot(w)
  }

  ghost predicate HasSlot(w: World) {
    Inc(w.hwWrb, |w.wrb|) != w.s.cidxWrb
  }

  ghost predicate Next(w: World, step: Step, w': World) {
    InBounds(w) &&
    var n := |w.s.fl|;
    match step
    case Deliver(payload) =>
      && CanDeliver(w, payload)
      && w' == w.(s := Dma(w.s, w.hwDesc, payload),
                  hwDesc := Advance(w.hwDesc, n, |PageLens(|payload|)|),
                  wrb := w.wrb[w.hwWrb := Entry(|payload|, false)], hwWrb := Inc(w.hwWrb, n),
                  packets := w.packets + [|payload|], delivered := w.delivered + payload)
    case DeliverBad(len) =>
      HasSlot(w) && w' == w.(wrb := w.wrb[w.hwWrb := Entry(len, true)], hwWrb := Inc(w.hwWrb, n))
    case Report => w' == w.(wbPidx := w.hwWrb, reported := |w.packets|)
    case ServiceWb =>
      var s', budget := Service(w.s, w.wrb, w.wbPidx), Budget(w.wbPidx, w.s.cidxWrb, n);
      w' == w.(s := s', taken := w.taken + Dist(w.s.cidxWrb, s'.cidxWrb, n),
               doorbell := if budget == 0 || !TakeEntries(w.s, w.wrb, w.s.pidx, budget).ok then w.doorbell
                           else if s'.pidx > 0 then s'.pidx - 1 else n - 1)
    case ReadInto(lens) =>
      var k := Min(Sum(lens), w.s.dlen);
      && k <= |Stream(w.s.mem, w.s.rxq)|
      && w' == w.(s := ReadBytes(w.s, k), read := w.read + Stream(w.s.mem, w.s.rxq)[..k])
  }

  function BlankPages(n: nat): (m: Memory)
    ensures forall pg: Page :: pg < n ==> pg in m && |m[pg]| == PAGE_SIZE
  {
    if n == 0 then map[] else BlankPages(n - 1)[n - 1 := Blank()]
  }

  /** A freshly filled freelist: page `i` in slot `i`. */
  ghost function Start(rngsz: nat): World
    requires rngsz > 0
  {
    var fl := seq(rngsz, i requires 0 <= i => i);
    World(Q(fl, fl, 0, 0, [], 0, BlankPages(rngsz), rngsz, []),
          seq(rngsz, _ => Entry(0, false)), 0, rngsz - 1, 0, 0, [], 0, 0, [], [])
  }

  ghost predicate Trace(rngsz: nat, ws: seq<World>, steps: seq<Step>)
    requires rngsz > 0
  {
    && |ws| == |steps| + 1
    && ws[0] == Start(rngsz)
    && forall i :: 0 <= i < |steps| ==> Next(ws[i], steps[i], ws[i + 1])
  }

  /** No entry has the error bit. */
  ghost predicate NoBad(steps: seq<Step>) {
    forall i :: 0 <= i < |steps| ==> !steps[i].DeliverBad?
  }

  ghost function Position(w: World): nat
    requires w.taken <= |w.packets|
  {
    |Lens(w.packets[..w.taken])|
  }

  ghost predicate Indices(w: World)
    requires w.taken <= |w.packets| && |w.s.fl| > 0
  {
    var n, p := |w.s.fl|, Position(w);
    && w.s.pidx == Slot(p, n) && w.doorbell == Slot(p + n - 1, n) && w.hwDesc == Slot(|Lens(w.packets)|, n)
    && w.s.cidxWrb == Slot(w.taken, n) && w.hwWrb == Slot(|w.packets|, n) && w.wbPidx == Slot(w.reported, n)
  }

  ghost predicate Inv(w: World) {
    && |w.wrb| == |w.s.fl| == |w.s.desc| > 0
    && w.taken <= w.reported <= |w.packets| < w.taken + |w.s.fl|
    && Conserves(w.s, Lens(w.packets), Position(w), w.delivered, w.read)
    && Indices(w)
    && Holds(w.wrb, w.taken, |w.packets|, Entries(w.packets))
  }

  lemma {:induction false} OnceEach(fl: seq<Page>, pg: Page)
    requires forall i :: 0 <= i < |fl| ==> fl[i] == i
    ensures multiset(fl)[pg] == if pg < |fl| then 1 else 0
    decreases |fl|
  {
    if fl != [] {
      var m := |fl| - 1;
      OnceEach(fl[..m], pg);
      assert fl == fl[..m] + [m];
    }
  }

  lemma {:induction false} StartConserves(rngsz: nat)
    requires rngsz > 0
    ensures Conserves(Start(rngsz).s, [], 0, [], [])
  {
    hide Blank;
    var s := Start(rngsz).s;
    forall pg: Page ensures Owners(s)[pg] == if pg < s.nextPage then 1 else 0 {
      OnceEach(s.fl, pg);
      PagesNone();
    }
    assert Stream(s.mem, []) == [];
  }

  lemma {:induction false} StartInv(rngsz: nat)
    requires rngsz > 0
    ensures Inv(Start(rngsz))
  {
    hide Conserves;
    StartConserves(rngsz);
    var w := Start(rngsz);
    assert w.packets[..0] == [] && Lens([]) == [];
    SlotAdvance(0, rngsz - 1, rngsz);
  }

  lemma {:induction false} InvInBounds(w: World)
    requires Inv(w)
    ensures InBounds(w)
  {
    ConservesBounds(w.s, Lens(w.packets), Position(w), w.delivered, w.read);
  }

  lemma {:induction false} ConservesBounds(s: Q, lens: seq<nat>, p: nat, delivered: seq<Byte>, read: seq<Byte>)
    requires Conserves(s, lens, p, delivered, read)
    ensures MemFor(s) && Unread(s.rxq) && s.dlen == Waiting(s.rxq) && Backed(s.mem, s.rxq)
    ensures p <= |lens| < p + |s.fl| && |s.desc| == |s.fl|
  {
    hide Owned, MemOk;
    ShapeMem(s, lens, p);
  }

  // --- Deliver ---

  lemma {:induction false} EntriesPut(wrb: seq<Entry>, packets: seq<nat>, taken: nat, len: nat)
    requires |wrb| > 0 && taken <= |packets| && |packets| + 1 < taken + |wrb|
    requires Holds(wrb, taken, |packets|, Entries(packets))
    ensures Holds(wrb[Slot(|packets|, |wrb|) := Entry(len, false)], taken, |packets| + 1, Entries(packets + [len]))
  {
    hide Slot;
    var n, h := |wrb|, |packets|;
    var wrb' := wrb[Slot(h, n) := Entry(len, false)];
    forall j | taken <= j < h + 1 ensures wrb'[Slot(j, n)] == Entries(packets + [len])[j] {
      if j < h {
        SlotDist(j, h - j, n);
        assert wrb[Slot(j, n)] == Entries(packets)[j];
      }
    }
  }

  /** Free descriptors and free writeback slots, read off the wrapped indices, are what they should be. */
  lemma {:induction false} Room(w: World, k: nat)
    requires Inv(w) && InBounds(w)
    ensures k <= Dist(w.hwDesc, w.doorbell, |w.s.fl|) <==> |Lens(w.packets)| + k < Position(w) + |w.s.fl|
    ensures Inc(w.hwWrb, |w.wrb|) != w.s.cidxWrb <==> |w.packets| + 1 < w.taken + |w.wrb|
  {
    hide Slot, Holds, Lens;
    ConservesBounds(w.s, Lens(w.packets), Position(w), w.delivered, w.read);
    hide Conserves;
    var n, p, h := |w.s.fl|, Position(w), |Lens(w.packets)|;
    SlotDist(h, p + n - 1 - h, n);
    SlotDist(w.taken, |w.packets| - w.taken, n);
  }

  lemma {:induction false} DeliverInv(w: World, payload: seq<Byte>, w': World)
    requires Inv(w) && Next(w, Deliver(payload), w')
    ensures Inv(w')
  {
    hide Conserves, Holds, PageLens, Lens, MemFor, Slot, Backed;
    var n, k := |w.s.fl|, |PageLens(|payload|)|;
    Room(w, k);
    LensSnoc(w.packets, |payload|);
    assert w'.packets[..w.taken] == w.packets[..w.taken];
    DmaConserves(w.s, Lens(w.packets), Position(w), payload, w.delivered, w.read);
    SlotAdvance(|Lens(w.packets)|, k, n);
    SlotStep(|w.packets|, n);
    EntriesPut(w.wrb, w.packets, w.taken, |payload|);
  }

  lemma {:induction false} SlotStep(j: nat, n: nat)
    requires n > 0
    ensures Slot(j + 1, n) == Inc(Slot(j, n), n)
  {
  }

  // --- Service ---

  lemma {:induction false} BudgetExact(w: World)
    requires Inv(w) && InBounds(w)
    ensures Budget(w.wbPidx, w.s.cidxWrb, |w.s.fl|) == w.reported - w.taken
  {
    hide Conserves, Holds, Lens, Slot;
    SlotDist(w.taken, w.reported - w.taken, |w.s.fl|);
  }

  /** One service call takes every reported packet and nothing else. */
  lemma {:induction false} ServiceInv(w: World, w': World)
    requires Inv(w) && Next(w, ServiceWb, w')
    ensures Inv(w') && w'.taken == w.reported && w'.s.cidxWrb == w.wbPidx
    ensures w.taken <= w.reported <= |w.packets|
    ensures FragLens(w'.s.rxq) == FragLens(w.s.rxq) + Lens(w.packets[w.taken..w.reported])
  {
    hide Conserves, Holds, Lens, Slot, FragLens, MemFor, Backed, TakeEntries;
    BudgetExact(w);
    var n, budget := |w.s.fl|, w.reported - w.taken;
    var o := TakeEntries(w.s, w.wrb, w.s.pidx, budget);
    TakeEntriesConserves(w.s, w.wrb, w.packets, w.taken, budget, o, w.delivered, w.read);
    SlotDist(w.taken, budget, n);
    var p := |Lens(w.packets[..w.reported])|;
    ConservesFrame(o.s, w'.s, Lens(w.packets), p, w.delivered, w.read);
    SlotAdvance(p, n - 1, n);
    assert w'.packets[..w'.taken] == w.packets[..w.reported];
    NarrowEntries(w.wrb, w.taken, w.reported, w.packets);
  }

  lemma {:induction false} NarrowEntries(wrb: seq<Entry>, lo: nat, lo': nat, packets: seq<nat>)
    requires |wrb| > 0 && Holds(wrb, lo, |packets|, Entries(packets)) && lo <= lo'
    ensures Holds(wrb, lo', |packets|, Entries(packets))
  {
  }

  // --- Read ---

  lemma {:induction false} ReadConserves(s: Q, lens: seq<nat>, p: nat, k: nat, delivered: seq<Byte>, read: seq<Byte>)
    requires Conserves(s, lens, p, delivered, read) && Unread(s.rxq) && k <= s.dlen && Backed(s.mem, s.rxq)
    requires k <= |Stream(s.mem, s.rxq)|
    ensures Conserves(ReadBytes(s, k), lens, p, delivered, read + Stream(s.mem, s.rxq)[..k])
  {
    hide Shape, Drop, Freed, Stream, Pending, Posted, Backed, Unread, Waiting;
    var s' := ReadBytes(s, k);
    assert Shape(s', lens, p) && k <= Waiting(s.rxq) by { ReadShape(s, lens, p, k); }
    DropStream(s.mem, s.rxq, k);
    ShapeFl(s, lens, p);
    var all, rest := Stream(s.mem, s.rxq), Pending(s.mem, s.fl, lens, p);
    assert all == all[..k] + all[k..];
    assert read + (all[..k] + all[k..]) + rest == (read + all[..k]) + all[k..] + rest;
  }

  lemma {:induction false} ReadShape(s: Q, lens: seq<nat>, p: nat, k: nat)
    requires Shape(s, lens, p) && Unread(s.rxq) && k <= s.dlen
    ensures Shape(ReadBytes(s, k), lens, p) && k <= Waiting(s.rxq)
  {
    hide Owned, Drop, Freed, Waiting;
    ReadOwned(s, k);
    DropLens(s.rxq, k);
  }

  lemma {:induction false} DropLens(fs: seq<Frag>, n: nat)
    requires Unread(fs) && (forall i :: 0 <= i < |fs| ==> fs[i].len <= PAGE_SIZE) && n <= Waiting(fs)
    ensures Unread(Drop(fs, n)) && Waiting(Drop(fs, n)) == Waiting(fs) - n
    ensures forall i :: 0 <= i < |Drop(fs, n)| ==> Drop(fs, n)[i].len <= PAGE_SIZE
    decreases |fs|
  {
    if fs != [] && n > 0 {
      var r := fs[0].len - fs[0].off;
      if n >= r {
        DropLens(fs[1..], n - r);
      } else {
        assert Drop(fs, n)[1..] == fs[1..];
      }
    }
  }

  lemma {:induction false} ReadInv(w: World, lens: seq<nat>, w': World)
    requires Inv(w) && Next(w, ReadInto(lens), w')
    ensures Inv(w')
  {
    hide Conserves, Holds, Lens, Slot, MemFor, Sum, Drop, Freed, Stream;
    var k := Min(Sum(lens), w.s.dlen);
    ReadConserves(w.s, Lens(w.packets), Position(w), k, w.delivered, w.read);
  }

  lemma {:induction false} NextInv(w: World, step: Step, w': World)
    requires Inv(w) && Next(w, step, w') && !step.DeliverBad?
    ensures Inv(w') && |w'.s.fl| == |w.s.fl|
  {
    match step
    case Deliver(payload) => DeliverInv(w, payload, w'); SizeKept(w, step, w');
    case Report => ReportInv(w, w');
    case ServiceWb => ServiceInv(w, w'); SizeKept(w, step, w');
    case ReadInto(lens) => ReadInv(w, lens, w'); SizeKept(w, step, w');
  }

  lemma {:induction false} SizeKept(w: World, step: Step, w': World)
    requires Next(w, step, w')
    ensures |w'.s.fl| == |w.s.fl| && (!step.Deliver? ==> w'.packets == w.packets)
  {
  }

  lemma {:induction false} ReportInv(w: World, w': World)
    requires Inv(w) && w' == w.(wbPidx := w.hwWrb, reported := |w.packets|)
    ensures Inv(w')
  {
  }

  lemma {:induction false} TraceInv(rngsz: nat, ws: seq<World>, steps: seq<Step>, i: nat)
    requires rngsz > 0 && Trace(rngsz, ws, steps) && NoBad(steps) && i < |ws|
    ensures Inv(ws[i]) && |ws[i].s.fl| == rngsz
  {
    hide Inv, Next;
    if i == 0 {
      StartInv(rngsz);
    } else {
      TraceInv(rngsz, ws, steps, i - 1);
      assert Next(ws[i - 1], steps[i - 1], ws[i - 1 + 1]);
      NextInv(ws[i - 1], steps[i - 1], ws[i]);
    }
  }

  // ---------------------------------------------------------------------------
  // What holds of every run
  // ---------------------------------------------------------------------------

  lemma {:induction false} PendingLength(mem: Memory, fl: seq<Page>, lens: seq<nat>, p: nat)
    requires |fl| > 0 && p <= |lens| && Posted(mem, fl, lens, p)
    ensures |Pending(mem, fl, lens, p)| == Sum(lens[p..])
    decreases |lens| - p
  {
    if p < |lens| {
      PendingLength(mem, fl, lens, p + 1);
      SumCons(lens[p], lens[p + 1..]);
      assert lens[p..] == [lens[p]] + lens[p + 1..];
    } else {
      assert lens[p..] == [];
    }
  }

  lemma {:induction false} PendingBytes(packets: seq<nat>, taken: nat)
    requires taken <= |packets|
    ensures |Lens(packets[..taken])| <= |Lens(packets)|
    ensures Sum(Lens(packets)[|Lens(packets[..taken])|..]) == Sum(packets[taken..])
  {
    var all, front := Lens(packets), Lens(packets[..taken]);
    LensPrefix(packets, taken);
    assert all == front + all[|front|..];
    SumConcat(front, all[|front|..]);
    LensSum(packets);
    LensSum(packets[..taken]);
    assert packets == packets[..taken] + packets[taken..];
    SumConcat(packets[..taken], packets[taken..]);
  }

  /** In every state of every run: the bytes handed to readers, followed by those queued, are exactly the bytes of the
      packets taken so far, in the order of arrival; the posted pages hold the rest. Every page has one owner. */
  lemma {:induction false} StreamConserved(rngsz: nat, ws: seq<World>, steps: seq<Step>, i: nat)
    requires rngsz > 0 && Trace(rngsz, ws, steps) && NoBad(steps) && i < |ws|
    ensures var w := ws[i];
            && Backed(w.s.mem, w.s.rxq) && w.taken <= |w.packets|
            && w.read + Stream(w.s.mem, w.s.rxq) <= w.delivered
            && |w.delivered| - |w.read + Stream(w.s.mem, w.s.rxq)| == Sum(w.packets[w.taken..])
            && w.s.dlen == |Stream(w.s.mem, w.s.rxq)|
            && Owned(w.s) && |w.s.fl| == rngsz && w.s.desc == w.s.fl
  {
    hide Next, Lens, Slot, Holds, Stream, Pending, Sum;
    TraceInv(rngsz, ws, steps, i);
    var w := ws[i];
    ConservesBounds(w.s, Lens(w.packets), Position(w), w.delivered, w.read);
    WaitingIsLength(w.s.mem, w.s.rxq);
    PendingLength(w.s.mem, w.s.fl, Lens(w.packets), Position(w));
    PendingBytes(w.packets, w.taken);
  }

  /** After a service call nothing reported is left over: the indices agree, each packet of `len` bytes has become
      ceil(len / PAGE_SIZE) fragments adding up to `len`, and readers find all reported bytes. */
  lemma {:induction false} ServiceExact(rngsz: nat, ws: seq<World>, steps: seq<Step>, i: nat)
    requires rngsz > 0 && Trace(rngsz, ws, steps) && NoBad(steps) && i < |steps| && steps[i] == ServiceWb
    ensures var w, w' := ws[i], ws[i + 1];
            && w.taken <= w.reported <= |w.packets|
            && w'.s.cidxWrb == w.wbPidx && w'.taken == w.reported
            && FragLens(w'.s.rxq) == FragLens(w.s.rxq) + Lens(w.packets[w.taken..w.reported])
            && w'.s.pidx == Slot(|Lens(w.packets[..w.reported])|, rngsz)
  {
    hide Conserves, Holds, Lens, FragLens;
    TraceInv(rngsz, ws, steps, i);
    TraceInv(rngsz, ws, steps, i + 1);
    assert Next(ws[i], ServiceWb, ws[i + 1]);
    ServiceInv(ws[i], ws[i + 1]);
    assert ws[i + 1].packets == ws[i].packets by { SizeKept(ws[i], ServiceWb, ws[i + 1]); }
  }
}
