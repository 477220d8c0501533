/** The card-to-host side of a streaming queue as a value: free pages posted to the hardware, the
    writeback entries it leaves, and the service routine that turns them into receive fragments. */
module C2h {
  import opened SgList
  import opened Ring
  import opened Rx

  datatype Entry = Entry(len: nat, err: bool)

  /** `fl`: the page in each freelist slot. `desc`: the page whose bus address each descriptor holds.
      Pages below `nextPage` have been allocated; `freed` lists those given back. */
  datatype Q = Q(
    fl: seq<Page>, desc: seq<Page>, pidx: nat, cidxWrb: nat, rxq: seq<Frag>, dlen: nat,
    mem: Memory, nextPage: Page, freed: seq<Page>)

  /** A newly allocated page; its contents do not matter. */
  function Blank(): (b: seq<Byte>)
    ensures |b| == PAGE_SIZE
  {
    seq(PAGE_SIZE, _ => 0)
  }

  /** A received page goes to the reader and its slot gets a new page. */
  function TakePage(s: Q, p: nat, len: nat): Q
    requires p < |s.fl| == |s.desc|
  {
    Q(s.fl[p := s.nextPage], s.desc[p := s.nextPage], s.pidx, s.cidxWrb,
      s.rxq + [Frag(s.fl[p], 0, len)], s.dlen + len,
      s.mem[s.nextPage := Blank()], s.nextPage + 1, s.freed)
  }

  /** `p`: the producer index reached. `ok` is false when an entry with the error bit ended the loop. */
  datatype Outcome = Outcome(s: Q, p: nat, ok: bool)

  /** A packet of `len` bytes, page by page. */
  function TakePacket(s: Q, p: nat, len: nat): (r: Outcome)
    requires p < |s.fl| == |s.desc|
    ensures r.p < |r.s.fl| == |r.s.desc| == |s.fl| && r.s.cidxWrb == s.cidxWrb
    decreases len
  {
    if len == 0 then Outcome(s, p, true) else
      var k := Min(len, PAGE_SIZE);
      TakePacket(TakePage(s, p, k), Inc(p, |s.fl|), len - k)
  }

  function TakeEntries(s: Q, wrb: seq<Entry>, p: nat, budget: nat): (r: Outcome)
    requires p < |s.fl| == |s.desc| && s.cidxWrb < |wrb|
    ensures r.p < |r.s.fl| == |r.s.desc| == |s.fl| && r.s.cidxWrb < |wrb|
    decreases budget
  {
    if budget == 0 then Outcome(s, p, true)
    else if wrb[s.cidxWrb].err then Outcome(s, p, false)
    else
      var o := TakePacket(s, p, wrb[s.cidxWrb].len);
      TakeEntries(o.s.(cidxWrb := Inc(s.cidxWrb, |wrb|)), wrb, o.p, budget - 1)
  }

  /** The number of new entries, computed with the size of the descriptor ring. */
  function Budget(pidxWrb: nat, cidxWrb: nat, rngsz: nat): nat
    requires cidxWrb < rngsz
  {
    if pidxWrb > cidxWrb then pidxWrb - cidxWrb
    else if pidxWrb < cidxWrb then pidxWrb + (rngsz - cidxWrb)
    else 0
  }

  /** `descq_st_c2h_wb`: on an error the new producer index is not stored. */
  function Service(s: Q, wrb: seq<Entry>, pidxWrb: nat): (r: Q)
    requires s.pidx < |s.fl| == |s.desc| && s.cidxWrb < |wrb| && s.cidxWrb < |s.fl|
    ensures |r.fl| == |r.desc| == |s.fl| && r.cidxWrb < |wrb|
  {
    var o := TakeEntries(s, wrb, s.pidx, Budget(pidxWrb, s.cidxWrb, |s.fl|));
    if o.ok then o.s.(pidx := o.p) else o.s
  }

  function ReadBytes(s: Q, n: nat): Q
    requires Unread(s.rxq) && n <= s.dlen
  {
    s.(rxq := Drop(s.rxq, n), dlen := s.dlen - n, freed := s.freed + Freed(s.rxq, n))
  }

  /** `qdma_descq_free_resource`: the freelist, and the receive queue when its byte count is not zero. */
  function Teardown(s: Q): seq<Page> {
    s.freed + s.fl + (if s.dlen == 0 then [] else Pages(s.rxq))
  }

  // ---------------------------------------------------------------------------
  // Page ownership
  // ---------------------------------------------------------------------------

  ghost function Owners(s: Q): multiset<Page> {
    multiset(s.freed) + multiset(s.fl) + multiset(Pages(s.rxq))
  }

  /** Every allocated page is in exactly one place: a freelist slot, a fragment, or given back. */
  ghost predicate Owned(s: Q) {
    forall pg: Page :: Owners(s)[pg] == if pg < s.nextPage then 1 else 0
  }

  ghost predicate MemOk(s: Q) {
    forall pg: Page :: pg < s.nextPage ==> pg in s.mem && |s.mem[pg]| == PAGE_SIZE
  }

  ghost predicate FragsOk(s: Q) {
    && Unread(s.rxq) && s.dlen == Waiting(s.rxq)
    && forall i :: 0 <= i < |s.rxq| ==> s.rxq[i].len <= PAGE_SIZE
  }

  lemma {:induction false} Twice<T>(s: seq<T>, i: nat, j: nat)
    requires i < j < |s| && s[i] == s[j]
    ensures multiset(s)[s[i]] >= 2
  {
    assert s == s[..j] + s[j..];
    assert s[i] == s[..j][i] && s[j] == s[j..][0];
    assert s[i] in s[..j] && s[i] in s[j..];
  }

  lemma {:induction false} FlDistinct(s: Q, i: nat, j: nat)
    requires Owned(s) && i < |s.fl| && j < |s.fl| && i != j
    ensures s.fl[i] != s.fl[j]
  {
    assert Owners(s)[s.fl[i]] <= 1;
    if s.fl[i] == s.fl[j] {
      if i < j { Twice(s.fl, i, j); } else { Twice(s.fl, j, i); }
    }
  }

  lemma {:induction false} FlAllocated(s: Q, i: nat)
    requires Owned(s) && i < |s.fl|
    ensures s.fl[i] < s.nextPage
  {
    assert s.fl[i] in multiset(s.fl);
    assert Owners(s)[s.fl[i]] >= 1;
  }

  lemma {:induction false} FragApart(s: Q, i: nat, j: nat)
    requires Owned(s) && i < |s.rxq| && j < |s.fl|
    ensures s.rxq[i].pg != s.fl[j] && s.rxq[i].pg < s.nextPage
  {
    assert Pages(s.rxq)[i] == s.rxq[i].pg;
    assert s.rxq[i].pg in multiset(Pages(s.rxq));
    assert s.fl[j] in multiset(s.fl);
    assert 1 <= Owners(s)[s.rxq[i].pg];
  }

  lemma {:induction false} FragAllocated(s: Q, i: nat)
    requires Owned(s) && i < |s.rxq|
    ensures s.rxq[i].pg < s.nextPage
  {
    assert Pages(s.rxq)[i] == s.rxq[i].pg;
    assert s.rxq[i].pg in multiset(Pages(s.rxq));
    assert Owners(s)[s.rxq[i].pg] >= 1;
  }

  lemma {:induction false} TakePageOwned(s: Q, p: nat, len: nat)
    requires p < |s.fl| == |s.desc| && Owned(s)
    ensures Owned(TakePage(s, p, len))
  {
    var s' := TakePage(s, p, len);
    PagesSnoc(s.rxq, Frag(s.fl[p], 0, len));
    assert multiset(Pages(s'.rxq)) == multiset(Pages(s.rxq)) + multiset{s.fl[p]};
    assert multiset(s'.fl) == multiset(s.fl) - multiset{s.fl[p]} + multiset{s.nextPage};
    assert s.fl[p] in multiset(s.fl);
    assert Owners(s') == Owners(s) + multiset{s.nextPage};
    forall pg: Page ensures Owners(s')[pg] == if pg < s'.nextPage then 1 else 0 {
      assert Owners(s)[pg] == if pg < s.nextPage then 1 else 0;
    }
  }

  lemma {:induction false} ReadOwned(s: Q, n: nat)
    requires Unread(s.rxq) && n <= s.dlen && Owned(s)
    ensures Owned(ReadBytes(s, n))
  {
    var s' := ReadBytes(s, n);
    DropPages(s.rxq, n);
    assert Pages(s.rxq) == Freed(s.rxq, n) + Pages(s'.rxq);
    assert multiset(Pages(s.rxq)) == multiset(Freed(s.rxq, n)) + multiset(Pages(s'.rxq));
    assert multiset(s'.freed) == multiset(s.freed) + multiset(Freed(s.rxq, n));
    assert Owners(s') == Owners(s);
  }

  lemma {:induction false} WaitingZero(fs: seq<Frag>)
    requires Unread(fs)
    ensures Waiting(fs) == 0 <==> fs == []
  {
  }

  /** Teardown gives every page back exactly once. */
  lemma {:induction false} TeardownFreesAll(s: Q)
    requires Owned(s) && FragsOk(s)
    ensures forall pg: Page :: multiset(Teardown(s))[pg] == if pg < s.nextPage then 1 else 0
  {
    WaitingZero(s.rxq);
    assert s.dlen == 0 ==> Pages(s.rxq) == [];
    assert multiset(Teardown(s)) == Owners(s) by {
      assert multiset(s.freed + s.fl) == multiset(s.freed) + multiset(s.fl);
      assert Teardown(s) == (s.freed + s.fl) + Pages(s.rxq);
    }
  }

  // ---------------------------------------------------------------------------
  // The byte stream
  // ---------------------------------------------------------------------------

  ghost predicate Posted(mem: Memory, fl: seq<Page>, lens: seq<nat>, p: nat)
    requires |fl| > 0
  {
    forall t :: p <= t < |lens| ==> fl[Slot(t, |fl|)] in mem && lens[t] <= |mem[fl[Slot(t, |fl|)]]|
  }

  /** The bytes the hardware has put into posted pages from position `p` on and the driver has not yet taken. */
  ghost function Pending(mem: Memory, fl: seq<Page>, lens: seq<nat>, p: nat): seq<Byte>
    requires |fl| > 0 && p <= |lens| && Posted(mem, fl, lens, p)
    decreases |lens| - p
  {
    if p == |lens| then [] else mem[fl[Slot(p, |fl|)]][..lens[p]] + Pending(mem, fl, lens, p + 1)
  }

  lemma {:induction false} PendingSame(mem: Memory, fl: seq<Page>, mem': Memory, fl': seq<Page>, lens: seq<nat>, p: nat)
    requires |fl'| == |fl| > 0 && p <= |lens| && Posted(mem, fl, lens, p)
    requires forall t :: p <= t < |lens| ==>
               fl'[Slot(t, |fl|)] == fl[Slot(t, |fl|)] && fl[Slot(t, |fl|)] in mem' && mem'[fl[Slot(t, |fl|)]] == mem[fl[Slot(t, |fl|)]]
    ensures Posted(mem', fl', lens, p) && Pending(mem', fl', lens, p) == Pending(mem, fl, lens, p)
    decreases |lens| - p
  {
    if p < |lens| {
      PendingSame(mem, fl, mem', fl', lens, p + 1);
    }
  }

  lemma {:induction false} PendingSnoc(mem: Memory, fl: seq<Page>, lens: seq<nat>, p: nat, k: nat)
    requires |fl| > 0 && p <= |lens| && Posted(mem, fl, lens, p)
    requires fl[Slot(|lens|, |fl|)] in mem && k <= |mem[fl[Slot(|lens|, |fl|)]]|
    ensures Posted(mem, fl, lens + [k], p)
    ensures Pending(mem, fl, lens + [k], p) == Pending(mem, fl, lens, p) + mem[fl[Slot(|lens|, |fl|)]][..k]
    decreases |lens| - p
  {
    if p < |lens| {
      PendingSnoc(mem, fl, lens, p + 1, k);
    }
  }

  lemma {:induction false} StreamSame(mem: Memory, mem': Memory, fs: seq<Frag>)
    requires Backed(mem, fs)
    requires forall i :: 0 <= i < |fs| ==> fs[i].pg in mem' && mem'[fs[i].pg] == mem[fs[i].pg]
    ensures Backed(mem', fs) && Stream(mem', fs) == Stream(mem, fs)
  {
    if fs != [] {
      StreamSame(mem, mem', fs[1..]);
    }
  }

  /** `lens`: the fill of every page the hardware has used so far; the driver has taken the first `p`. */
  ghost predicate Shape(s: Q, lens: seq<nat>, p: nat) {
    && |s.fl| > 0 && s.desc == s.fl
    && p <= |lens| < p + |s.fl|
    && (forall t :: p <= t < |lens| ==> 0 < lens[t] <= PAGE_SIZE)
    && Owned(s) && MemOk(s) && FragsOk(s)
  }

  /** All bytes received so far are those read, those queued and those still in posted pages, in that order. */
  ghost predicate Conserves(s: Q, lens: seq<nat>, p: nat, delivered: seq<Byte>, read: seq<Byte>) {
    && Shape(s, lens, p)
    && Backed(s.mem, s.rxq) && Posted(s.mem, s.fl, lens, p)
    && delivered == read + Stream(s.mem, s.rxq) + Pending(s.mem, s.fl, lens, p)
  }

  lemma {:induction false} TakePageShape(s: Q, lens: seq<nat>, p: nat, s': Q)
    requires Shape(s, lens, p) && p < |lens|
    requires s' == TakePage(s, Slot(p, |s.fl|), lens[p])
    ensures Shape(s', lens, p + 1)
  {
    hide Owned, Waiting, Slot, Blank;
    TakePageOwned(s, Slot(p, |s.fl|), lens[p]);
    WaitingTail(s.rxq, Frag(s.fl[Slot(p, |s.fl|)], 0, lens[p]));
  }

  lemma {:induction false} TakePageStream(s: Q, lens: seq<nat>, p: nat, s': Q)
    requires Shape(s, lens, p) && p < |lens| && Backed(s.mem, s.rxq) && Posted(s.mem, s.fl, lens, p)
    requires s' == TakePage(s, Slot(p, |s.fl|), lens[p])
    ensures Backed(s'.mem, s'.rxq)
    ensures Stream(s'.mem, s'.rxq) == Stream(s.mem, s.rxq) + s.mem[s.fl[Slot(p, |s.fl|)]][..lens[p]]
  {
    hide Owned, FragsOk, Stream, Slot;
    var slot := Slot(p, |s.fl|);
    var f := Frag(s.fl[slot], 0, lens[p]);
    forall i | 0 <= i < |s.rxq| ensures s.rxq[i].pg in s'.mem && s'.mem[s.rxq[i].pg] == s.mem[s.rxq[i].pg] {
      FragAllocated(s, i);
    }
    StreamSame(s.mem, s'.mem, s.rxq);
    FlAllocated(s, slot);
    StreamTail(s'.mem, s.rxq, f);
    assert s'.mem[f.pg][0..lens[p]] == s.mem[s.fl[slot]][..lens[p]];
  }

  lemma {:induction false} TakePagePending(s: Q, lens: seq<nat>, p: nat, s': Q)
    requires Shape(s, lens, p) && p < |lens| && Posted(s.mem, s.fl, lens, p)
    requires s' == TakePage(s, Slot(p, |s.fl|), lens[p])
    ensures Posted(s'.mem, s'.fl, lens, p + 1) && Posted(s.mem, s.fl, lens, p + 1)
    ensures Pending(s'.mem, s'.fl, lens, p + 1) == Pending(s.mem, s.fl, lens, p + 1)
  {
    hide Owned, FragsOk, Slot, Pending;
    var n := |s.fl|;
    forall t | p + 1 <= t < |lens|
      ensures s'.fl[Slot(t, n)] == s.fl[Slot(t, n)] && s.fl[Slot(t, n)] in s'.mem
      ensures s'.mem[s.fl[Slot(t, n)]] == s.mem[s.fl[Slot(t, n)]]
    {
      SlotDist(p, t - p, n);
      FlAllocated(s, Slot(t, n));
    }
    PendingSame(s.mem, s.fl, s'.mem, s'.fl, lens, p + 1);
  }

  /** Taking the next page moves its bytes from the posted pages to the end of the queue. */
  lemma {:induction false} TakePageConserves(s: Q, lens: seq<nat>, p: nat, s': Q, delivered: seq<Byte>, read: seq<Byte>)
    requires Conserves(s, lens, p, delivered, read) && p < |lens|
    requires s' == TakePage(s, Slot(p, |s.fl|), lens[p])
    ensures Conserves(s', lens, p + 1, delivered, read)
  {
    hide Shape, Posted, Stream, Slot, TakePage, Backed;
    assert |s.fl| > 0 by { ShapeFl(s, lens, p); }
    TakePageShape(s, lens, p, s');
    TakePageStream(s, lens, p, s');
    TakePagePending(s, lens, p, s');
    var a, c := Stream(s.mem, s.rxq), Pending(s.mem, s.fl, lens, p + 1);
    PendingHead(s.mem, s.fl, lens, p);
    var b := s.mem[s.fl[Slot(p, |s.fl|)]][..lens[p]];
    assert read + a + (b + c) == read + (a + b) + c;
  }

  lemma {:induction false} ShapeFl(s: Q, lens: seq<nat>, p: nat)
    requires Shape(s, lens, p)
    ensures |s.fl| > 0 && s.desc == s.fl && p <= |lens| < p + |s.fl|
  {
  }

  lemma {:induction false} PendingHead(mem: Memory, fl: seq<Page>, lens: seq<nat>, p: nat)
    requires |fl| > 0 && p < |lens| && Posted(mem, fl, lens, p)
    ensures Posted(mem, fl, lens, p + 1) && fl[Slot(p, |fl|)] in mem && lens[p] <= |mem[fl[Slot(p, |fl|)]]|
    ensures Pending(mem, fl, lens, p) == mem[fl[Slot(p, |fl|)]][..lens[p]] + Pending(mem, fl, lens, p + 1)
  {
  }
}
