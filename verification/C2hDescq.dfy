/** The receiving queue as the driver keeps it: freelist and descriptor arrays refilled in place, and the
    receive queue. Also the freelist with allocation failures, and the completion of waiting readers. */
module C2hDescq {
  import opened Common
  import opened SgList
  import opened Ring
  import opened Rx
  import opened C2h
  import opened C2hRun

  function PagesOf(len: nat): nat {
    (len + PAGE_SIZE - 1) / PAGE_SIZE
  }

  class RxRing {
    const fl: array<Page>
    const desc: array<Page>
    const rx: RxQueue
    const entryLen: nat
    var pidx: nat
    var cidxWrb: nat
    var wrbCur: nat
    var mem: Memory
    var nextPage: Page

    ghost predicate Valid()
      reads this, fl, desc, rx, rx.repr
    {
      && fl != desc && fl.Length == desc.Length
      && pidx < fl.Length && cidxWrb < fl.Length && rx.Valid()
      && wrbCur == cidxWrb * entryLen
    }

    ghost function Value(): Q
      reads this, fl, desc, rx
    {
      Q(fl[..], desc[..], pidx, cidxWrb, rx.frags, rx.dlen, mem, nextPage, rx.freed)
    }

    /** Buffers as `qdma_descq_alloc_resource` leaves them: the filled freelist, and its addresses in the descriptors. */
    constructor (rngsz: nat, entryLen: nat)
      requires rngsz > 0
      ensures Valid() && fresh(fl) && fresh(desc) && fresh(rx) && rx.repr == {} && Value() == Start(rngsz).s
    {
      hide RxQueue.Chained, Waiting, Unread, BlankPages;
      var list := new Freelist(rngsz, 0);
      var rv := list.Fill(rngsz);
      fl, desc := new Page[rngsz], new Page[rngsz];
      rx := new RxQueue();
      this.entryLen := entryLen;
      pidx, cidxWrb, wrbCur := 0, 0, 0;
      mem, nextPage := BlankPages(rngsz), list.nextPage;
      new;
      Post(list);
      assert fl[..] == Start(rngsz).s.fl && desc[..] == Start(rngsz).s.desc;
    }

    /** Every page of the freelist is posted. */
    method Post(list: Freelist)
      requires fl != desc && fl.Length == desc.Length == list.slots.Length
      requires forall j :: 0 <= j < list.slots.Length ==> list.slots[j].Some?
      modifies fl, desc
      ensures forall j :: 0 <= j < fl.Length ==> fl[j] == desc[j] == list.slots[j].value
    {
      for i := 0 to fl.Length
        invariant forall j :: 0 <= j < i ==> fl[j] == desc[j] == list.slots[j].value
      {
        fl[i] := list.slots[i].value;
        desc[i] := fl[i];
      }
    }

    /** `fp_rx_handler` and `fl_refill_entry` for one slot. */
    method TakeOne(p: nat, len: nat)
      requires Valid() && p < fl.Length && 0 < len
      modifies this`mem, this`nextPage, fl, desc, rx, rx.repr
      ensures Valid() && fresh(rx.repr - old(rx.repr)) && Value() == TakePage(old(Value()), p, len)
    {
      hide RxQueue.Chained, Waiting, Blank;
      var node := new RxNode(Frag(fl[p], 0, len));
      rx.EnqueueTail(node);
      WaitingTail(old(rx.frags), Frag(old(fl[p]), 0, len));
      fl[p] := nextPage;
      mem := mem[nextPage := Blank()];
      nextPage := nextPage + 1;
      desc[p] := fl[p];
    }

    /** The pages of one writeback entry. */
    method TakePages(p0: nat, len0: nat) returns (p: nat)
      requires Valid() && p0 < fl.Length
      modifies this`mem, this`nextPage, fl, desc, rx, rx.repr
      ensures Valid() && fresh(rx.repr - old(rx.repr))
      ensures var o := TakePacket(old(Value()), p0, len0);
              Value() == o.s && p == o.p
    {
      hide RxQueue.Chained, TakePage, Waiting, Unread;
      var len, flNr := len0, PagesOf(len0);
      p := p0;
      while flNr > 0
        invariant Valid() && fresh(rx.repr - old(rx.repr)) && p < fl.Length && 0 <= len && flNr == PagesOf(len)
        invariant TakePacket(Value(), p, len) == TakePacket(old(Value()), p0, len0)
        decreases len
      {
        var k := Min(len, PAGE_SIZE);
        TakeOne(p, k);
        flNr := flNr - 1;
        len := len - k;
        p := if p + 1 >= fl.Length then 0 else p + 1;
      }
    }

    /** `wrb_next`: the entry address follows the index around the ring. */
    method NextEntry()
      requires Valid()
      modifies this`cidxWrb, this`wrbCur
      ensures Valid() && cidxWrb == Inc(old(cidxWrb), fl.Length)
    {
      wrbCur := wrbCur + entryLen;
      cidxWrb := cidxWrb + 1;
      if cidxWrb == fl.Length {
        cidxWrb := 0;
        wrbCur := 0;
      }
    }

    /** `descq_st_c2h_wb` when the hardware reports writeback index `pidxWrb`. */
    method ServiceWriteback(wrb: seq<Entry>, pidxWrb: nat) returns (rv: int)
      requires Valid() && |wrb| == fl.Length && pidxWrb < fl.Length
      modifies this, fl, desc, rx, rx.repr
      ensures Valid() && Value() == Service(old(Value()), wrb, pidxWrb)
      ensures rv == 0 <==> TakeEntries(old(Value()), wrb, old(pidx), Budget(pidxWrb, old(cidxWrb), fl.Length)).ok
    {
      hide RxQueue.Chained, TakePacket, TakePage, Waiting, Unread;
      var budget := Budget(pidxWrb, cidxWrb, fl.Length);
      ghost var all := TakeEntries(Value(), wrb, pidx, budget);
      var p: nat := pidx;
      while budget > 0
        invariant Valid() && fresh(rx.repr - old(rx.repr)) && p < fl.Length && budget >= 0 && pidx == old(pidx)
        invariant TakeEntries(Value(), wrb, p, budget) == all
        decreases budget
      {
        var e := wrb[cidxWrb];
        if e.err {
          return -EIO;
        }
        p := TakePages(p, e.len);
        NextEntry();
        budget := budget - 1;
      }
      pidx := p;
      return 0;
    }
  }

  // ---------------------------------------------------------------------------
  // The freelist when allocation can fail
  // ---------------------------------------------------------------------------

  function All(slots: seq<Option<Page>>): seq<Page> {
    if slots == [] then []
    else if slots[0].None? then All(slots[1..])
    else [slots[0].value] + All(slots[1..])
  }

  /** The pages before the first empty slot. */
  function Leading(slots: seq<Option<Page>>): seq<Page> {
    if slots == [] || slots[0].None? then [] else [slots[0].value] + Leading(slots[1..])
  }

  ghost predicate NoGap(slots: seq<Option<Page>>) {
    forall i, j :: 0 <= i < j < |slots| && slots[j].Some? ==> slots[i].Some?
  }

  lemma {:induction false} AllNone(slots: seq<Option<Page>>)
    ensures All(slots) == [] <==> forall i :: 0 <= i < |slots| ==> slots[i].None?
  {
    if slots != [] {
      AllNone(slots[1..]);
      assert forall i :: 0 <= i < |slots[1..]| ==> slots[1..][i] == slots[i + 1];
    }
  }

  lemma {:induction false} NoGapTail(slots: seq<Option<Page>>)
    requires slots != [] && slots[0].Some?
    ensures NoGap(slots) <==> NoGap(slots[1..])
  {
  }

  lemma {:induction false} GapFirst(slots: seq<Option<Page>>)
    requires slots != [] && slots[0].None?
    ensures NoGap(slots) <==> All(slots) == []
  {
    AllNone(slots);
    var first := slots[0];
    assert NoGap(slots) ==> forall j :: 0 < j < |slots| && slots[j].Some? ==> first.Some?;
  }

  /** Freeing stops at the first empty slot, so it frees every page if and only if no page lies behind a gap. */
  lemma {:induction false} FreeExact(slots: seq<Option<Page>>)
    ensures Leading(slots) == All(slots) <==> NoGap(slots)
  {
    hide NoGap;
    if slots == [] {
      assert NoGap(slots) by { NoGapEmpty(slots); }
    } else if slots[0].None? {
      GapFirst(slots);
    } else {
      NoGapTail(slots);
      FreeExact(slots[1..]);
      var v, a, b := slots[0].value, Leading(slots[1..]), All(slots[1..]);
      assert ([v] + a)[1..] == a && ([v] + b)[1..] == b;
    }
  }

  /** A refill that fails at slot `p` of a full freelist: freeing then reaches the pages before that slot only, so the pages
      behind it are leaked, and none is if and only if it was the last slot. */
  lemma {:induction false} FailedRefillExact(slots: seq<Option<Page>>, p: nat)
    requires p < |slots| && forall i :: 0 <= i < |slots| ==> slots[i].Some?
    ensures var left := slots[p := None];
            && |Leading(left)| == p && |All(left)| == |slots| - 1
            && (Leading(left) == All(left) <==> p == |slots| - 1)
    decreases p
  {
    var left, rest := slots[p := None], slots[1..];
    if p == 0 {
      assert left[1..] == rest;
      AllFull(rest);
    } else {
      assert left[1..] == rest[p - 1 := None];
      FailedRefillExact(rest, p - 1);
      var v, a, b := slots[0].value, Leading(left[1..]), All(left[1..]);
      assert ([v] + a)[1..] == a && ([v] + b)[1..] == b;
    }
  }

  lemma {:induction false} AllFull(slots: seq<Option<Page>>)
    requires forall i :: 0 <= i < |slots| ==> slots[i].Some?
    ensures |All(slots)| == |slots|
  {
    if slots != [] {
      AllFull(slots[1..]);
    }
  }

  lemma {:induction false} NoGapEmpty(slots: seq<Option<Page>>)
    requires slots == []
    ensures NoGap(slots)
  {
  }

  class Freelist {
    var slots: array<Option<Page>>
    var nextPage: Page
    var freed: seq<Page>

    constructor (rngsz: nat, firstPage: Page)
      ensures fresh(slots) && slots.Length == rngsz && nextPage == firstPage && freed == []
      ensures forall i :: 0 <= i < rngsz ==> slots[i].None?
    {
      slots := new Option<Page>[rngsz](_ => None);
      nextPage, freed := firstPage, [];
    }

    /** `fl_free`. */
    method Free()
      modifies this`freed, slots
      ensures freed == old(freed) + Leading(old(slots[..]))
    {
      var i := 0;
      ghost var before := slots[..];
      assert before[0..] == before;
      while i < slots.Length && slots[i].Some?
        invariant 0 <= i <= slots.Length == |before|
        invariant slots[i..] == before[i..]
        invariant freed + Leading(before[i..]) == old(freed) + Leading(before)
      {
        assert before[i] == slots[i..][0];
        assert before[i..][1..] == before[i + 1..];
        freed := freed + [slots[i].value];
        slots[i] := None;
        assert slots[i + 1..] == before[i..][1..];
        i := i + 1;
      }
      if i < slots.Length {
        assert slots[i..][0] == before[i];
      }
      assert freed + [] == freed;
    }

    /** `fl_refill_entry`: the page of the slot, if any, is no longer its own; a new one may fail to come. */
    method Refill(i: nat, ok: bool) returns (rv: int)
      requires i < slots.Length
      modifies this`nextPage, slots
      ensures rv == if ok then 0 else -ENOMEM
      ensures nextPage == old(nextPage) + (if ok then 1 else 0)
      ensures slots[..] == old(slots[..])[i := if ok then Some(old(nextPage)) else None]
    {
      slots[i] := None;
      if !ok {
        return -ENOMEM;
      }
      slots[i] := Some(nextPage);
      nextPage := nextPage + 1;
      return 0;
    }

    /** `fl_fill` when the first `good` page allocations succeed: either every slot gets its own new page, or every
        page allocated is given back again. */
    method Fill(good: nat) returns (rv: int)
      requires forall i :: 0 <= i < slots.Length ==> slots[i].None?
      modifies this`nextPage, this`freed, slots
      ensures rv == 0 <==> slots.Length <= good
      ensures rv == 0 ==> forall i :: 0 <= i < slots.Length ==> slots[i] == Some(old(nextPage) + i)
      ensures rv == 0 ==> freed == old(freed) && nextPage == old(nextPage) + slots.Length
      ensures rv < 0 ==> rv == -ENOMEM && nextPage == old(nextPage) + good
      ensures rv < 0 ==> freed == old(freed) + seq(good, i requires 0 <= i => old(nextPage) + i)
    {
      ghost var first := nextPage;
      var i := 0;
      while i < slots.Length
        invariant 0 <= i <= slots.Length && i <= good && nextPage == first + i && freed == old(freed)
        invariant forall j :: 0 <= j < i ==> slots[j] == Some(first + j)
        invariant forall j :: i <= j < slots.Length ==> slots[j].None?
      {
        ghost var before := slots[..];
        rv := Refill(i, i < good);
        assert forall j :: 0 <= j < slots.Length && j != i ==> slots[j] == slots[..][j] == before[j];
        assert slots[i] == slots[..][i];
        if rv < 0 {
          LeadingRun(slots[..], first, good);
          Free();
          return;
        }
        i := i + 1;
      }
      return 0;
    }
  }

  lemma {:induction false} LeadingRun(slots: seq<Option<Page>>, first: Page, k: nat)
    requires k < |slots| && slots[k].None? && forall j :: 0 <= j < k ==> slots[j] == Some(first + j)
    ensures Leading(slots) == seq(k, i requires 0 <= i => first + i)
    decreases k
  {
    if k > 0 {
      var rest := slots[1..];
      assert forall j :: 0 <= j < |rest| ==> rest[j] == slots[j + 1];
      LeadingRun(rest, first + 1, k - 1);
    }
  }

  // ---------------------------------------------------------------------------
  // Readers that wait for data
  // ---------------------------------------------------------------------------

  /** `check_rx_request_completed` on waiters that are each short of `left[i]` bytes: how many it completes. */
  function Woken(left: seq<nat>, dlen: nat): (k: nat)
    ensures k <= |left|
  {
    if left == [] || dlen < left[0] then 0 else 1 + Woken(left[1..], dlen - left[0])
  }

  method CheckCompleted(left: seq<nat>, dlen: nat) returns (k: nat)
    ensures k == Woken(left, dlen)
  {
    var d: nat := dlen;
    k := 0;
    assert left[0..] == left;
    while k < |left|
      invariant k <= |left| && k + Woken(left[k..], d) == Woken(left, dlen)
    {
      if d < left[k] {
        return;
      }
      d := d - left[k];
      assert left[k..][1..] == left[k + 1..];
      k := k + 1;
    }
  }

  /** The longest run of waiters whose shortages the byte count covers. */
  lemma {:induction false} WokenExact(left: seq<nat>, dlen: nat, j: nat)
    requires j <= |left|
    ensures j <= Woken(left, dlen) <==> Sum(left[..j]) <= dlen
    decreases j
  {
    if j > 0 {
      assert left[..j] == [left[0]] + left[1..][..j - 1];
      SumCons(left[0], left[1..][..j - 1]);
      if dlen >= left[0] {
        WokenExact(left[1..], dlen - left[0], j - 1);
      }
    } else {
      assert left[..0] == [];
    }
  }

  /** A waiting reader: how many bytes it wants and how many were there when it came. */
  datatype Waiter = Waiter(count: nat, avail: nat)

  predicate Waits(ws: seq<Waiter>) {
    forall i :: 0 <= i < |ws| ==> ws[i].avail < ws[i].count
  }

  /** What each reader was short of, which is what it is queued with. */
  function Missing(ws: seq<Waiter>): (r: seq<nat>)
    requires Waits(ws)
    ensures |r| == |ws|
  {
    seq(|ws|, i requires 0 <= i < |ws| => ws[i].count - ws[i].avail)
  }

  function Wanted(ws: seq<Waiter>): (r: seq<nat>)
    ensures |r| == |ws|
  {
    seq(|ws|, i requires 0 <= i < |ws| => ws[i].count)
  }

  /** When readers woken before still have `owed` bytes to take, the readers woken at `dlen` queued bytes find, after
      them, all they want. */
  ghost predicate AllServed(ws: seq<Waiter>, owed: nat, dlen: nat)
    requires Waits(ws)
  {
    owed + Sum(Wanted(ws)[..Woken(Missing(ws), dlen)]) <= dlen
  }

  /** Smaller terms have a smaller sum; strictly so if one of the first `k` is smaller. */
  lemma {:induction false} SumLess(a: seq<nat>, b: seq<nat>, k: nat)
    requires k <= |a| == |b| && forall i :: 0 <= i < |a| ==> a[i] <= b[i]
    ensures Sum(a[..k]) <= Sum(b[..k])
    ensures (exists i :: 0 <= i < k && a[i] < b[i]) ==> Sum(a[..k]) < Sum(b[..k])
    decreases k
  {
    if k > 0 {
      SumLess(a, b, k - 1);
      SumSnoc(a, k - 1);
      SumSnoc(b, k - 1);
    }
  }

  lemma {:induction false} SumPrefix(a: seq<nat>, j: nat, k: nat)
    requires j <= k <= |a|
    ensures Sum(a[..j]) <= Sum(a[..k])
  {
    assert a[..k][..j] == a[..j];
    SumGrows(a[..k], j);
  }

  /** A reader waits for the bytes it is short of, but the readers are woken in order as the TOTAL byte count covers what
      they are short of, and a woken reader is off the list while its bytes are still counted. So at every byte count
      all woken readers are sure to find their bytes if and only if nobody waits, or no earlier reader has bytes to take
      and nothing was there when any of the waiting ones came. Readers that come later and find all they want are not
      counted in. */
  lemma {:induction false} WakeExact(ws: seq<Waiter>, owed: nat)
    requires Waits(ws)
    ensures (forall dlen: nat :: owed <= dlen ==> AllServed(ws, owed, dlen)) <==>
            ws == [] || (owed == 0 && forall i :: 0 <= i < |ws| ==> ws[i].avail == 0)
  {
    if ws == [] {
      forall dlen: nat | owed <= dlen ensures AllServed(ws, owed, dlen) {
        NoneWoken(ws, dlen);
      }
    } else if owed > 0 {
      var dlen := OwedTwice(ws, owed);
    } else if i :| 0 <= i < |ws| && ws[i].avail != 0 {
      var dlen := FoundSome(ws, i);
    } else {
      assert Missing(ws) == Wanted(ws);
      forall dlen: nat ensures AllServed(ws, 0, dlen) {
        WokenExact(Missing(ws), dlen, Woken(Missing(ws), dlen));
      }
    }
  }

  lemma {:induction false} NoneWoken(ws: seq<Waiter>, dlen: nat)
    requires ws == []
    ensures Woken(Missing(ws), dlen) == 0 && Sum(Wanted(ws)[..0]) == 0
  {
  }

  /** The bytes of an earlier reader are counted for the first waiting one too. */
  lemma {:induction false} OwedTwice(ws: seq<Waiter>, owed: nat) returns (dlen: nat)
    requires Waits(ws) && ws != [] && owed > 0
    ensures owed <= dlen && !AllServed(ws, owed, dlen)
  {
    var short, all := Missing(ws), Wanted(ws);
    dlen := if owed <= short[0] then short[0] else owed;
    SumOne(short);
    SumOne(all);
    WokenExact(short, dlen, 1);
    SumPrefix(all, 1, Woken(short, dlen));
    if dlen == owed {
      assert all[0] > 0;
    }
  }

  lemma {:induction false} SumOne(v: seq<nat>)
    requires v != []
    ensures Sum(v[..1]) == v[0]
  {
    SumSnoc(v, 0);
    assert v[..0] == [];
  }

  lemma {:induction false} FoundSome(ws: seq<Waiter>, i: nat) returns (dlen: nat)
    requires Waits(ws) && i < |ws| && ws[i].avail != 0
    ensures !AllServed(ws, 0, dlen)
  {
    var short, all := Missing(ws), Wanted(ws);
    dlen := Sum(short[..i + 1]);
    WokenExact(short, dlen, i + 1);
    assert short[i] < all[i];
    SumLess(short, all, i + 1);
    SumPrefix(all, i + 1, Woken(short, dlen));
  }

  /** One reader wants 8 bytes and finds 5, which a third reader takes; another wants 5 and finds none. When 8 bytes
      arrive both are woken, and the first takes them all. */
  lemma {:induction false} WokenForNothing()
    ensures var ws := [Waiter(8, 5), Waiter(5, 0)];
            Waits(ws) && Woken(Missing(ws), 8) == 2 && !AllServed(ws, 0, 8)
  {
    var ws := [Waiter(8, 5), Waiter(5, 0)];
    assert Missing(ws) == [3, 5] && Wanted(ws) == [8, 5];
    assert [3, 5][1..] == [5] && [5][1..] == [];
    assert [8, 5][..2][..1] == [8] && [8][..0] == [];
  }

  /** Two readers want 5 bytes each and find none. Five bytes arrive and the first is woken; before it reads, one more byte
      arrives and the second is woken too. The first takes its 5 and leaves 1. */
  lemma {:induction false} WokenOnceMore()
    ensures var ws := [Waiter(5, 0), Waiter(5, 0)];
            && Waits(ws) && Woken(Missing(ws), 5) == 1 && AllServed(ws, 0, 5)
            && Waits(ws[1..]) && Woken(Missing(ws[1..]), 6) == 1 && !AllServed(ws[1..], 5, 6)
  {
    var ws := [Waiter(5, 0), Waiter(5, 0)];
    assert ws[1..] == [Waiter(5, 0)];
    assert Missing(ws) == [5, 5] && Wanted(ws) == [5, 5] && Missing(ws[1..]) == [5] && Wanted(ws[1..]) == [5];
    assert [5, 5][1..] == [5] && [5][1..] == [];
    assert [5, 5][..1] == [5] && [5][..1] == [5] && [5][..0] == [];
  }
}
