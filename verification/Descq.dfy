/** The queue as the driver keeps it: a descriptor ring written in place, indices, and request lists
    changed step by step. Each routine is proved to do what the value model in `Queue` says. */
module Descq {
  import opened Common
  import opened SgList
  import opened Ring
  import opened Queue

  lemma {:induction false} AdvanceOne(p: nat, n: nat, k: nat)
    requires p < n && k < n
    ensures Advance(p, n, k) < n && Advance(p, n, k + 1) == Inc(Advance(p, n, k), n)
    ensures Advance(p, n, 0) == p
  {
  }

  // --- Facts about growing the programmed stretch of the ring by one descriptor ---

  lemma {:induction false} StoreSnoc(ring: seq<Desc>, p: nat, items: seq<Desc>, d: Desc)
    requires p < |ring| && |items| < |ring|
    ensures Advance(p, |ring|, |items|) < |ring|
    ensures Store(ring, p, items + [d]) == Store(ring, p, items)[Advance(p, |ring|, |items|) := d]
  {
  }

  /** A memory-mapped descriptor before the packet flags are set. */
  function Unmarked(d: Desc): Desc {
    d.(sop := false, eop := false)
  }

  function PlainDescs(c2h: bool, ep: nat, pieces: seq<Sg>): (r: seq<Desc>)
    ensures |r| == |pieces|
  {
    seq(|pieces|, t requires 0 <= t < |pieces| => Unmarked(DescAt(Mm(c2h), ep, pieces, t)))
  }

  lemma {:induction false} PlainSnoc(c2h: bool, ep: nat, pieces: seq<Sg>, p: Sg)
    ensures PlainDescs(c2h, ep, pieces + [p]) == PlainDescs(c2h, ep, pieces) +
              [if c2h then Desc(ep + Bytes(pieces), p.addr, p.len, false, false)
               else Desc(p.addr, ep + Bytes(pieces), p.len, false, false)]
  {
    var more := pieces + [p];
    forall t | 0 <= t <= |pieces| ensures more[..t] == pieces[..t] {
    }
    assert pieces[..|pieces|] == pieces;
  }

  lemma {:induction false} StreamSnoc(ep: nat, pieces: seq<Sg>, p: Sg)
    ensures Descs(StH2c, ep, pieces + [p]) == Descs(StH2c, ep, pieces) + [Desc(p.addr, 0, p.len, true, true)]
  {
  }

  /** Setting the flags on the first and the last written descriptor gives the marked descriptors. */
  lemma {:induction false} MarkEnds(ring: seq<Desc>, p: nat, c2h: bool, ep: nat, pieces: seq<Sg>, last: nat, marked: seq<Desc>)
    requires p < |ring| && 0 < |pieces| < |ring| && last == Advance(p, |ring|, |pieces| - 1)
    requires var plain := Store(ring, p, PlainDescs(c2h, ep, pieces));
             var withEop := plain[last := plain[last].(eop := true)];
             marked == withEop[p := withEop[p].(sop := true)]
    ensures marked == Store(ring, p, Descs(Mm(c2h), ep, pieces))
  {
  }

  // --- Facts about walking the scatter-gather list ---

  /** `out` is what has been programmed of `all`; `left` is still to come unless the ring is full. */
  ghost predicate Walk(all: seq<Sg>, out: seq<Sg>, left: seq<Sg>, max: nat) {
    && |out| <= max
    && out <= all
    && (|out| < max ==> all == out + left)
  }

  lemma {:induction false} WalkElement(all: seq<Sg>, out: seq<Sg>, sgl: seq<Sg>, j: nat, cap: nat, max: nat)
    requires cap > 0 && j < |sgl| && Walk(all, out, Split(sgl[j..], cap), max)
    ensures Walk(all, out, Chunks(sgl[j].addr, sgl[j].len, cap) + Split(sgl[j + 1..], cap), max)
  {
  }

  lemma {:induction false} WalkPiece(all: seq<Sg>, out: seq<Sg>, addr: nat, len: nat, rest: seq<Sg>, cap: nat, max: nat)
    requires cap > 0 && len > 0 && |out| < max && Walk(all, out, Chunks(addr, len, cap) + rest, max)
    ensures var n := Min(len, cap);
            Walk(all, out + [Sg(addr, n)], Chunks(addr + n, len - n, cap) + rest, max)
  {
  }

  lemma {:induction false} BytesOne(out: seq<Sg>, p: Sg)
    ensures Bytes(out + [p]) == Bytes(out) + p.len
  {
    BytesConcat(out, [p]);
  }

  class DescQueue {
    const kind: Kind
    const ring: array<Desc>
    var pidx: nat
    var cidx: nat
    var avail: nat
    var credit: nat
    var work: seq<Cb>
    var pend: seq<Cb>
    var done: seq<Completion>

    ghost function Value(): Q
      reads this, ring
    {
      Q(kind, ring[..], pidx, cidx, avail, credit, work, pend, done)
    }

    ghost predicate Valid()
      reads this, ring
    {
      pidx < ring.Length && cidx < ring.Length && avail < ring.Length
    }

    /** `qdma_descq_config` over a zeroed ring buffer. */
    constructor (kind: Kind, rngsz: nat)
      requires rngsz > 0
      ensures Valid() && fresh(ring) && Value() == Init(kind, rngsz)
    {
      this.kind := kind;
      ring := new Desc[rngsz](_ => Desc(0, 0, 0, false, false));
      pidx, cidx, avail, credit := 0, 0, rngsz - 1, 0;
      work, pend, done := [], [], [];
      new;
      assert ring[..] == Init(kind, rngsz).ring;
    }

    /** `qdma_sg_req_submit` up to the wait: a request in the wrong direction or on a queue that is not online is refused. */
    method SubmitReq(req: Req, write: bool, online: bool) returns (rv: int)
      requires Valid()
      modifies this`work
      ensures Valid() && (rv == 0 || rv == -EINVAL) && (rv == 0 <==> online && (write <==> kind != Mm(true)))
      ensures Value() == if rv == 0 then Submit(old(Value()), req) else old(Value())
    {
      var c2h := kind.Mm? && kind.c2h;
      if (write && c2h) || (!write && !c2h) {
        return -EINVAL;
      }
      if !online {
        return -EINVAL;
      }
      work := work + [Cb(req, 0, 0)];
      return 0;
    }

    /** Write the descriptor at the producer index and step the index. */
    method Put(d: Desc)
      requires Valid()
      modifies this`pidx, ring
      ensures Valid() && ring[..] == old(ring[..])[old(pidx) := d] && pidx == Inc(old(pidx), ring.Length)
    {
      ring[pidx] := d;
      if pidx + 1 == ring.Length {
        pidx := 0;
      } else {
        pidx := pidx + 1;
      }
    }

    /** The streaming loop: elements from `start` on become descriptors until the list or the ring ends. */
    method FillStream(req: Req, start: nat) returns (cnt: nat, data: nat, ghost out: seq<Sg>)
      requires Valid() && kind == StH2c && start <= |req.sgl| && avail > 0
      modifies this`pidx, ring
      ensures Valid() && out == Emit(req.sgl, start, PAGE_SIZE, avail) && cnt == |out| && data == Bytes(out)
      ensures ring[..] == Store(old(ring[..]), old(pidx), Descs(StH2c, req.ep, out))
      ensures pidx == Advance(old(pidx), ring.Length, cnt)
    {
      hide Split, Chunks, Descs, Bytes, Walk, Store, Advance, Inc, Emit;
      AdvanceOne(pidx, ring.Length, 0);
      ghost var all := Split(req.sgl[start..], PAGE_SIZE);
      ghost var ring0, p0 := ring[..], pidx;
      cnt, data, out := 0, 0, [];
      var j := start;
      StartWalk(all, avail);
      StartStore(ring0, p0, StH2c, req.ep);
      while j < |req.sgl| && cnt < avail
        invariant start <= j <= |req.sgl| && cnt == |out| <= avail < ring.Length && data == Bytes(out)
        invariant Walk(all, out, Split(req.sgl[j..], PAGE_SIZE), avail)
        invariant Valid() && pidx == Advance(p0, ring.Length, cnt)
        invariant ring[..] == Store(ring0, p0, Descs(StH2c, req.ep, out))
      {
        var tlen, addr := req.sgl[j].len, req.sgl[j].addr;
        ghost var rest := Split(req.sgl[j + 1..], PAGE_SIZE);
        WalkElement(all, out, req.sgl, j, PAGE_SIZE, avail);
        while tlen > 0
          invariant cnt == |out| <= avail < ring.Length && data == Bytes(out) && cnt < avail
          invariant Walk(all, out, Chunks(addr, tlen, PAGE_SIZE) + rest, avail)
          invariant Valid() && pidx == Advance(p0, ring.Length, cnt)
          invariant ring[..] == Store(ring0, p0, Descs(StH2c, req.ep, out))
        {
          var len := Min(tlen, PAGE_SIZE);
          WalkPiece(all, out, addr, tlen, rest, PAGE_SIZE, avail);
          StreamSnoc(req.ep, out, Sg(addr, len));
          BytesOne(out, Sg(addr, len));
          StoreSnoc(ring0, p0, Descs(StH2c, req.ep, out), Desc(addr, 0, len, true, true));
          AdvanceOne(p0, ring.Length, cnt);
          Put(Desc(addr, 0, len, true, true));
          out := out + [Sg(addr, len)];
          data, addr, tlen := data + len, addr + len, tlen - len;
          cnt := cnt + 1;
          if cnt == avail {
            break;
          }
        }
        NextElement(all, out, addr, tlen, rest, PAGE_SIZE, avail);
        j := j + 1;
      }
      EndWalk(all, out, req.sgl[j..], PAGE_SIZE, avail);
      EmitIs(req.sgl, start, PAGE_SIZE, avail);
    }

    /** The memory-mapped loop, followed by the packet flags on the last and the first descriptor. */
    method FillMapped(req: Req, start: nat) returns (cnt: nat, data: nat, ghost out: seq<Sg>)
      requires Valid() && kind.Mm? && start <= |req.sgl| && avail > 0
      modifies this`pidx, ring
      ensures Valid() && out == Emit(req.sgl, start, DESC_BLEN_MAX, avail) && cnt == |out| && data == Bytes(out)
      ensures ring[..] == Store(old(ring[..]), old(pidx), Descs(kind, req.ep, out))
      ensures pidx == Advance(old(pidx), ring.Length, cnt)
    {
      hide Split, Chunks, Descs, PlainDescs, Bytes, Walk, Store, Advance, Inc, Emit;
      AdvanceOne(pidx, ring.Length, 0);
      ghost var all := Split(req.sgl[start..], DESC_BLEN_MAX);
      ghost var ring0, p0 := ring[..], pidx;
      var descStart, descEnd, ep := pidx, 0, req.ep;
      cnt, data, out := 0, 0, [];
      var j := start;
      StartWalk(all, avail);
      StartPlain(ring0, p0, kind.c2h, req.ep);
      while j < |req.sgl| && cnt < avail
        invariant start <= j <= |req.sgl| && cnt == |out| <= avail < ring.Length && data == Bytes(out)
        invariant ep == req.ep + data && (cnt > 0 ==> descEnd == Advance(p0, ring.Length, cnt - 1))
        invariant Walk(all, out, Split(req.sgl[j..], DESC_BLEN_MAX), avail)
        invariant Valid() && pidx == Advance(p0, ring.Length, cnt)
        invariant ring[..] == Store(ring0, p0, PlainDescs(kind.c2h, req.ep, out))
      {
        var tlen, addr := req.sgl[j].len, req.sgl[j].addr;
        ghost var rest := Split(req.sgl[j + 1..], DESC_BLEN_MAX);
        WalkElement(all, out, req.sgl, j, DESC_BLEN_MAX, avail);
        while tlen > 0
          invariant cnt == |out| <= avail < ring.Length && data == Bytes(out) && cnt < avail
          invariant ep == req.ep + data && (cnt > 0 ==> descEnd == Advance(p0, ring.Length, cnt - 1))
          invariant Walk(all, out, Chunks(addr, tlen, DESC_BLEN_MAX) + rest, avail)
          invariant Valid() && pidx == Advance(p0, ring.Length, cnt)
          invariant ring[..] == Store(ring0, p0, PlainDescs(kind.c2h, req.ep, out))
        {
          var len := Min(tlen, DESC_BLEN_MAX);
          var d := if kind.c2h then Desc(ep, addr, len, false, false) else Desc(addr, ep, len, false, false);
          WalkPiece(all, out, addr, tlen, rest, DESC_BLEN_MAX, avail);
          PlainSnoc(kind.c2h, req.ep, out, Sg(addr, len));
          BytesOne(out, Sg(addr, len));
          StoreSnoc(ring0, p0, PlainDescs(kind.c2h, req.ep, out), d);
          AdvanceOne(p0, ring.Length, cnt);
          descEnd := pidx;
          Put(d);
          out := out + [Sg(addr, len)];
          ep, data, addr, tlen := ep + len, data + len, addr + len, tlen - len;
          cnt := cnt + 1;
          if cnt == avail {
            break;
          }
        }
        NextElement(all, out, addr, tlen, rest, DESC_BLEN_MAX, avail);
        j := j + 1;
      }
      EndWalk(all, out, req.sgl[j..], DESC_BLEN_MAX, avail);
      EmitIs(req.sgl, start, DESC_BLEN_MAX, avail);
      if cnt == 0 {
        StartStore(ring0, p0, kind, req.ep);
      } else {
        AdvanceOne(p0, ring.Length, cnt - 1);
        Mark(descStart, descEnd, ring0, req.ep, out);
      }
    }

    method Mark(descStart: nat, descEnd: nat, ghost ring0: seq<Desc>, ghost ep: nat, ghost out: seq<Sg>)
      requires kind.Mm? && |ring0| == ring.Length && descStart < |ring0| && 0 < |out| < |ring0|
      requires descEnd == Advance(descStart, |ring0|, |out| - 1) < |ring0|
      requires ring[..] == Store(ring0, descStart, PlainDescs(kind.c2h, ep, out))
      modifies ring
      ensures ring[..] == Store(ring0, descStart, Descs(kind, ep, out))
    {
      hide Store, Descs, PlainDescs;
      ring[descEnd] := ring[descEnd].(eop := true);
      ring[descStart] := ring[descStart].(sop := true);
      MarkEnds(ring0, descStart, kind.c2h, ep, out, descEnd, ring[..]);
    }

    /** `qdma_descq_proc_sgt_request`: an error leaves the queue as it was. */
    method ProcRequest(i: nat) returns (rv: int)
      requires Valid() && i < |work|
      modifies this, ring
      ensures Valid() && rv == ReturnCode(old(Value()), i)
      ensures rv < 0 ==> Value() == old(Value())
      ensures rv >= 0 ==> Value() == Proc(old(Value()), i)
    {
      hide Descs, Store, Bytes, Emit, Resume, ReturnCode, Proc, Advance;
      ghost var q := Value();
      if avail == 0 {
        ProcIdle(q, i);
        return 0;
      }
      var cb := work[i];
      var start := 0;
      if cb.offset > 0 {
        var r := SgtFindOffset(cb.req.sgl, cb.offset);
        if r.OutOfRange? || r.idx >= |cb.req.sgl| {
          ProcOutOfRange(q, i);
          return -EINVAL;
        }
        start := r.idx;
      }
      ProcFound(q, i, start);
      var cnt, data;
      ghost var out;
      if kind.Mm? {
        cnt, data, out := FillMapped(cb.req, start);
        if cnt == 0 {
          assert Descs(kind, cb.req.ep, out) == [];
          StoreNone(q.ring, q.pidx);
          return -EIO;
        }
      } else {
        cnt, data, out := FillStream(cb.req, start);
      }
      Finish(i, cnt, data, out, q);
      return 0;
    }

    /** Account for what was programmed and hand the request on when it is complete. */
    method Finish(i: nat, cnt: nat, data: nat, ghost out: seq<Sg>, ghost q: Q)
      requires Valid() && Ok(q) && i < |work| && cnt == |out| <= avail && data == Bytes(out) && |q.ring| == ring.Length
      requires ring[..] == Store(q.ring, q.pidx, Descs(kind, work[i].req.ep, out)) && pidx == Advance(q.pidx, |q.ring|, cnt)
      requires q == Value().(ring := q.ring, pidx := q.pidx)
      modifies this`avail, this`work, this`pend
      ensures Valid() && Value() == Program(q, i, out)
    {
      hide Descs, Store, Bytes, Advance;
      var cb := work[i];
      avail := avail - cnt;
      cb := cb.(descNr := cb.descNr + cnt, offset := cb.offset + data);
      if cb.offset == cb.req.count {
        work := work[..i] + work[i + 1..];
        pend := pend + [cb];
      } else {
        work := work[i := cb];
      }
    }

    /** `qdma_thread_wrk_proc`: process the waiting requests until no slot is left. */
    method RunWorker()
      requires Valid()
      modifies this, ring
      ensures Valid() && Value() == WorkerPass(old(Value()))
    {
      hide Proc, ReturnCode;
      var i := 0;
      while i < |work|
        invariant Valid() && i <= |work|
        invariant WorkLoop(Value(), i) == WorkLoop(old(Value()), 0)
        decreases |work| - i
      {
        ghost var q := Value();
        var n := |work|;
        var rv := ProcRequest(i);
        if rv < 0 {
          done := done + [Completed(work[i], rv)];
          work := work[..i] + work[i + 1..];
          ProcFails(q, i);
        }
        if avail == 0 {
          break;
        }
        if |work| == n {
          i := i + 1;
        }
      }
    }

    /** `req_update_pend`. */
    method UpdatePend(newCredit: nat)
      requires Valid()
      modifies this`pend, this`done, this`credit
      ensures Valid()
      ensures var s := Spend(old(pend), newCredit + old(credit));
              pend == s.pend && credit == s.credit && done == old(done) + AllCompleted(s.done)
    {
      hide Spend, AllCompleted;
      var c: nat := newCredit + credit;
      ghost var s, finished := Spend(pend, c), [];
      SpendStart(pend, c, old(done));
      while pend != []
        invariant s == After(finished, Spend(pend, c))
        invariant done == old(done) + AllCompleted(finished)
        decreases |pend|
      {
        var cb := pend[0];
        SpendStep(pend, c, finished);
        if c >= cb.descNr {
          c := c - cb.descNr;
          CompletedSnoc(finished, cb);
          done := done + [Completed(cb, 0)];
          finished := finished + [cb];
          pend := pend[1..];
          if c == 0 {
            assert s == Spent(finished, pend, c);
            break;
          }
        } else {
          pend := pend[0 := cb.(descNr := cb.descNr - c)];
          c := 0;
          assert s == Spent(finished, pend, c);
          break;
        }
      }
      SpendEnd(pend, c, finished);
      credit := c;
    }

    /** `descq_mm_n_h2c_wb` for the index found in the writeback word. */
    method ServiceWb(cidxHw: nat)
      requires Valid() && cidxHw < ring.Length
      modifies this`cidx, this`avail, this`pend, this`done, this`credit
      ensures Value() == Writeback(old(Value()), cidxHw)
    {
      hide Spend, AllCompleted;
      if pidx == cidx || cidxHw == cidx {
        return;
      }
      var n := if cidxHw < cidx then (ring.Length - cidx) + cidxHw else cidxHw - cidx;
      UpdatePend(n);
      cidx := cidxHw;
      avail := avail + n;
    }

    /** A caller whose wait timed out. */
    method UnlinkReq(i: nat)
      requires Valid() && i < |pend| + |work|
      modifies this`pend, this`work
      ensures Valid() && Value() == Unlink(old(Value()), i)
    {
      if i < |pend| {
        pend := pend[..i] + pend[i + 1..];
      } else {
        work := work[..i - |pend|] + work[i - |pend| + 1..];
      }
    }
  }

  lemma {:induction false} EmitIs(sgl: seq<Sg>, start: nat, cap: nat, avail: nat)
    requires start <= |sgl| && cap > 0
    ensures Emit(sgl, start, cap, avail) == Take(Split(sgl[start..], cap), avail)
  {
  }

  lemma {:induction false} StartWalk(all: seq<Sg>, max: nat)
    ensures Walk(all, [], all, max)
  {
  }

  lemma {:induction false} StartStore(ring: seq<Desc>, p: nat, kind: Kind, ep: nat)
    requires p < |ring|
    ensures Bytes([]) == 0 && ring == Store(ring, p, Descs(kind, ep, []))
  {
  }

  lemma {:induction false} StartPlain(ring: seq<Desc>, p: nat, c2h: bool, ep: nat)
    requires p < |ring|
    ensures Bytes([]) == 0 && ring == Store(ring, p, PlainDescs(c2h, ep, []))
  {
  }

  lemma {:induction false} ProcIdle(q: Q, i: nat)
    requires Ok(q) && i < |q.work| && q.avail == 0
    ensures Proc(q, i) == q && ReturnCode(q, i) == 0
  {
  }

  lemma {:induction false} ProcOutOfRange(q: Q, i: nat)
    requires Ok(q) && i < |q.work| && q.avail > 0
    requires var cb := q.work[i]; var r := Find(cb.req.sgl, cb.offset, 0, 0);
             cb.offset > 0 && (r.OutOfRange? || r.idx >= |cb.req.sgl|)
    ensures ReturnCode(q, i) == -EINVAL
  {
  }

  lemma {:induction false} ProcFound(q: Q, i: nat, start: nat)
    requires Ok(q) && i < |q.work| && q.avail > 0
    requires var cb := q.work[i]; var r := Find(cb.req.sgl, cb.offset, 0, 0);
             if cb.offset == 0 then start == 0 else r.Found? && r.idx == start < |cb.req.sgl|
    ensures start <= |q.work[i].req.sgl|
    ensures var out := Emit(q.work[i].req.sgl, start, Cap(q.kind), q.avail);
            && |out| <= q.avail
            && ReturnCode(q, i) == (if q.kind.Mm? && out == [] then -EIO else 0)
            && (ReturnCode(q, i) == 0 ==> Proc(q, i) == Program(q, i, out))
  {
  }

  lemma {:induction false} NextElement(all: seq<Sg>, out: seq<Sg>, addr: nat, tlen: nat, rest: seq<Sg>, cap: nat, max: nat)
    requires cap > 0 && Walk(all, out, Chunks(addr, tlen, cap) + rest, max)
    requires tlen == 0 || |out| == max
    ensures Walk(all, out, rest, max)
  {
  }

  lemma {:induction false} EndWalk(all: seq<Sg>, out: seq<Sg>, left: seq<Sg>, cap: nat, max: nat)
    requires cap > 0 && Walk(all, out, Split(left, cap), max) && (left == [] || |out| >= max)
    ensures out == Take(all, max)
  {
  }

  lemma {:induction false} ProcFails(q: Q, i: nat)
    requires Ok(q) && i < |q.work| && ReturnCode(q, i) < 0
    ensures Proc(q, i) == Fail(q, i, ReturnCode(q, i))
  {
  }

  /** The outcome of spending when `finished` requests are already off the list. */
  ghost function After(finished: seq<Cb>, s: Spent): Spent {
    s.(done := finished + s.done)
  }

  lemma {:induction false} SpendStart(pend: seq<Cb>, c: nat, done: seq<Completion>)
    ensures Spend(pend, c) == After([], Spend(pend, c))
    ensures done == done + AllCompleted([])
  {
  }

  lemma {:induction false} SpendEnd(pend: seq<Cb>, c: nat, finished: seq<Cb>)
    ensures pend == [] ==> After(finished, Spend(pend, c)) == Spent(finished, [], c)
  {
  }

  lemma {:induction false} SpendStep(pend: seq<Cb>, c: nat, finished: seq<Cb>)
    requires pend != []
    ensures var cb := pend[0];
            After(finished, Spend(pend, c)) ==
            if c < cb.descNr then Spent(finished, pend[0 := cb.(descNr := cb.descNr - c)], 0)
            else if c == cb.descNr then Spent(finished + [cb], pend[1..], 0)
            else After(finished + [cb], Spend(pend[1..], c - cb.descNr))
  {
  }

  lemma {:induction false} CompletedSnoc(finished: seq<Cb>, cb: Cb)
    ensures AllCompleted(finished + [cb]) == AllCompleted(finished) + [Completed(cb, 0)]
  {
  }
}
