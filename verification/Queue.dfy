/** One memory-mapped (MM) or streaming host-to-card (ST H2C) descriptor queue as a value: descriptor
    ring, indices, credit and the request lists, with what each driver routine makes of them. */
module Queue {
  import opened Common
  import opened SgList
  import opened Ring

  datatype Kind = Mm(c2h: bool) | StH2c

  /** The most bytes one descriptor may carry. */
  function Cap(kind: Kind): (n: nat)
    ensures n > 0
  {
    if kind.Mm? then DESC_BLEN_MAX else PAGE_SIZE
  }

  datatype Desc = Desc(src: nat, dst: nat, len: nat, sop: bool, eop: bool)

  /** `async` stands for a request with a completion callback. */
  datatype Req = Req(sgl: seq<Sg>, count: nat, ep: nat, async: bool)

  datatype Cb = Cb(req: Req, offset: nat, descNr: nat)

  datatype Completion = Completion(req: Req, offset: nat, status: int)

  datatype Q = Q(
    kind: Kind, ring: seq<Desc>, pidx: nat, cidx: nat, avail: nat, credit: nat,
    work: seq<Cb>, pend: seq<Cb>, done: seq<Completion>)

  /** Index bounds without which the routines would leave the ring buffer. */
  predicate Ok(q: Q) {
    q.pidx < |q.ring| && q.cidx < |q.ring| && q.avail < |q.ring|
  }

  /** The state that `qdma_descq_config` sets up over a zeroed ring. */
  function Init(kind: Kind, rngsz: nat): Q
    requires rngsz > 0
  {
    Q(kind, seq(rngsz, _ => Desc(0, 0, 0, false, false)), 0, 0, rngsz - 1, 0, [], [], [])
  }

  function RemoveAt<T>(s: seq<T>, i: nat): seq<T>
    requires i < |s|
  {
    s[..i] + s[i + 1..]
  }

  function Completed(cb: Cb, error: int): Completion {
    Completion(cb.req, cb.offset,
               if cb.req.async && cb.offset != cb.req.count then -EINVAL else error)
  }

  // ---------------------------------------------------------------------------
  // Programming descriptors
  // ---------------------------------------------------------------------------

  /** Where a pass starts in the list. The remainder reported by the search is not used: the
      driver sets it to zero before subtracting it. */
  function Resume(cb: Cb): Found {
    if cb.offset == 0 then Found(0, 0) else
      match Find(cb.req.sgl, cb.offset, 0, 0)
      case Found(i, _) => if i < |cb.req.sgl| then Found(i, 0) else OutOfRange
      case OutOfRange => OutOfRange
  }

  /** The pieces that a pass starting at element `i` programs when `avail` slots are free. */
  function Emit(sgl: seq<Sg>, i: nat, cap: nat, avail: nat): seq<Sg>
    requires i <= |sgl| && cap > 0
  {
    Take(Split(sgl[i..], cap), avail)
  }

  function DescAt(kind: Kind, ep: nat, pieces: seq<Sg>, t: nat): Desc
    requires t < |pieces|
  {
    var p, e := pieces[t], ep + Bytes(pieces[..t]);
    match kind
    case StH2c => Desc(p.addr, 0, p.len, true, true)
    case Mm(true) => Desc(e, p.addr, p.len, t == 0, t == |pieces| - 1)
    case Mm(false) => Desc(p.addr, e, p.len, t == 0, t == |pieces| - 1)
  }

  function Descs(kind: Kind, ep: nat, pieces: seq<Sg>): (r: seq<Desc>)
    ensures |r| == |pieces|
  {
    seq(|pieces|, t requires 0 <= t < |pieces| => DescAt(kind, ep, pieces, t))
  }

  /** The host memory a descriptor names. */
  function Host(kind: Kind, d: Desc): Sg {
    Sg(if kind == Mm(true) then d.dst else d.src, d.len)
  }

  function Hosts(kind: Kind, ds: seq<Desc>): (r: seq<Sg>)
    ensures |r| == |ds|
  {
    seq(|ds|, t requires 0 <= t < |ds| => Host(kind, ds[t]))
  }

  lemma {:induction false} HostsDescs(kind: Kind, ep: nat, pieces: seq<Sg>)
    ensures Hosts(kind, Descs(kind, ep, pieces)) == pieces
  {
  }

  /** The queue after `pieces` have been programmed for the request at place `i` of the work list. */
  function Program(q: Q, i: nat, pieces: seq<Sg>): Q
    requires Ok(q) && i < |q.work| && |pieces| <= q.avail
  {
    var cb := q.work[i];
    var cb' := cb.(offset := cb.offset + Bytes(pieces), descNr := cb.descNr + |pieces|);
    var q' := q.(ring := Store(q.ring, q.pidx, Descs(q.kind, cb.req.ep, pieces)),
                 pidx := Advance(q.pidx, |q.ring|, |pieces|),
                 avail := q.avail - |pieces|);
    if cb'.offset == cb.req.count
    then q'.(work := RemoveAt(q.work, i), pend := q.pend + [cb'])
    else q'.(work := q.work[i := cb'])
  }

  function Fail(q: Q, i: nat, error: int): Q
    requires i < |q.work|
  {
    q.(work := RemoveAt(q.work, i), done := q.done + [Completed(q.work[i], error)])
  }

  /** What the processing routine returns for the request at place `i`. */
  function ReturnCode(q: Q, i: nat): int
    requires i < |q.work|
  {
    if q.avail == 0 then 0 else
      match Resume(q.work[i])
      case OutOfRange => -EINVAL
      case Found(start, _) =>
        if q.kind.Mm? && Emit(q.work[i].req.sgl, start, Cap(q.kind), q.avail) == [] then -EIO else 0
  }

  /** `qdma_descq_proc_sgt_request` on the request at place `i`, with the caller's handling of an error. */
  function Proc(q: Q, i: nat): (r: Q)
    requires Ok(q) && i < |q.work|
    ensures Ok(r) && |q.work| - 1 <= |r.work| <= |q.work| && r.kind == q.kind
  {
    if q.avail == 0 then q
    else if ReturnCode(q, i) < 0 then Fail(q, i, ReturnCode(q, i))
    else Program(q, i, Emit(q.work[i].req.sgl, Resume(q.work[i]).idx, Cap(q.kind), q.avail))
  }

  /** The worker thread's walk over the work list, from place `i` on. */
  function WorkLoop(q: Q, i: nat): (r: Q)
    requires Ok(q) && i <= |q.work|
    ensures Ok(r) && r.kind == q.kind
    decreases |q.work| - i
  {
    if i == |q.work| then q else
      var q' := Proc(q, i);
      if q'.avail == 0 then q'
      else WorkLoop(q', if |q'.work| < |q.work| then i else i + 1)
  }

  function WorkerPass(q: Q): (r: Q)
    requires Ok(q)
    ensures Ok(r)
  {
    WorkLoop(q, 0)
  }

  // ---------------------------------------------------------------------------
  // Writeback
  // ---------------------------------------------------------------------------

  datatype Spent = Spent(done: seq<Cb>, pend: seq<Cb>, credit: nat)

  /** `req_update_pend`: credit is spent on the pending requests in order. */
  function Spend(pend: seq<Cb>, credit: nat): Spent {
    if pend == [] then Spent([], [], credit)
    else if credit < pend[0].descNr then
      Spent([], [pend[0].(descNr := pend[0].descNr - credit)] + pend[1..], 0)
    else if credit == pend[0].descNr then Spent([pend[0]], pend[1..], 0)
    else
      var s := Spend(pend[1..], credit - pend[0].descNr);
      s.(done := [pend[0]] + s.done)
  }

  function AllCompleted(cbs: seq<Cb>): seq<Completion> {
    seq(|cbs|, i requires 0 <= i < |cbs| => Completed(cbs[i], 0))
  }

  /** `descq_mm_n_h2c_wb` when the writeback word of the ring says `cidxHw`. */
  function Writeback(q: Q, cidxHw: nat): Q
    requires Ok(q) && cidxHw < |q.ring|
  {
    if q.pidx == q.cidx || cidxHw == q.cidx then q else
      var n := Dist(q.cidx, cidxHw, |q.ring|);
      var s := Spend(q.pend, n + q.credit);
      q.(cidx := cidxHw, avail := q.avail + n, credit := s.credit,
         pend := s.pend, done := q.done + AllCompleted(s.done))
  }

  function Submit(q: Q, req: Req): Q {
    q.(work := q.work + [Cb(req, 0, 0)])
  }

  /** The `i`-th request still queued, counting the pending ones first. */
  function Queued(q: Q, i: nat): Cb
    requires i < |q.pend| + |q.work|
  {
    (q.pend + q.work)[i]
  }

  /** A caller whose wait timed out takes its request off whichever list it is on. */
  function Unlink(q: Q, i: nat): Q
    requires i < |q.pend| + |q.work|
  {
    if i < |q.pend| then q.(pend := RemoveAt(q.pend, i))
    else q.(work := RemoveAt(q.work, i - |q.pend|))
  }
}
