/** One request programmed over any number of passes: which bytes the descriptors name on the host
    side and, for memory-mapped queues, on the endpoint side. */
module Payload {
  import opened SgList
  import opened Ring
  import opened Queue
  import opened QueueRun

  datatype Status = Active | Moved | Failed

  /** `out`: every descriptor programmed for the request so far. */
  datatype Progress = Progress(cb: Cb, out: seq<Desc>, status: Status)

  /** One call of the request-processing routine with `avail` free slots. */
  function Pass(kind: Kind, s: Progress, avail: nat): Progress {
    if avail == 0 || s.status != Active then s else
      match Resume(s.cb)
      case OutOfRange => s.(status := Failed)
      case Found(start, _) =>
        var pieces := Emit(s.cb.req.sgl, start, Cap(kind), avail);
        if kind.Mm? && pieces == [] then s.(status := Failed) else
          var cb := s.cb.(offset := s.cb.offset + Bytes(pieces), descNr := s.cb.descNr + |pieces|);
          Progress(cb, s.out + Descs(kind, cb.req.ep, pieces), if cb.offset == cb.req.count then Moved else Active)
  }

  function Passes(kind: Kind, req: Req, avails: seq<nat>): Progress {
    if avails == [] then Progress(Cb(req, 0, 0), [], Active)
    else Pass(kind, Passes(kind, req, avails[..|avails| - 1]), avails[|avails| - 1])
  }

  /** A pass is what the queue does to the first request of its work list: the descriptors it adds go to the ring from
      the producer index on, and nothing else there changes. */
  lemma {:induction false} ProcIsPass(q: Q, out: seq<Desc>)
    requires Ok(q) && q.work != []
    ensures var s := Pass(q.kind, Progress(q.work[0], out, Active), q.avail);
            var q' := Proc(q, 0);
            && out <= s.out && |s.out| - |out| <= q.avail
            && (var added := s.out[|out|..];
                && q'.ring == Store(q.ring, q.pidx, added) && q'.pidx == Advance(q.pidx, |q.ring|, |added|)
                && q'.avail == q.avail - |added| && q'.cidx == q.cidx && q'.credit == q.credit)
            && match s.status
               case Active => q'.work == q.work[0 := s.cb] && q'.pend == q.pend && q'.done == q.done
               case Moved => q'.work == q.work[1..] && q'.pend == q.pend + [s.cb] && q'.done == q.done
               case Failed => q'.work == q.work[1..] && q'.pend == q.pend && |q'.done| == |q.done| + 1
  {
    hide Store, Descs, Split, Bytes;
    StoreNone(q.ring, q.pidx);
    assert RemoveAt(q.work, 0) == q.work[1..];
    assert q.work[0 := q.work[0]] == q.work;
    var s := Pass(q.kind, Progress(q.work[0], out, Active), q.avail);
    if q.avail == 0 || ReturnCode(q, 0) < 0 {
      assert s.out[|out|..] == [];
    } else {
      var ds := Descs(q.kind, s.cb.req.ep, Emit(q.work[0].req.sgl, Resume(q.work[0]).idx, Cap(q.kind), q.avail));
      assert s.out == out + ds;
      assert s.out[|out|..] == ds;
    }
  }

  // ---------------------------------------------------------------------------
  // Exactly once
  // ---------------------------------------------------------------------------

  /** The descriptors name the request's pieces in order, and it is handed on when all are there. */
  ghost predicate ExactlyOnce(kind: Kind, req: Req, avails: seq<nat>) {
    var s, all := Passes(kind, req, avails), Split(req.sgl, Cap(kind));
    && s.status != Failed
    && Hosts(kind, s.out) <= all
    && (s.status == Moved <==> Hosts(kind, s.out) == all)
  }

  ghost predicate OnTrack(kind: Kind, s: Progress, req: Req) {
    && s.cb.req == req
    && match s.status
       case Active => Partial(s.cb) && Hosts(kind, s.out) == req.sgl[..s.cb.descNr]
       case Moved => Hosts(kind, s.out) == req.sgl
       case Failed => false
  }

  lemma {:induction false} HostsConcat(kind: Kind, a: seq<Desc>, b: seq<Desc>)
    ensures Hosts(kind, a + b) == Hosts(kind, a) + Hosts(kind, b)
  {
  }

  /** A pass of an unfinished, well-formed request with free slots: its next elements. */
  lemma {:induction false} PassGives(kind: Kind, s: Progress, avail: nat, n: nat)
    requires s.status == Active && WellFormed(s.cb.req, kind) && Partial(s.cb) && avail > 0
    requires n == Min(avail, |s.cb.req.sgl| - s.cb.descNr)
    ensures var cb, f := s.cb, s.cb.descNr;
            Pass(kind, s, avail) ==
            Progress(Cb(cb.req, Bytes(cb.req.sgl[..f + n]), f + n), s.out + Descs(kind, cb.req.ep, cb.req.sgl[f..f + n]),
                     if f + n == |cb.req.sgl| then Moved else Active)
  {
    assert n > 0;
    hide WellFormed, Partial, Bytes, Descs, Emit, Resume;
    ResumeAt(s.cb, kind);
    HeadPass(s.cb, kind, avail, n);
  }

  lemma {:induction false} PassTracks(kind: Kind, s: Progress, req: Req, n: nat)
    requires OnTrack(kind, s, req) && s.status == Active && s.cb.descNr + n <= |req.sgl|
    ensures var f := s.cb.descNr;
            OnTrack(kind, Progress(Cb(req, Bytes(req.sgl[..f + n]), f + n), s.out + Descs(kind, req.ep, req.sgl[f..f + n]),
                                   if f + n == |req.sgl| then Moved else Active), req)
  {
  }

  lemma {:induction false} PassOnTrack(kind: Kind, s: Progress, req: Req, avail: nat)
    requires WellFormed(req, kind) && OnTrack(kind, s, req)
    ensures OnTrack(kind, Pass(kind, s, avail), req)
  {
    hide WellFormed, Hosts, Bytes, Emit, Resume;
    if s.status == Active && avail > 0 {
      hide Descs;
      var n := Min(avail, |req.sgl| - s.cb.descNr);
      PassGives(kind, s, avail, n);
      PassTracks(kind, s, req, n);
    }
  }

  lemma {:induction false} PassesOnTrack(kind: Kind, req: Req, avails: seq<nat>)
    requires WellFormed(req, kind)
    ensures OnTrack(kind, Passes(kind, req, avails), req)
    decreases |avails|
  {
    if avails == [] {
      assert req.sgl[..0] == [];
    } else {
      PassesOnTrack(kind, req, avails[..|avails| - 1]);
      PassOnTrack(kind, Passes(kind, req, avails[..|avails| - 1]), req, avails[|avails| - 1]);
    }
  }

  lemma {:induction false} TrackedExactly(kind: Kind, req: Req, avails: seq<nat>)
    requires WellFormed(req, kind)
    ensures ExactlyOnce(kind, req, avails)
  {
    hide Passes, Hosts;
    PassesOnTrack(kind, req, avails);
    SplitSmall(req.sgl, Cap(kind));
  }

  /** Where element `k`, too big for one descriptor, begins in the list of pieces. */
  lemma {:induction false} BigElement(sgl: seq<Sg>, cap: nat, k: nat)
    requires cap > 0 && k < |sgl| && sgl[k].len > cap
    ensures var a, all := |Split(sgl[..k], cap)|, Split(sgl, cap);
            && a + 1 < |all| && all[..a] == Split(sgl[..k], cap)
            && all[a] == Sg(sgl[k].addr, cap)
            && all[a + 1].addr == sgl[k].addr + cap
            && Split(sgl[k..], cap)[0] == Sg(sgl[k].addr, cap)
            && Split(sgl[k..], cap) != []
  {
    assert sgl == sgl[..k] + sgl[k..];
    SplitConcat(sgl[..k], sgl[k..], cap);
    var e := sgl[k];
    assert sgl[k..][0] == e;
    var rest := Chunks(e.addr + cap, e.len - cap, cap);
    assert Chunks(e.addr, e.len, cap) == [Sg(e.addr, cap)] + rest;
    assert rest[0].addr == e.addr + cap;
    assert Split(sgl[k..], cap) == Chunks(e.addr, e.len, cap) + Split(sgl[k..][1..], cap);
  }

  /** The search, asked for a place inside element `k`, names element `k`. */
  lemma {:induction false} FindInside(sgl: seq<Sg>, k: nat, offset: nat)
    requires NonEmpty(sgl) && k < |sgl| && Bytes(sgl[..k]) < offset < Bytes(sgl[..k + 1])
    ensures Find(sgl, offset, 0, 0).Found? && Find(sgl, offset, 0, 0).idx == k
  {
    hide Bytes, Find;
    BytesPrefix(sgl, k + 1, |sgl|);
    assert sgl[..|sgl|] == sgl;
    FindMeans(sgl, offset);
    var r := Find(sgl, offset, 0, 0);
    var lo, hi := r.idx, if r.rest == 0 then r.idx else r.idx + 1;
    if r.rest == 0 {
      if lo < k { PrefixesGrow(sgl, lo, k); }
      if k + 1 < lo { PrefixesGrow(sgl, k + 1, lo); }
      assert false;
    }
    if lo < k && lo + 1 < k { PrefixesGrow(sgl, lo + 1, k); }
    if k + 1 < lo { PrefixesGrow(sgl, k + 1, lo); }
  }

  /** With an element too big for one descriptor, a ring that fills up inside it makes the driver start
      the element again. */
  lemma {:induction false} BigElementRepeats(kind: Kind, req: Req, k: nat)
    requires NonEmpty(req.sgl) && Bytes(req.sgl) == req.count
    requires k < |req.sgl| && req.sgl[k].len > Cap(kind)
    ensures !ExactlyOnce(kind, req, [|Split(req.sgl[..k], Cap(kind))| + 1, 1])
  {
    hide Split, Hosts, Descs, Find, Bytes;
    var sgl, cap := req.sgl, Cap(kind);
    var all, a := Split(sgl, cap), |Split(sgl[..k], cap)|;
    BigElement(sgl, cap, k);
    var avails := [a + 1, 1];
    assert avails[..1] == [a + 1] && avails[..1][..0] == [];
    var s0 := Progress(Cb(req, 0, 0), [], Active);
    var s1 := Pass(kind, s0, a + 1);
    assert Passes(kind, req, []) == s0;
    assert Passes(kind, req, avails[..1]) == s1;
    assert Passes(kind, req, avails) == Pass(kind, s1, 1);
    FirstStop(kind, req, k, s1);
    FindInside(sgl, k, s1.cb.offset);
    var again := [Sg(sgl[k].addr, cap)];
    assert Emit(sgl, k, cap, 1) == again;
    var s2 := Pass(kind, s1, 1);
    HostsDescs(kind, req.ep, again);
    HostsConcat(kind, s1.out, Descs(kind, req.ep, again));
    assert Hosts(kind, s2.out)[a + 1] == Sg(sgl[k].addr, cap);
  }

  lemma {:induction false} FirstStop(kind: Kind, req: Req, k: nat, s1: Progress)
    requires NonEmpty(req.sgl) && Bytes(req.sgl) == req.count
    requires k < |req.sgl| && req.sgl[k].len > Cap(kind)
    requires s1 == Pass(kind, Progress(Cb(req, 0, 0), [], Active), |Split(req.sgl[..k], Cap(kind))| + 1)
    ensures s1.status == Active && s1.cb.req == req
    ensures |s1.out| == |Split(req.sgl[..k], Cap(kind))| + 1
    ensures s1.cb.offset == Bytes(req.sgl[..k]) + Cap(kind)
    ensures Bytes(req.sgl[..k]) < s1.cb.offset < Bytes(req.sgl[..k + 1])
  {
    hide Split, Descs, Bytes;
    var sgl, cap := req.sgl, Cap(kind);
    var all, a := Split(sgl, cap), |Split(sgl[..k], cap)|;
    BigElement(sgl, cap, k);
    assert sgl[0..] == sgl;
    var pieces := all[..a + 1];
    assert Emit(sgl, 0, cap, a + 1) == pieces;
    BytesSnoc(all, a);
    SplitCovers(sgl[..k], cap);
    BytesSnoc(sgl, k);
    assert sgl[..|sgl|] == sgl;
    BytesPrefix(sgl, k + 1, |sgl|);
    assert [] + Descs(kind, req.ep, pieces) == Descs(kind, req.ep, pieces);
  }

  /** However the ring fills up, a request is programmed exactly once, without gap or repeat, and handed on
      when complete: if and only if each of its elements fits one descriptor. */
  lemma {:induction false} ExactlyOnceExact(kind: Kind, req: Req)
    requires req.sgl != [] && NonEmpty(req.sgl) && Bytes(req.sgl) == req.count < 0x1_0000_0000
    ensures (forall avails: seq<nat> :: ExactlyOnce(kind, req, avails)) <==> Small(req.sgl, Cap(kind))
  {
    hide ExactlyOnce;
    if Small(req.sgl, Cap(kind)) {
      forall avails: seq<nat> ensures ExactlyOnce(kind, req, avails) {
        TrackedExactly(kind, req, avails);
      }
    } else {
      var k :| 0 <= k < |req.sgl| && !(0 < req.sgl[k].len <= Cap(kind));
      BigElementRepeats(kind, req, k);
    }
  }

  /** A request whose elements do not add up to its byte count: programmed in one pass, it is handed on if and only if they
      do, and otherwise the next pass gives it up with all its descriptors in the ring. */
  lemma {:induction false} CountExact(kind: Kind, req: Req, a: nat, b: nat)
    requires req.sgl != [] && NonEmpty(req.sgl) && a >= |Split(req.sgl, Cap(kind))| && b > 0
    ensures var s1 := Pass(kind, Progress(Cb(req, 0, 0), [], Active), a);
            var s2 := Pass(kind, s1, b);
            && s1.cb == Cb(req, Bytes(req.sgl), |Split(req.sgl, Cap(kind))|) && s1.cb.descNr > 0
            && s1.status == (if Bytes(req.sgl) == req.count then Moved else Active)
            && (Bytes(req.sgl) != req.count ==> s2.status == Failed && s2.cb == s1.cb)
  {
    hide Split, Bytes, Descs, Find;
    var sgl := req.sgl;
    SplitCovers(sgl, Cap(kind));
    SomePieces(sgl, Cap(kind));
    assert sgl[0..] == sgl && sgl[..|sgl|] == sgl;
    var all := Split(sgl, Cap(kind));
    assert all[..|all|] == all;
    assert Emit(sgl, 0, Cap(kind), a) == all;
    BytesAtLeast(sgl);
    FindBoundary(sgl, |sgl|);
  }

  // ---------------------------------------------------------------------------
  // Memory-mapped queues: the endpoint side
  // ---------------------------------------------------------------------------

  function EpSide(c2h: bool, ds: seq<Desc>): (r: seq<Sg>)
    ensures |r| == |ds|
  {
    seq(|ds|, t requires 0 <= t < |ds| => Sg(if c2h then ds[t].src else ds[t].dst, ds[t].len))
  }

  /** Pieces laid end to end from `ep` on. */
  function Laid(ep: nat, pieces: seq<Sg>): (r: seq<Sg>)
    ensures |r| == |pieces|
  {
    seq(|pieces|, t requires 0 <= t < |pieces| => Sg(ep + Bytes(pieces[..t]), pieces[t].len))
  }

  lemma {:induction false} LaidTiles(ep: nat, pieces: seq<Sg>)
    ensures Addrs(Laid(ep, pieces)) == Run(ep, Bytes(pieces))
    decreases |pieces|
  {
    if pieces != [] {
      var n := |pieces| - 1;
      var front := pieces[..n];
      assert Laid(ep, pieces) == Laid(ep, front) + [Sg(ep + Bytes(front), pieces[n].len)] by {
        assert forall t :: 0 <= t <= n ==> pieces[..n][..t] == pieces[..t];
      }
      LaidTiles(ep, front);
      AddrsConcat(Laid(ep, front), [Sg(ep + Bytes(front), pieces[n].len)]);
      assert Addrs([Sg(ep + Bytes(front), pieces[n].len)]) == Run(ep + Bytes(front), pieces[n].len);
      BytesSnoc(pieces, n);
      assert pieces[..n + 1] == pieces;
    }
  }

  lemma {:induction false} TakePrefix(all: seq<Sg>, avail: nat)
    ensures Take(all, avail) <= all
    ensures Addrs(Take(all, avail)) <= Addrs(all)
  {
    var pieces := Take(all, avail);
    assert all == pieces + all[|pieces|..];
    AddrsConcat(pieces, all[|pieces|..]);
  }

  /** The first pass over any list of non-empty elements: the endpoint ranges tile the address range from
      `ep` on, the host ranges are the first bytes of the list, each length fits the length field, and
      the packet flags mark exactly the first and the last descriptor. */
  lemma {:induction false} MmFirstPass(c2h: bool, req: Req, avail: nat)
    requires req.sgl != [] && NonEmpty(req.sgl) && avail > 0
    ensures var s := Pass(Mm(c2h), Progress(Cb(req, 0, 0), [], Active), avail);
            && s.status != Failed && s.out != [] && |s.out| <= avail
            && Addrs(EpSide(c2h, s.out)) == Run(req.ep, s.cb.offset)
            && Addrs(Hosts(Mm(c2h), s.out)) <= Addrs(req.sgl)
            && |Addrs(Hosts(Mm(c2h), s.out))| == s.cb.offset
            && (forall t :: 0 <= t < |s.out| ==>
                  && 0 < s.out[t].len < 0x1000_0000
                  && (s.out[t].sop <==> t == 0) && (s.out[t].eop <==> t == |s.out| - 1))
  {
    hide Split, Addrs, Run, Bytes, Descs, EpSide, Laid, Hosts;
    var kind := Mm(c2h);
    assert req.sgl[0..] == req.sgl;
    var all := Split(req.sgl, Cap(kind));
    var pieces := Take(all, avail);
    SplitCovers(req.sgl, Cap(kind));
    assert all != [] by { SomePieces(req.sgl, Cap(kind)); }
    TakePrefix(all, avail);
    LaidTiles(req.ep, pieces);
    var ds := Descs(kind, req.ep, pieces);
    assert [] + ds == ds;
    EpSideDescs(c2h, req.ep, pieces);
    HostsDescs(kind, req.ep, pieces);
    AddrsLength(pieces);
    MmMarks(c2h, req.ep, pieces);
  }

  lemma {:induction false} MmMarks(c2h: bool, ep: nat, pieces: seq<Sg>)
    requires Small(pieces, DESC_BLEN_MAX)
    ensures var ds := Descs(Mm(c2h), ep, pieces);
            forall t :: 0 <= t < |ds| ==>
              0 < ds[t].len < 0x1000_0000 && (ds[t].sop <==> t == 0) && (ds[t].eop <==> t == |ds| - 1)
  {
  }

  lemma {:induction false} SomePieces(sgl: seq<Sg>, cap: nat)
    requires sgl != [] && NonEmpty(sgl) && cap > 0
    ensures Split(sgl, cap) != []
  {
  }

  /** A streaming descriptor names its piece and is a packet of its own. */
  lemma {:induction false} StreamMarks(ep: nat, pieces: seq<Sg>, t: nat)
    requires t < |pieces|
    ensures var d := Descs(StH2c, ep, pieces)[t];
            d.src == pieces[t].addr && d.len == pieces[t].len && d.sop && d.eop
  {
  }

  /** The endpoint ranges programmed so far tile the address range from `ep` on. */
  ghost predicate EndpointRight(c2h: bool, req: Req, out: seq<Desc>) {
    Addrs(EpSide(c2h, out)) == Run(req.ep, Bytes(Hosts(Mm(c2h), out)))
  }

  lemma {:induction false} OutGrows(kind: Kind, req: Req, avails: seq<nat>, n: nat)
    requires n <= |avails|
    ensures Passes(kind, req, avails[..n]).out <= Passes(kind, req, avails).out
    decreases |avails|
  {
    if n == |avails| {
      assert avails[..n] == avails;
    } else {
      var front := avails[..|avails| - 1];
      OutGrows(kind, req, front, n);
      assert front[..n] == avails[..n];
    }
  }

  lemma {:induction false} EpSideConcat(c2h: bool, a: seq<Desc>, b: seq<Desc>)
    ensures EpSide(c2h, a + b) == EpSide(c2h, a) + EpSide(c2h, b)
  {
  }

  lemma {:induction false} EpSideDescs(c2h: bool, ep: nat, pieces: seq<Sg>)
    ensures EpSide(c2h, Descs(Mm(c2h), ep, pieces)) == Laid(ep, pieces)
  {
  }

  /** What the first pass leaves, for elements of any length. */
  lemma {:induction false} FirstPass(kind: Kind, req: Req, avail: nat)
    requires req.sgl != [] && NonEmpty(req.sgl) && Bytes(req.sgl) == req.count && avail > 0
    ensures var all := Split(req.sgl, Cap(kind));
            var pieces, s := Take(all, avail), Pass(kind, Progress(Cb(req, 0, 0), [], Active), avail);
            && pieces != [] && s.out == Descs(kind, req.ep, pieces) && s.cb.req == req && Bytes(pieces) > 0
            && (if avail >= |all| then s.status == Moved
                else s.status == Active && 0 < s.cb.offset < req.count)
  {
    hide Split, Bytes, Descs;
    var all := Split(req.sgl, Cap(kind));
    var pieces := Take(all, avail);
    SplitCovers(req.sgl, Cap(kind));
    SomePieces(req.sgl, Cap(kind));
    assert req.sgl[0..] == req.sgl;
    BytesAtLeast(pieces);
    if avail < |all| {
      PrefixesGrow(all, avail, |all|);
      assert all[..|all|] == all;
    }
    assert [] + Descs(kind, req.ep, pieces) == Descs(kind, req.ep, pieces);
  }

  /** A pass over a half-programmed request adds at least one descriptor, numbered from the request's base again. */
  lemma {:induction false} LaterPass(kind: Kind, s: Progress, avail: nat) returns (more: seq<Sg>)
    requires var req := s.cb.req; req.sgl != [] && NonEmpty(req.sgl) && Bytes(req.sgl) == req.count
    requires s.status == Active && 0 < s.cb.offset < s.cb.req.count && avail > 0
    ensures more != [] && more[0].len > 0
    ensures Pass(kind, s, avail).out == s.out + Descs(kind, s.cb.req.ep, more)
  {
    hide Split, Bytes, Descs, Find;
    var req := s.cb.req;
    FindMeans(req.sgl, s.cb.offset);
    var i := Find(req.sgl, s.cb.offset, 0, 0).idx;
    assert req.sgl[..|req.sgl|] == req.sgl;
    SplitCovers(req.sgl[i..], Cap(kind));
    SomePieces(req.sgl[i..], Cap(kind));
    more := Emit(req.sgl, i, Cap(kind), avail);
  }

  /** A second pass starts again at the request's base address, so its first descriptor is misplaced. */
  lemma {:induction false} SecondPassMisplaced(c2h: bool, req: Req, first: seq<Sg>, more: seq<Sg>, out: seq<Desc>)
    requires Bytes(first) > 0 && more != [] && more[0].len > 0
    requires Descs(Mm(c2h), req.ep, first) + Descs(Mm(c2h), req.ep, more) <= out
    ensures !EndpointRight(c2h, req, out)
  {
    hide Descs, Bytes;
    var a, b := Descs(Mm(c2h), req.ep, first), Descs(Mm(c2h), req.ep, more);
    var rest := out[|a|..];
    assert out == a + rest;
    assert rest[0] == (a + b)[|a|] == b[0];
    EpSideConcat(c2h, a, rest);
    AddrsConcat(EpSide(c2h, a), EpSide(c2h, rest));
    EpSideDescs(c2h, req.ep, first);
    LaidTiles(req.ep, first);
    EpSideDescs(c2h, req.ep, more);
    assert more[..0] == [];
    assert Bytes(more[..0]) == 0 by { NoneBytes(); }
    assert EpSide(c2h, rest)[0] == Laid(req.ep, more)[0] == Sg(req.ep, more[0].len);
    assert Addrs(EpSide(c2h, rest))[0] == req.ep;
    assert Addrs(EpSide(c2h, out))[Bytes(first)] == req.ep;
  }

  lemma {:induction false} NoneBytes()
    ensures Bytes([]) == 0
  {
  }

  /** For elements of any length, the endpoint side of a request is right if and only if it was programmed in one pass. */
  lemma {:induction false} EndpointExact(c2h: bool, req: Req, avails: seq<nat>)
    requires req.sgl != [] && NonEmpty(req.sgl) && Bytes(req.sgl) == req.count
    requires forall i :: 0 <= i < |avails| ==> avails[i] > 0
    ensures EndpointRight(c2h, req, Passes(Mm(c2h), req, avails).out) <==>
            |avails| <= 1 || avails[0] >= |Split(req.sgl, Cap(Mm(c2h)))|
  {
    hide EndpointRight, Descs, Split, Bytes, Pass;
    var kind := Mm(c2h);
    if avails == [] {
      NothingRight(c2h, req);
    } else {
      var all := Split(req.sgl, Cap(kind));
      var pieces, s := Take(all, avails[0]), Pass(kind, Progress(Cb(req, 0, 0), [], Active), avails[0]);
      FirstPass(kind, req, avails[0]);
      PassesOne(kind, req, avails);
      if avails[0] >= |all| || |avails| == 1 {
        if |avails| > 1 { StaysMoved(kind, req, avails); } else { assert avails[..1] == avails; }
        PiecesRight(c2h, req, pieces);
      } else {
        var more := LaterPass(kind, s, avails[1]);
        assert avails[..2][..1] == avails[..1];
        OutGrows(kind, req, avails, 2);
        SecondPassMisplaced(c2h, req, pieces, more, Passes(kind, req, avails).out);
      }
    }
  }

  lemma {:induction false} PassesOne(kind: Kind, req: Req, avails: seq<nat>)
    requires avails != []
    ensures Passes(kind, req, avails[..1]) == Pass(kind, Progress(Cb(req, 0, 0), [], Active), avails[0])
  {
    hide Pass;
    assert avails[..1][..0] == [];
  }

  lemma {:induction false} NothingRight(c2h: bool, req: Req)
    ensures EndpointRight(c2h, req, [])
  {
  }

  lemma {:induction false} PiecesRight(c2h: bool, req: Req, pieces: seq<Sg>)
    ensures EndpointRight(c2h, req, Descs(Mm(c2h), req.ep, pieces))
  {
    HostsDescs(Mm(c2h), req.ep, pieces);
    EpSideDescs(c2h, req.ep, pieces);
    LaidTiles(req.ep, pieces);
  }

  lemma {:induction false} StaysMoved(kind: Kind, req: Req, avails: seq<nat>)
    requires avails != [] && Passes(kind, req, avails[..1]).status != Active
    ensures Passes(kind, req, avails) == Passes(kind, req, avails[..1])
    decreases |avails|
  {
    if |avails| == 1 {
      assert avails[..1] == avails;
    } else {
      var front := avails[..|avails| - 1];
      assert front[..1] == avails[..1];
      StaysMoved(kind, req, front);
    }
  }

  // ---------------------------------------------------------------------------
  // The length and flag word
  // ---------------------------------------------------------------------------

  function FlagLen(len: bv32, sop: bool, eop: bool): bv32 {
    len | (1 << 28) | (if eop then 1 << 30 else 0) | (if sop then 1 << 29 else 0)
  }

  /** A length and the flags are read back separately from the packed word if and only if the length is below 2^28. */
  lemma {:induction false} FlagLenDecodes(len: bv32, sop: bool, eop: bool)
    ensures FlagLen(len, sop, eop) & 0x0FFF_FFFF == len <==> len & 0xF000_0000 == 0
    ensures len & 0xF000_0000 == 0 ==>
              && FlagLen(len, sop, eop) & 0xF000_0000 ==
                 0x1000_0000 | (if sop then 0x2000_0000 else 0) | (if eop then 0x4000_0000 else 0)
  {
  }
}
