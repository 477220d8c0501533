/** Every run of a queue: submitters, the worker thread, the hardware and the writeback service
    take turns in any order. The invariant ties the wrapped indices and the credit counter to
    absolute positions in the stream of all submitted elements. */
module QueueRun {
  import opened SgList
  import opened Ring
  import opened Queue

  /** What the driver asks of a request: elements that each fit one descriptor and add up to `count`. */
  predicate WellFormed(r: Req, kind: Kind) {
    r.sgl != [] && Small(r.sgl, Cap(kind)) && Bytes(r.sgl) == r.count < 0x1_0000_0000
  }

  /** `subs`: requests in submission order. `hwCidx`: where the hardware fetches next. `wbCidx`: the
      writeback word last posted, when `reported` descriptors were finished. `log`: all that was fetched. */
  datatype World = World(q: Q, subs: seq<Req>, hwCidx: nat, wbCidx: nat, reported: nat, log: seq<Desc>)

  datatype Step = Submitted(req: Req) | Worker | HwFetch | HwReport | Service | TimedOut(i: nat)

  ghost predicate InBounds(w: World) {
    Ok(w.q) && w.hwCidx < |w.q.ring| && w.wbCidx < |w.q.ring|
  }

  /** A timed-out caller may leave only while nothing was programmed for it; see `TimeoutExact`. */
  ghost predicate Enabled(w: World, s: Step) {
    InBounds(w) &&
    match s
    case Submitted(r) => WellFormed(r, w.q.kind)
    case HwFetch => w.hwCidx != w.q.pidx
    case TimedOut(i) => i < |w.q.pend| + |w.q.work| && Queued(w.q, i).descNr == 0
    case _ => true
  }

  ghost function Leave(w: World, i: nat): World
    requires i < |w.q.pend| + |w.q.work| && |w.q.done| + |w.q.pend| + |w.q.work| == |w.subs|
  {
    w.(q := Unlink(w.q, i), subs := RemoveAt(w.subs, |w.q.done| + i))
  }

  ghost predicate Next(w: World, s: Step, w': World) {
    Enabled(w, s) &&
    match s
    case Submitted(r) => w' == w.(q := Submit(w.q, r), subs := w.subs + [r])
    case Worker => w' == w.(q := WorkerPass(w.q))
    case HwFetch => w' == w.(hwCidx := Inc(w.hwCidx, |w.q.ring|), log := w.log + [w.q.ring[w.hwCidx]])
    case HwReport => w' == w.(wbCidx := w.hwCidx, reported := |w.log|)
    case Service => w' == w.(q := Writeback(w.q, w.wbCidx))
    case TimedOut(i) => |w.q.done| + |w.q.pend| + |w.q.work| == |w.subs| && w' == Leave(w, i)
  }

  ghost function Start(kind: Kind, rngsz: nat): World
    requires rngsz > 0
  {
    World(Init(kind, rngsz), [], 0, 0, 0, [])
  }

  ghost predicate Trace(kind: Kind, rngsz: nat, ws: seq<World>, steps: seq<Step>)
    requires rngsz > 0
  {
    && |ws| == |steps| + 1
    && ws[0] == Start(kind, rngsz)
    && forall i :: 0 <= i < |steps| ==> Next(ws[i], steps[i], ws[i + 1])
  }

  // ---------------------------------------------------------------------------
  // Absolute positions
  // ---------------------------------------------------------------------------

  /** All elements of all requests, in submission order. */
  ghost function Flat(subs: seq<Req>): seq<Sg> {
    if subs == [] then [] else Flat(subs[..|subs| - 1]) + subs[|subs| - 1].sgl
  }

  /** Where the first `i` requests end in that stream. */
  ghost function End(subs: seq<Req>, i: nat): nat
    requires i <= |subs|
  {
    if i == 0 then 0 else End(subs, i - 1) + |subs[i - 1].sgl|
  }

  lemma {:induction false} EndSame(a: seq<Req>, b: seq<Req>, i: nat)
    requires i <= |a| && i <= |b| && a[..i] == b[..i]
    ensures End(a, i) == End(b, i)
  {
    if i > 0 {
      assert a[..i - 1] == a[..i][..i - 1] == b[..i][..i - 1] == b[..i - 1];
      assert a[i - 1] == a[..i][i - 1] == b[..i][i - 1] == b[i - 1];
      EndSame(a, b, i - 1);
    }
  }

  lemma {:induction false} EndMonotone(subs: seq<Req>, i: nat, j: nat)
    requires i <= j <= |subs|
    ensures End(subs, i) <= End(subs, j)
  {
    if i < j {
      EndMonotone(subs, i, j - 1);
    }
  }

  lemma {:induction false} FlatEnd(subs: seq<Req>, i: nat)
    requires i <= |subs|
    ensures |Flat(subs)| == End(subs, |subs|)
    ensures End(subs, i) <= |Flat(subs)|
    ensures Flat(subs)[..End(subs, i)] == Flat(subs[..i])
    decreases |subs|
  {
    if subs == [] {
      assert subs[..i] == subs;
    } else {
      var front := subs[..|subs| - 1];
      FlatEnd(front, if i < |subs| then i else i - 1);
      EndSame(subs, front, |front|);
      if i < |subs| {
        EndSame(subs, front, i);
        assert front[..i] == subs[..i];
      } else {
        assert subs[..i] == subs;
      }
    }
  }

  /** Request `i` occupies exactly its own stretch of the stream. */
  lemma {:induction false} FlatAt(subs: seq<Req>, i: nat)
    requires i < |subs|
    ensures End(subs, i + 1) <= |Flat(subs)|
    ensures Flat(subs)[End(subs, i)..End(subs, i + 1)] == subs[i].sgl
  {
    FlatEnd(subs, i + 1);
    var upTo := subs[..i + 1];
    assert upTo[..i] == subs[..i];
    FlatEnd(subs, i);
    assert Flat(upTo) == Flat(subs[..i]) + subs[i].sgl;
  }

  /** Descriptors programmed so far. */
  ghost function Produced(w: World): nat
    requires |w.q.done| + |w.q.pend| <= |w.subs|
  {
    End(w.subs, |w.q.done| + |w.q.pend|) + (if w.q.work == [] then 0 else w.q.work[0].descNr)
  }

  /** Descriptors the writeback service has taken note of. */
  ghost function Observed(w: World): int
    requires |w.q.done| + |w.q.pend| <= |w.subs|
  {
    Produced(w) - (|w.q.ring| - 1 - w.q.avail)
  }

  // ---------------------------------------------------------------------------
  // The invariant
  // ---------------------------------------------------------------------------

  /** A work-list entry of which `descNr` elements are programmed. */
  ghost predicate Partial(cb: Cb) {
    cb.descNr < |cb.req.sgl| && cb.offset == Bytes(cb.req.sgl[..cb.descNr])
  }

  /** Finished, pending and waiting requests are the submitted ones, in that order; only the first
      waiting one can be partly programmed. */
  ghost predicate Lists(subs: seq<Req>, done: seq<Completion>, pend: seq<Cb>, work: seq<Cb>) {
    && |subs| == |done| + |pend| + |work|
    && (forall i :: 0 <= i < |done| ==> done[i] == Completion(subs[i], subs[i].count, 0))
    && (forall i :: 0 <= i < |pend| ==> pend[i].req == subs[|done| + i] && pend[i].offset == pend[i].req.count)
    && (forall i :: 0 <= i < |work| ==> work[i].req == subs[|done| + |pend| + i])
    && (forall i :: 0 < i < |work| ==> work[i].offset == 0 && work[i].descNr == 0)
    && (work != [] ==> Partial(work[0]))
  }

  ghost predicate AllWellFormed(subs: seq<Req>, kind: Kind) {
    forall i :: 0 <= i < |subs| ==> WellFormed(subs[i], kind)
  }

  /** Credit is what was observed beyond the `k` finished requests and not yet charged to a pending one. */
  ghost predicate Charged(subs: seq<Req>, k: nat, pend: seq<Cb>, credit: nat, observed: int) {
    && k + |pend| <= |subs|
    && End(subs, k) <= observed
    && (forall i :: 0 < i < |pend| ==> pend[i].descNr == |pend[i].req.sgl|)
    && (if pend == [] then credit == observed - End(subs, k)
        else
          && observed < End(subs, k + 1)
          && pend[0].descNr == End(subs, k + 1) - observed + credit
          && (credit == 0 || credit == observed - End(subs, k)))
  }

  ghost predicate Indices(w: World, p: nat, o: int) {
    var n := |w.q.ring|;
    && w.q.avail < n
    && 0 <= o <= w.reported <= |w.log| <= p
    && w.q.pidx == Slot(p, n) && w.q.cidx == Slot(o, n)
    && w.hwCidx == Slot(|w.log|, n) && w.wbCidx == Slot(w.reported, n)
  }

  /** The hardware has fetched, and still finds in the ring, the submitted elements in order. */
  ghost predicate Carries(kind: Kind, ring: seq<Desc>, log: seq<Desc>, p: nat, o: nat, flat: seq<Sg>) {
    && |ring| > 0
    && |log| <= |flat|
    && Hosts(kind, log) == flat[..|log|]
    && Holds(Hosts(kind, ring), o, p, flat)
  }

  ghost predicate Inv(w: World) {
    && |w.subs| == |w.q.done| + |w.q.pend| + |w.q.work|
    && Lists(w.subs, w.q.done, w.q.pend, w.q.work)
    && AllWellFormed(w.subs, w.q.kind)
    && Charged(w.subs, |w.q.done|, w.q.pend, w.q.credit, Observed(w))
    && Indices(w, Produced(w), Observed(w))
    && Carries(w.q.kind, w.q.ring, w.log, Produced(w), Observed(w), Flat(w.subs))
  }

  lemma {:induction false} InitCharged(subs: seq<Req>, k: nat, pend: seq<Cb>, o: int)
    requires k == 0 && pend == [] && o == 0
    ensures Charged(subs, k, pend, 0, o)
  {
  }

  lemma {:induction false} InitInv(kind: Kind, rngsz: nat)
    requires rngsz > 0
    ensures Inv(Start(kind, rngsz))
  {
    hide Charged;
    var w := Start(kind, rngsz);
    InitCharged(w.subs, |w.q.done|, w.q.pend, 0);
    assert Produced(w) == 0;
  }

  // --- Submit ---

  lemma {:induction false} EndGrow(subs: seq<Req>, r: Req, i: nat)
    requires i <= |subs|
    ensures End(subs + [r], i) == End(subs, i)
  {
    assert (subs + [r])[..i] == subs[..i];
    EndSame(subs + [r], subs, i);
  }

  lemma {:induction false} SubmitLists(subs: seq<Req>, done: seq<Completion>, pend: seq<Cb>, work: seq<Cb>, r: Req, kind: Kind)
    requires Lists(subs, done, pend, work) && WellFormed(r, kind)
    ensures |subs| == |done| + |pend| + |work|
    ensures Lists(subs + [r], done, pend, work + [Cb(r, 0, 0)])
  {
  }

  lemma {:induction false} SubmitCharged(subs: seq<Req>, k: nat, pend: seq<Cb>, credit: nat, o: int, r: Req)
    requires Charged(subs, k, pend, credit, o)
    ensures Charged(subs + [r], k, pend, credit, o)
  {
    EndGrow(subs, r, k);
    if pend != [] { EndGrow(subs, r, k + 1); }
  }

  lemma {:induction false} SubmitCarries(kind: Kind, ring: seq<Desc>, log: seq<Desc>, p: nat, o: nat, subs: seq<Req>, r: Req)
    requires Carries(kind, ring, log, p, o, Flat(subs))
    ensures Carries(kind, ring, log, p, o, Flat(subs + [r]))
  {
    hide Hosts;
    assert (subs + [r])[..|subs|] == subs;
    assert Flat(subs + [r]) == Flat(subs) + r.sgl;
  }

  lemma {:induction false} SubmitInv(w: World, r: Req)
    requires Inv(w) && WellFormed(r, w.q.kind)
    ensures Inv(w.(q := Submit(w.q, r), subs := w.subs + [r]))
  {
    hide Lists, Charged, Carries, WellFormed, End;
    var q, w' := w.q, w.(q := Submit(w.q, r), subs := w.subs + [r]);
    SubmitLists(w.subs, q.done, q.pend, q.work, r, q.kind);
    EndGrow(w.subs, r, |q.done| + |q.pend|);
    SubmitCharged(w.subs, |q.done|, q.pend, q.credit, Observed(w), r);
    SubmitCarries(q.kind, q.ring, w.log, Produced(w), Observed(w), w.subs, r);
    assert Produced(w') == Produced(w);
  }

  // --- Worker ---

  lemma {:induction false} ResumeAt(cb: Cb, kind: Kind)
    requires WellFormed(cb.req, kind) && Partial(cb)
    ensures Resume(cb) == Found(cb.descNr, 0)
  {
    var sgl, f := cb.req.sgl, cb.descNr;
    assert sgl[..0] == [];
    if f > 0 {
      PrefixesGrow(sgl, 0, f);
      FindBoundary(sgl, f);
    }
  }

  /** What one pass does to a half-programmed, well-formed request: the next elements, no gap, no repeat. */
  lemma {:induction false} HeadPass(cb: Cb, kind: Kind, avail: nat, n: nat)
    requires WellFormed(cb.req, kind) && Partial(cb) && avail > 0
    requires n == Min(avail, |cb.req.sgl| - cb.descNr)
    ensures var pieces := Emit(cb.req.sgl, cb.descNr, Cap(kind), avail);
            && pieces == cb.req.sgl[cb.descNr..cb.descNr + n]
            && cb.offset + Bytes(pieces) == Bytes(cb.req.sgl[..cb.descNr + n])
            && (cb.offset + Bytes(pieces) == cb.req.count <==> cb.descNr + n == |cb.req.sgl|)
  {
    var sgl, f := cb.req.sgl, cb.descNr;
    hide Split, Bytes;
    SplitSmall(sgl[f..], Cap(kind));
    assert sgl[f..][..n] == sgl[f..f + n];
    BytesPrefix(sgl, f, f + n);
    assert sgl[..|sgl|] == sgl;
    if f + n < |sgl| {
      PrefixesGrow(sgl, f + n, |sgl|);
    }
  }

  lemma {:induction false} HostsStore(kind: Kind, ring: seq<Desc>, p: nat, ep: nat, pieces: seq<Sg>)
    requires p < |ring| && |pieces| <= |ring|
    ensures Hosts(kind, Store(ring, p, Descs(kind, ep, pieces))) == Store(Hosts(kind, ring), p, pieces)
  {
  }

  /** Processing the first waiting request programs its next elements, as many as there are free slots. */
  lemma {:induction false} ProcHead(q: Q, n: nat)
    requires Ok(q) && q.work != [] && q.avail > 0
    requires WellFormed(q.work[0].req, q.kind) && Partial(q.work[0])
    requires n == Min(q.avail, |q.work[0].req.sgl| - q.work[0].descNr)
    ensures n > 0
    ensures var cb := q.work[0];
            Proc(q, 0) == Program(q, 0, cb.req.sgl[cb.descNr..cb.descNr + n])
  {
    hide WellFormed, Program, Split, Partial;
    assert n > 0 by { Positive(q, n); }
    var cb := q.work[0];
    ResumeAt(cb, q.kind);
    HeadPass(cb, q.kind, q.avail, n);
  }

  lemma {:induction false} Positive(q: Q, n: nat)
    requires q.work != [] && q.avail > 0 && Partial(q.work[0])
    requires n == Min(q.avail, |q.work[0].req.sgl| - q.work[0].descNr)
    ensures n > 0
  {
  }

  lemma {:induction false} MoveLists(subs: seq<Req>, done: seq<Completion>, pend: seq<Cb>, work: seq<Cb>, cb: Cb)
    requires Lists(subs, done, pend, work) && work != []
    requires cb.req == work[0].req && cb.offset == cb.req.count
    requires forall i :: 0 <= i < |subs| ==> subs[i].sgl != []
    ensures Lists(subs, done, pend + [cb], RemoveAt(work, 0))
  {
  }

  lemma {:induction false} KeepLists(subs: seq<Req>, done: seq<Completion>, pend: seq<Cb>, work: seq<Cb>, cb: Cb)
    requires Lists(subs, done, pend, work) && work != []
    requires cb.req == work[0].req && Partial(cb)
    ensures Lists(subs, done, pend, work[0 := cb])
  {
  }

  lemma {:induction false} MoveCharged(subs: seq<Req>, k: nat, pend: seq<Cb>, credit: nat, o: int, cb: Cb)
    requires Charged(subs, k, pend, credit, o) && k + |pend| < |subs|
    requires cb.req == subs[k + |pend|] && cb.descNr == |cb.req.sgl|
    requires o < End(subs, k + |pend| + 1)
    ensures Charged(subs, k, pend + [cb], credit, o)
  {
  }

  lemma {:induction false} NonEmptyAll(subs: seq<Req>, kind: Kind)
    requires AllWellFormed(subs, kind)
    ensures forall i :: 0 <= i < |subs| ==> subs[i].sgl != []
  {
  }

  /** The first waiting request is the one at place `k` of the submission order, half-way at `p`. */
  lemma {:induction false} HeadFacts(w: World)
    requires Inv(w) && w.q.work != []
    ensures var cb, k := w.q.work[0], |w.q.done| + |w.q.pend|;
            && k < |w.subs| && |w.subs| == k + |w.q.work|
            && cb.req == w.subs[k] && Partial(cb) && WellFormed(cb.req, w.q.kind)
            && Produced(w) == End(w.subs, k) + cb.descNr
            && End(w.subs, k + 1) == End(w.subs, k) + |cb.req.sgl|
  {
  }

  lemma {:induction false} Inner<T>(s: seq<T>, lo: nat, hi: nat, f: nat, n: nat)
    requires lo + f + n <= hi <= |s|
    ensures s[lo..hi][f..f + n] == s[lo + f..lo + f + n]
  {
    var a, b := s[lo..hi][f..f + n], s[lo + f..lo + f + n];
    assert forall t :: 0 <= t < n ==> a[t] == s[lo + f + t] == b[t];
    assert a == b;
  }

  lemma {:induction false} ProgramCarries(kind: Kind, ring: seq<Desc>, log: seq<Desc>, p: nat, o: nat, subs: seq<Req>, k: nat, f: nat, n: nat)
    requires Carries(kind, ring, log, p, o, Flat(subs))
    requires k < |subs| && p == End(subs, k) + f && f + n <= |subs[k].sgl| && o <= p
    requires p - o + n < |ring|
    ensures Carries(kind, Store(ring, Slot(p, |ring|), Descs(kind, subs[k].ep, subs[k].sgl[f..f + n])),
                    log, p + n, o, Flat(subs))
  {
    hide Hosts, Descs, Store, Flat;
    var pieces := subs[k].sgl[f..f + n];
    var flat := Flat(subs);
    FlatAt(subs, k);
    assert |flat| >= p + n && flat[p..p + n] == pieces by { Inner(flat, End(subs, k), End(subs, k + 1), f, n); }
    HostsStore(kind, ring, Slot(p, |ring|), subs[k].ep, pieces);
    StoreExtends(Hosts(kind, ring), o, p, flat, pieces);
  }

  /** The slots between the consumer and the producer index, which the hardware may still fetch, are as before. */
  ghost predicate Untouched(q: Q, q': Q)
    requires Ok(q) && |q'.ring| == |q.ring|
  {
    forall s :: 0 <= s < |q.ring| && Dist(q.cidx, s, |q.ring|) < Dist(q.cidx, q.pidx, |q.ring|) ==>
      q'.ring[s] == q.ring[s]
  }

  lemma {:induction false} ProgramUntouched(q: Q, q': Q, pieces: seq<Sg>)
    requires Ok(q) && q.work != [] && |pieces| <= q.avail && q' == Program(q, 0, pieces)
    requires Dist(q.cidx, q.pidx, |q.ring|) == |q.ring| - 1 - q.avail
    ensures Untouched(q, q')
  {
  }

  lemma {:induction false} UntouchedTrans(q: Q, q1: Q, q2: Q)
    requires Ok(q) && Ok(q1) && |q2.ring| == |q1.ring| == |q.ring| && q1.cidx == q.cidx
    requires Dist(q.cidx, q.pidx, |q.ring|) <= Dist(q.cidx, q1.pidx, |q.ring|)
    requires Untouched(q, q1) && Untouched(q1, q2)
    ensures Untouched(q, q2)
  {
  }

  /** Free slots and occupied slots add up, so the distance between the indices shows how full the ring is. */
  lemma {:induction false} Occupied(w: World)
    requires Inv(w) && Ok(w.q)
    ensures Dist(w.q.cidx, w.q.pidx, |w.q.ring|) == |w.q.ring| - 1 - w.q.avail == Produced(w) - Observed(w)
  {
    hide Lists, Charged, Carries, AllWellFormed, End, Slot;
    SlotDist(Observed(w), Produced(w) - Observed(w), |w.q.ring|);
  }

  /** One call for the first waiting request: `n` more of its elements reach the ring. */
  lemma {:induction false} ProcInv(w: World, w': World, n: nat)
    requires Inv(w) && w.q.work != [] && w.q.avail > 0 && Ok(w.q)
    requires n == Min(w.q.avail, |w.q.work[0].req.sgl| - w.q.work[0].descNr)
    requires w' == w.(q := Proc(w.q, 0))
    ensures Inv(w') && Ok(w'.q)
    ensures Produced(w') == Produced(w) + n && Observed(w') == Observed(w)
    ensures w'.q.avail == w.q.avail - n && w'.q.done == w.q.done && |w'.q.ring| == |w.q.ring|
    ensures |w'.q.work| == |w.q.work| - (if n == |w.q.work[0].req.sgl| - w.q.work[0].descNr then 1 else 0)
    ensures w'.q.cidx == w.q.cidx && Untouched(w.q, w'.q)
  {
    hide Untouched, Dist, Lists, Charged, Carries, Partial, WellFormed, AllWellFormed, Proc, Emit, Store, Descs, End, Slot, Bytes;
    HeadFacts(w);
    var q, cb, k, p := w.q, w.q.work[0], |w.q.done| + |w.q.pend|, Produced(w);
    ProcHead(q, n);
    HeadPass(cb, q.kind, q.avail, n);
    assert cb.descNr + n <= |cb.req.sgl| by { PartialBound(cb); }
    var pieces := cb.req.sgl[cb.descNr..cb.descNr + n];
    var cb' := Cb(cb.req, cb.offset + Bytes(pieces), cb.descNr + n);
    SlotAdvance(p, n, |q.ring|);
    Occupied(w);
    ProgramUntouched(q, w'.q, pieces);
    ProgramCarries(q.kind, q.ring, w.log, p, Observed(w), w.subs, k, cb.descNr, n);
    NonEmptyAll(w.subs, q.kind);
    if cb'.offset == cb.req.count {
      MoveLists(w.subs, q.done, q.pend, q.work, cb');
      MoveCharged(w.subs, |q.done|, q.pend, q.credit, Observed(w), cb');
      HeadUnprogrammed(w.subs, q.done, q.pend, q.work);
    } else {
      assert Partial(cb') by { MakePartial(cb'); }
      KeepLists(w.subs, q.done, q.pend, q.work, cb');
    }
  }

  lemma {:induction false} PartialBound(cb: Cb)
    requires Partial(cb)
    ensures cb.descNr < |cb.req.sgl|
  {
  }

  lemma {:induction false} MakePartial(cb: Cb)
    requires cb.descNr < |cb.req.sgl| && cb.offset == Bytes(cb.req.sgl[..cb.descNr])
    ensures Partial(cb)
  {
  }

  lemma {:induction false} HeadUnprogrammed(subs: seq<Req>, done: seq<Completion>, pend: seq<Cb>, work: seq<Cb>)
    requires Lists(subs, done, pend, work)
    ensures |work| > 1 ==> work[1].descNr == 0
  {
  }

  /** A worker pass keeps the invariant and programs all it can: it stops only when no slot or no work is left. */
  lemma {:induction false} WorkerInv(w: World, w': World)
    requires Inv(w) && Ok(w.q) && w' == w.(q := WorkerPass(w.q))
    ensures Inv(w') && Ok(w'.q)
    ensures w'.q.avail == 0 || w'.q.work == []
    ensures w'.q.done == w.q.done && |w'.q.ring| == |w.q.ring| && w'.q.kind == w.q.kind
    ensures Observed(w') == Observed(w)
    ensures Produced(w') == Min(Produced(w) + w.q.avail, End(w.subs, |w.subs|))
    ensures Untouched(w.q, w'.q)
    decreases |w.q.work|
  {
    hide Charged, Carries, WellFormed, Partial, Proc, Slot, End, Dist, Untouched;
    UntouchedSelf(w.q);
    var k := |w.q.done| + |w.q.pend|;
    if w.q.work != [] {
      HeadFacts(w);
      PartialBound(w.q.work[0]);
      EndMonotone(w.subs, k + 1, |w.subs|);
      if w.q.avail == 0 {
        ProcFull(w.q);
      } else {
        var n := Min(w.q.avail, |w.q.work[0].req.sgl| - w.q.work[0].descNr);
        var w1 := w.(q := Proc(w.q, 0));
        ProcInv(w, w1, n);
        if w1.q.avail > 0 {
          WorkerInv(w1, w');
          Occupied(w);
          Occupied(w1);
          UntouchedTrans(w.q, w1.q, w'.q);
        }
      }
    }
  }

  lemma {:induction false} UntouchedSelf(q: Q)
    requires Ok(q)
    ensures Untouched(q, q)
  {
  }

  lemma {:induction false} ProcFull(q: Q)
    requires Ok(q) && q.work != [] && q.avail == 0
    ensures Proc(q, 0) == q
  {
  }

  // --- Hardware ---

  lemma {:induction false} FetchCarries(kind: Kind, ring: seq<Desc>, log: seq<Desc>, p: nat, o: nat, flat: seq<Sg>, d: Desc)
    requires Carries(kind, ring, log, p, o, flat) && o <= |log| < p
    requires d == ring[Slot(|log|, |ring|)]
    ensures Carries(kind, ring, log + [d], p, o, flat)
  {
  }

  lemma {:induction false} FetchInv(w: World, w': World)
    requires Inv(w) && Next(w, HwFetch, w')
    ensures Inv(w') && Produced(w') == Produced(w) && Observed(w') == Observed(w)
  {
    hide Lists, Charged, Carries, AllWellFormed;
    assert |w.log| != Produced(w);
    FetchCarries(w.q.kind, w.q.ring, w.log, Produced(w), Observed(w), Flat(w.subs), w.q.ring[w.hwCidx]);
    assert w'.hwCidx == Slot(|w.log| + 1, |w.q.ring|);
  }

  // --- Writeback service ---

  /** Spending credit finishes exactly the pending requests whose end has been reached. */
  lemma {:induction false} SpendExact(pend: seq<Cb>, subs: seq<Req>, k: nat, base: nat, o: nat, s: Spent)
    requires k + |pend| <= |subs| && End(subs, k) <= base <= o
    requires forall i :: 0 <= i < |pend| ==> pend[i].req == subs[k + i] && pend[i].req.sgl != []
    requires forall i :: 0 < i < |pend| ==> pend[i].descNr == |pend[i].req.sgl|
    requires if pend == [] then base == End(subs, k)
             else base < End(subs, k + 1) && pend[0].descNr == End(subs, k + 1) - base
    requires s == Spend(pend, o - base)
    ensures |s.done| <= |pend| && s.done == pend[..|s.done|] && |s.pend| == |pend| - |s.done|
    ensures forall i :: 0 <= i < |s.pend| ==>
              s.pend[i].req == pend[|s.done| + i].req && s.pend[i].offset == pend[|s.done| + i].offset
    ensures Charged(subs, k + |s.done|, s.pend, s.credit, o)
    ensures s.credit == 0 || s.pend == []
    decreases |pend|
  {
    hide End, Charged;
    if pend == [] || o <= End(subs, k + 1) {
      SpendHead(pend, subs, k, base, o, s);
    } else {
      var rest := pend[1..];
      assert forall i :: 0 <= i < |rest| ==> rest[i] == pend[i + 1];
      EndStep(subs, k);
      if rest != [] {
        assert rest[0].req == subs[k + 1];
        EndStep(subs, k + 1);
      }
      SpendExact(rest, subs, k + 1, End(subs, k + 1), o, Spend(rest, o - End(subs, k + 1)));
    }
  }

  lemma {:induction false} EndStep(subs: seq<Req>, k: nat)
    requires k < |subs|
    ensures End(subs, k + 1) == End(subs, k) + |subs[k].sgl|
  {
  }

  lemma {:induction false} SpendHead(pend: seq<Cb>, subs: seq<Req>, k: nat, base: nat, o: nat, s: Spent)
    requires k + |pend| <= |subs| && End(subs, k) <= base <= o
    requires forall i :: 0 <= i < |pend| ==> pend[i].req == subs[k + i] && pend[i].req.sgl != []
    requires forall i :: 0 < i < |pend| ==> pend[i].descNr == |pend[i].req.sgl|
    requires if pend == [] then base == End(subs, k)
             else base < End(subs, k + 1) && pend[0].descNr == End(subs, k + 1) - base && o <= End(subs, k + 1)
    requires s == Spend(pend, o - base)
    ensures |s.done| <= |pend| && s.done == pend[..|s.done|] && |s.pend| == |pend| - |s.done|
    ensures forall i :: 0 <= i < |s.pend| ==>
              s.pend[i].req == pend[|s.done| + i].req && s.pend[i].offset == pend[|s.done| + i].offset
    ensures Charged(subs, k + |s.done|, s.pend, s.credit, o)
    ensures s.credit == 0 || s.pend == []
  {
    hide End;
    if |pend| > 1 && o == End(subs, k + 1) {
      assert pend[1].req == subs[k + 1];
      EndStep(subs, k + 1);
    }
  }

  lemma {:induction false} SpendLists(subs: seq<Req>, done: seq<Completion>, pend: seq<Cb>, work: seq<Cb>, s: Spent)
    requires Lists(subs, done, pend, work)
    requires |s.done| <= |pend| && s.done == pend[..|s.done|] && |s.pend| == |pend| - |s.done|
    requires forall i :: 0 <= i < |s.pend| ==>
               s.pend[i].req == pend[|s.done| + i].req && s.pend[i].offset == pend[|s.done| + i].offset
    ensures Lists(subs, done + AllCompleted(s.done), s.pend, work)
  {
  }

  lemma {:induction false} ServiceSpends(w: World, s: Spent)
    requires Inv(w) && w.reported > Observed(w)
    requires s == Spend(w.q.pend, w.reported - Observed(w) + w.q.credit)
    ensures |s.done| <= |w.q.pend| && s.done == w.q.pend[..|s.done|] && |s.pend| == |w.q.pend| - |s.done|
    ensures Charged(w.subs, |w.q.done| + |s.done|, s.pend, s.credit, w.reported)
    ensures s.credit == 0 || s.pend == []
    ensures Lists(w.subs, w.q.done + AllCompleted(s.done), s.pend, w.q.work)
  {
    hide Carries, AllWellFormed, AllCompleted, Lists, End, Spend, Slot;
    NonEmptyAll(w.subs, w.q.kind);
    PendReqs(w.subs, w.q.done, w.q.pend, w.q.work);
    SpendExact(w.q.pend, w.subs, |w.q.done|, Observed(w) - w.q.credit, w.reported, s);
    SpendLists(w.subs, w.q.done, w.q.pend, w.q.work, s);
  }

  lemma {:induction false} PendReqs(subs: seq<Req>, done: seq<Completion>, pend: seq<Cb>, work: seq<Cb>)
    requires Lists(subs, done, pend, work)
    ensures forall i :: 0 <= i < |pend| ==> pend[i].req == subs[|done| + i]
  {
  }

  lemma {:induction false} Narrow<T>(ring: seq<T>, lo: nat, lo': nat, hi: nat, stream: seq<T>)
    requires |ring| > 0 && Holds(ring, lo, hi, stream) && lo <= lo'
    ensures Holds(ring, lo', hi, stream)
  {
  }

  /** The writeback step takes note of all that the hardware has reported, neither more nor less. */
  lemma {:induction false} ServiceInv(w: World, w': World)
    requires Inv(w) && Ok(w.q) && w.wbCidx < |w.q.ring| && w' == w.(q := Writeback(w.q, w.wbCidx))
    ensures Inv(w')
    ensures Observed(w') == w.reported && Produced(w') == Produced(w)
    ensures w.reported > Observed(w) ==> w'.q.credit == 0 || w'.q.pend == []
  {
    hide Lists, Charged, AllWellFormed, Spend, Slot, End, Hosts, Holds;
    var q, n, o, p := w.q, |w.q.ring|, Observed(w), Produced(w);
    SlotDist(o, w.reported - o, n);
    SlotDist(o, p - o, n);
    if w.reported > o {
      var s := Spend(q.pend, w.reported - o + q.credit);
      ServiceSpends(w, s);
      Narrow(Hosts(q.kind, q.ring), o, w.reported, p, Flat(w.subs));
      assert w'.q.done == q.done + AllCompleted(s.done);
      assert |w'.q.done| + |w'.q.pend| == |q.done| + |q.pend|;
    }
  }

  // --- A caller whose wait timed out ---

  lemma {:induction false} FlatCut(subs: seq<Req>, i: nat, upTo: nat)
    requires i < |subs| && upTo <= End(subs, i)
    ensures upTo <= |Flat(RemoveAt(subs, i))| && upTo <= |Flat(subs)|
    ensures Flat(RemoveAt(subs, i))[..upTo] == Flat(subs)[..upTo]
  {
    var subs' := RemoveAt(subs, i);
    FlatEnd(subs, i);
    FlatEnd(subs', i);
    assert subs'[..i] == subs[..i];
    EndSame(subs', subs, i);
    assert Flat(subs)[..upTo] == Flat(subs)[..End(subs, i)][..upTo];
    assert Flat(subs')[..upTo] == Flat(subs')[..End(subs, i)][..upTo];
  }

  lemma {:induction false} EndCut(subs: seq<Req>, i: nat, t: nat)
    requires t <= i < |subs|
    ensures End(RemoveAt(subs, i), t) == End(subs, t)
  {
    assert RemoveAt(subs, i)[..t] == subs[..t];
    EndSame(RemoveAt(subs, i), subs, t);
  }

  lemma {:induction false} CutLists(subs: seq<Req>, done: seq<Completion>, pend: seq<Cb>, work: seq<Cb>, j: nat)
    requires Lists(subs, done, pend, work) && j < |work| && work[j].descNr == 0
    requires forall i :: 0 <= i < |subs| ==> subs[i].sgl != []
    ensures Lists(RemoveAt(subs, |done| + |pend| + j), done, pend, RemoveAt(work, j))
  {
    var work', subs', b := RemoveAt(work, j), RemoveAt(subs, |done| + |pend| + j), |done| + |pend|;
    RemovedAt(work, j);
    RemovedAt(subs, b + j);
    hide RemoveAt;
    if work' != [] && j == 0 {
      assert work'[0].req == subs[b + 1];
      assert work'[0].req.sgl[..0] == [];
    }
  }

  lemma {:induction false} RemovedAt<T>(s: seq<T>, i: nat)
    requires i < |s|
    ensures |RemoveAt(s, i)| == |s| - 1
    ensures forall t :: 0 <= t < |s| - 1 ==> RemoveAt(s, i)[t] == if t < i then s[t] else s[t + 1]
  {
  }

  lemma {:induction false} CutCharged(subs: seq<Req>, k: nat, pend: seq<Cb>, credit: nat, o: int, i: nat)
    requires Charged(subs, k, pend, credit, o) && k + |pend| <= i < |subs|
    ensures Charged(RemoveAt(subs, i), k, pend, credit, o)
  {
    hide End;
    EndCut(subs, i, k);
    if pend != [] { EndCut(subs, i, k + 1); }
  }

  lemma {:induction false} CutCarries(kind: Kind, ring: seq<Desc>, log: seq<Desc>, p: nat, o: nat, flat: seq<Sg>, flat': seq<Sg>)
    requires Carries(kind, ring, log, p, o, flat) && |log| <= p
    requires p <= |flat'| && flat'[..p] == flat[..p]
    ensures Carries(kind, ring, log, p, o, flat')
  {
  }

  /** Pending requests all have descriptors to their name. */
  lemma {:induction false} PendingProgrammed(w: World, i: nat)
    requires Inv(w) && i < |w.q.pend|
    ensures w.q.pend[i].descNr > 0
  {
  }

  lemma {:induction false} CutWellFormed(subs: seq<Req>, kind: Kind, i: nat)
    requires AllWellFormed(subs, kind) && i < |subs|
    ensures AllWellFormed(RemoveAt(subs, i), kind)
  {
  }

  lemma {:induction false} LeaveInv(w: World, i: nat)
    requires Inv(w) && i < |w.q.pend| + |w.q.work| && Queued(w.q, i).descNr == 0
    ensures Inv(Leave(w, i)) && Produced(Leave(w, i)) == Produced(w)
  {
    hide Lists, Charged, Carries, AllWellFormed, End, Flat, Slot;
    var q, k, m := w.q, |w.q.done|, |w.q.pend|;
    if i < m {
      PendingProgrammed(w, i);
      assert false;
    }
    NonEmptyAll(w.subs, q.kind);
    CutLists(w.subs, q.done, q.pend, q.work, i - m);
    CutWellFormed(w.subs, q.kind, k + i);
    CutCharged(w.subs, k, q.pend, q.credit, Observed(w), k + i);
    CutProduced(w, i - m);
    ProducedBefore(w, k + i);
    FlatCut(w.subs, k + i, Produced(w));
    CutCarries(q.kind, q.ring, w.log, Produced(w), Observed(w), Flat(w.subs), Flat(RemoveAt(w.subs, k + i)));
  }

  lemma {:induction false} CutProduced(w: World, j: nat)
    requires Inv(w) && j < |w.q.work| && w.q.work[j].descNr == 0
    ensures Produced(Leave(w, |w.q.pend| + j)) == Produced(w)
  {
    hide Charged, Carries, AllWellFormed, End, Flat, Slot, Indices;
    var k := |w.q.done| + |w.q.pend|;
    EndCut(w.subs, k + j, k);
    HeadUnprogrammed(w.subs, w.q.done, w.q.pend, w.q.work);
    var w' := Leave(w, |w.q.pend| + j);
    if w'.q.work != [] {
      assert w'.q.work[0] == if j == 0 then w.q.work[1] else w.q.work[0];
    }
  }

  lemma {:induction false} ProducedBefore(w: World, i: nat)
    requires Inv(w) && |w.q.done| + |w.q.pend| <= i < |w.subs|
    requires w.q.work[i - |w.q.done| - |w.q.pend|].descNr == 0
    ensures Produced(w) <= End(w.subs, i)
  {
    hide Charged, Carries, AllWellFormed;
    var k := |w.q.done| + |w.q.pend|;
    if i > k {
      EndMonotone(w.subs, k + 1, i);
    }
  }

  // --- All steps ---

  lemma {:induction false} NextInv(w: World, s: Step, w': World)
    requires Inv(w) && Next(w, s, w')
    ensures Inv(w')
    ensures |w'.q.ring| == |w.q.ring| && w'.q.kind == w.q.kind
  {
    hide Lists, Charged, Carries, AllWellFormed, WellFormed, WorkerPass, Slot, Spend, Observed, Produced;
    match s
    case Submitted(r) => SubmitInv(w, r);
    case Worker => WorkerInv(w, w');
    case HwFetch => FetchInv(w, w');
    case HwReport => ReportInv(w, w');
    case Service => ServiceInv(w, w');
    case TimedOut(i) => LeaveInv(w, i);
  }

  lemma {:induction false} ReportInv(w: World, w': World)
    requires Inv(w) && w' == w.(wbCidx := w.hwCidx, reported := |w.log|)
    ensures Inv(w') && Produced(w') == Produced(w) && Observed(w') == Observed(w)
  {
    hide Lists, Charged, Carries, AllWellFormed, Slot;
  }

  /** The invariant holds in every state of every run. */
  lemma {:induction false} TraceInv(kind: Kind, rngsz: nat, ws: seq<World>, steps: seq<Step>, i: nat)
    requires rngsz > 0 && Trace(kind, rngsz, ws, steps) && i < |ws|
    ensures Inv(ws[i]) && |ws[i].q.ring| == rngsz && ws[i].q.kind == kind
  {
    hide Inv, Next;
    if i == 0 {
      InitInv(kind, rngsz);
    } else {
      TraceInv(kind, rngsz, ws, steps, i - 1);
      assert Next(ws[i - 1], steps[i - 1], ws[i - 1 + 1]);
      NextInv(ws[i - 1], steps[i - 1], ws[i]);
    }
  }
}
