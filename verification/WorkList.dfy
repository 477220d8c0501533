/** A worker pass over any requests, well formed or not: unless the slots run out, every waiting request is visited, in
    order, and each is handed on, given up or left waiting by itself. */
module WorkList {
  import opened Common
  import opened SgList
  import opened Ring
  import opened Queue

  datatype Verdict = HandedOn(cb: Cb) | GivenUp(completion: Completion) | Waits(cb: Cb)

  /** What becomes of a request that is visited with slots to spare. */
  function Visit(kind: Kind, cb: Cb): Verdict {
    match Resume(cb)
    case OutOfRange => GivenUp(Completed(cb, -EINVAL))
    case Found(start, _) =>
      var pieces := Split(cb.req.sgl[start..], Cap(kind));
      if kind.Mm? && pieces == [] then GivenUp(Completed(cb, -EIO)) else
        var cb' := Cb(cb.req, cb.offset + Bytes(pieces), cb.descNr + |pieces|);
        if cb'.offset == cb.req.count then HandedOn(cb') else Waits(cb')
  }

  /** For non-empty elements: a request is given up if and only if all its elements are programmed already, or there are none
      and the queue is memory-mapped; the caller sees -EINVAL or -EIO, and a callback always -EINVAL. */
  lemma {:induction false} VisitExact(kind: Kind, cb: Cb)
    requires NonEmpty(cb.req.sgl) && cb.offset < cb.req.count
    ensures var total := Bytes(cb.req.sgl);
            var v := Visit(kind, cb);
            && (v.GivenUp? <==> (cb.offset > 0 && total <= cb.offset) || (cb.offset == 0 && cb.req.sgl == [] && kind.Mm?))
            && (v.GivenUp? ==> v.completion.req == cb.req && v.completion.offset == cb.offset)
            && (v.GivenUp? ==> v.completion.status == if cb.offset > 0 || cb.req.async then -EINVAL else -EIO)
  {
    hide Bytes, Split, Find;
    var sgl := cb.req.sgl;
    assert sgl[..|sgl|] == sgl && sgl[0..] == sgl;
    if cb.offset > 0 {
      FindFrom(sgl, cb.offset, 0);
      assert sgl[..0] == [];
      NoBytes();
      var r := Find(sgl, cb.offset, 0, 0);
      if r.Found? && r.rest == 0 && r.idx < |sgl| {
        PrefixesGrow(sgl, r.idx, |sgl|);
      }
      if r.Found? && r.rest > 0 {
        BytesPrefix(sgl, r.idx + 1, |sgl|);
      }
      if r.Found? && r.idx < |sgl| {
        Pieces(sgl[r.idx..], Cap(kind));
      }
    } else {
      Pieces(sgl, Cap(kind));
    }
  }

  lemma {:induction false} NoBytes()
    ensures Bytes([]) == 0
  {
  }

  lemma {:induction false} Pieces(sgl: seq<Sg>, cap: nat)
    requires cap > 0 && NonEmpty(sgl)
    ensures Split(sgl, cap) == [] <==> sgl == []
  {
  }

  function Handed(kind: Kind, cbs: seq<Cb>): seq<Cb> {
    if cbs == [] then [] else
      (if Visit(kind, cbs[0]).HandedOn? then [Visit(kind, cbs[0]).cb] else []) + Handed(kind, cbs[1..])
  }

  function Given(kind: Kind, cbs: seq<Cb>): seq<Completion> {
    if cbs == [] then [] else
      (if Visit(kind, cbs[0]).GivenUp? then [Visit(kind, cbs[0]).completion] else []) + Given(kind, cbs[1..])
  }

  function Waiting(kind: Kind, cbs: seq<Cb>): seq<Cb> {
    if cbs == [] then [] else
      (if Visit(kind, cbs[0]).Waits? then [Visit(kind, cbs[0]).cb] else []) + Waiting(kind, cbs[1..])
  }

  /** One call that leaves a slot free does what the visit says. */
  lemma {:induction false} ProcVisits(q: Q, i: nat)
    requires Ok(q) && i < |q.work| && Proc(q, i).avail > 0
    ensures var q' := Proc(q, i);
            match Visit(q.kind, q.work[i])
            case HandedOn(cb) => q'.work == RemoveAt(q.work, i) && q'.pend == q.pend + [cb] && q'.done == q.done
            case GivenUp(c) => q'.work == RemoveAt(q.work, i) && q'.pend == q.pend && q'.done == q.done + [c]
            case Waits(cb) => q'.work == q.work[i := cb] && q'.pend == q.pend && q'.done == q.done
  {
    hide Split, Store, Descs, Bytes, Find;
    var cb := q.work[i];
    if Resume(cb).Found? {
      var all := Split(cb.req.sgl[Resume(cb).idx..], Cap(q.kind));
      assert all[..|all|] == all;
    }
  }

  lemma {:induction false} LoopStep(q: Q, i: nat)
    requires Ok(q) && i < |q.work| && WorkLoop(q, i).avail > 0
    ensures var q' := Proc(q, i);
            q'.avail > 0 && WorkLoop(q, i) == WorkLoop(q', if |q'.work| < |q.work| then i else i + 1)
  {
    hide Proc;
  }

  /** The three lists of verdicts, one request at a time. */
  lemma {:induction false} Verdicts(kind: Kind, cbs: seq<Cb>)
    requires cbs != []
    ensures var v, rest := Visit(kind, cbs[0]), cbs[1..];
            && Waiting(kind, cbs) == (if v.Waits? then [v.cb] + Waiting(kind, rest) else Waiting(kind, rest))
            && Handed(kind, cbs) == (if v.HandedOn? then [v.cb] + Handed(kind, rest) else Handed(kind, rest))
            && Given(kind, cbs) == (if v.GivenUp? then [v.completion] + Given(kind, rest) else Given(kind, rest))
  {
    hide Visit;
  }

  lemma {:induction false} Assoc<T>(a: seq<T>, x: T, b: seq<T>)
    ensures (a + [x]) + b == a + ([x] + b)
  {
  }

  lemma {:induction false} Cuts<T>(pre: seq<T>, rest: seq<T>, x: T)
    requires rest != []
    ensures (pre + rest)[|pre|] == rest[0] && RemoveAt(pre + rest, |pre|) == pre + rest[1..]
    ensures (pre + rest)[|pre| := x] == (pre + [x]) + rest[1..]
  {
  }

  lemma {:induction false} LoopVisits(q: Q, pre: seq<Cb>, rest: seq<Cb>)
    requires Ok(q) && q.work == pre + rest && WorkLoop(q, |pre|).avail > 0
    ensures var r := WorkLoop(q, |pre|);
            && r.work == pre + Waiting(q.kind, rest)
            && r.pend == q.pend + Handed(q.kind, rest)
            && r.done == q.done + Given(q.kind, rest)
    decreases |rest|
  {
    if rest == [] {
      assert pre + rest == pre;
    } else {
      hide Visit, Proc, WorkLoop, Waiting, Handed, Given, RemoveAt;
      var i, tail := |pre|, rest[1..];
      var q' := Proc(q, i);
      assert q.work[i] == rest[0];
      LoopStep(q, i);
      ProcVisits(q, i);
      Verdicts(q.kind, rest);
      match Visit(q.kind, rest[0])
      case Waits(cb) =>
        Cuts(pre, rest, cb);
        LoopVisits(q', pre + [cb], tail);
        Assoc(pre, cb, Waiting(q.kind, tail));
      case HandedOn(cb) =>
        Cuts(pre, rest, rest[0]);
        LoopVisits(q', pre, tail);
        Assoc(q.pend, cb, Handed(q.kind, tail));
      case GivenUp(c) =>
        Cuts(pre, rest, rest[0]);
        LoopVisits(q', pre, tail);
        Assoc(q.done, c, Given(q.kind, tail));
    }
  }

  /** A pass ends with no slot left, or with every waiting request visited: then those that wait are left in their order, those
      handed on and those given up are appended in theirs. */
  lemma {:induction false} PassVisitsAll(q: Q)
    requires Ok(q)
    ensures var q' := WorkerPass(q);
            || q'.avail == 0
            || (q'.work == Waiting(q.kind, q.work) && q'.pend == q.pend + Handed(q.kind, q.work)
                && q'.done == q.done + Given(q.kind, q.work))
  {
    hide WorkLoop, Visit;
    if WorkerPass(q).avail > 0 {
      assert [] + q.work == q.work;
      LoopVisits(q, [], q.work);
      assert [] + Waiting(q.kind, q.work) == Waiting(q.kind, q.work);
    }
  }
}
