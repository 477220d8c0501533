/** The service routine holds the lock of the receive queue for one page at a time, so reads can fall between the pages
    of a batch. Such a batch ends as if all reads had come after it, and the readers get the same bytes. */
module C2hReads {
  import opened SgList
  import opened Ring
  import opened Rx
  import opened C2h
  import opened C2hErrors

  /** What is done under the lock at a time: a page is queued and its slot refilled, the next entry is turned to (which
      readers do not see), or a reader takes `k` bytes. */
  datatype Act = Page(p: nat, len: nat) | Turn(c: nat) | Got(k: nat)

  ghost predicate Can(s: Q, a: Act) {
    match a
    case Page(p, len) => p < |s.fl| == |s.desc| && 0 < len <= PAGE_SIZE
    case Turn(_) => true
    case Got(k) => Unread(s.rxq) && k <= s.dlen
  }

  ghost function Do(s: Q, a: Act): Q
    requires Can(s, a)
  {
    match a
    case Page(p, len) => TakePage(s, p, len)
    case Turn(c) => s.(cidxWrb := c)
    case Got(k) => ReadBytes(s, k)
  }

  ghost predicate CanAll(s: Q, acts: seq<Act>)
    decreases |acts|
  {
    acts == [] || (Can(s, acts[0]) && CanAll(Do(s, acts[0]), acts[1..]))
  }

  ghost function DoAll(s: Q, acts: seq<Act>): Q
    requires CanAll(s, acts)
    decreases |acts|
  {
    if acts == [] then s else DoAll(Do(s, acts[0]), acts[1..])
  }

  /** The bytes that the readers get, in order. */
  ghost function Gotten(s: Q, acts: seq<Act>): seq<Byte>
    requires CanAll(s, acts)
    decreases |acts|
  {
    if acts == [] then []
    else (if acts[0].Got? && Backed(s.mem, s.rxq) && acts[0].k <= |Stream(s.mem, s.rxq)|
          then Stream(s.mem, s.rxq)[..acts[0].k] else [])
         + Gotten(Do(s, acts[0]), acts[1..])
  }

  function NoReads(acts: seq<Act>): seq<Act> {
    if acts == [] then [] else (if acts[0].Got? then [] else [acts[0]]) + NoReads(acts[1..])
  }

  function Total(acts: seq<Act>): nat {
    if acts == [] then 0 else (if acts[0].Got? then acts[0].k else 0) + Total(acts[1..])
  }

  // --- One step ---

  lemma {:induction false} DropTail(fs: seq<Frag>, f: Frag, k: nat)
    requires Unread(fs) && f.off < f.len && k <= Waiting(fs)
    ensures Unread(fs + [f]) && Drop(fs + [f], k) == Drop(fs, k) + [f] && Freed(fs + [f], k) == Freed(fs, k)
    decreases |fs|
  {
    if fs != [] && k > 0 {
      var r := fs[0].len - fs[0].off;
      assert (fs + [f])[1..] == fs[1..] + [f];
      if k >= r {
        DropTail(fs[1..], f, k - r);
      }
    }
  }

  lemma {:induction false} DoSound(s: Q, a: Act)
    requires Sound(s) && Can(s, a)
    ensures Sound(Do(s, a))
  {
    hide Sound, TakePage;
    match a
    case Page(p, len) => TakePageSound(s, p, len);
    case Turn(c) => IndexSound(s, Do(s, a));
    case Got(k) => ReadSound(s, k);
  }

  /** A read and a page commute. */
  lemma {:induction false} ReadThenDo(s: Q, a: Act, k: nat)
    requires Sound(s) && Can(s, a) && !a.Got? && k <= s.dlen && Unread(s.rxq)
    ensures Can(ReadBytes(s, k), a) && Unread(Do(s, a).rxq) && k <= Do(s, a).dlen
    ensures Do(ReadBytes(s, k), a) == ReadBytes(Do(s, a), k)
  {
    hide Owned, MemOk, Waiting, Drop, Freed, Blank;
    if a.Page? {
      DropTail(s.rxq, Frag(s.fl[a.p], 0, a.len), k);
    }
  }

  /** Pages only add to the end of the stream. */
  lemma {:induction false} DoStream(s: Q, a: Act)
    requires Sound(s) && Can(s, a) && !a.Got?
    ensures Backed(s.mem, s.rxq) && Backed(Do(s, a).mem, Do(s, a).rxq)
    ensures Stream(s.mem, s.rxq) <= Stream(Do(s, a).mem, Do(s, a).rxq)
    ensures s.dlen == |Stream(s.mem, s.rxq)|
  {
    hide Owned, Stream, Blank;
    SoundBounds(s);
    WaitingIsLength(s.mem, s.rxq);
    if a.Page? {
      var s', f := Do(s, a), Frag(s.fl[a.p], 0, a.len);
      forall i | 0 <= i < |s.rxq| ensures s.rxq[i].pg in s'.mem && s'.mem[s.rxq[i].pg] == s.mem[s.rxq[i].pg] {
        FragAllocated(s, i);
      }
      StreamSame(s.mem, s'.mem, s.rxq);
      FlAllocated(s, a.p);
      StreamTail(s'.mem, s.rxq, f);
    }
  }

  // --- All steps ---

  lemma {:induction false} ReadThenAll(s: Q, acts: seq<Act>, k: nat)
    requires Sound(s) && CanAll(ReadBytesIf(s, k), acts) && NoReads(acts) == acts && k <= s.dlen && Unread(s.rxq)
    ensures CanAll(s, acts) && Sound(DoAll(s, acts)) && Unread(DoAll(s, acts).rxq) && k <= DoAll(s, acts).dlen
    ensures DoAll(ReadBytesIf(s, k), acts) == ReadBytes(DoAll(s, acts), k)
    ensures Backed(s.mem, s.rxq) && Backed(DoAll(s, acts).mem, DoAll(s, acts).rxq)
    ensures Stream(s.mem, s.rxq) <= Stream(DoAll(s, acts).mem, DoAll(s, acts).rxq) && s.dlen == |Stream(s.mem, s.rxq)|
    decreases |acts|
  {
    hide Sound, Do, Can, Stream, ReadBytes, Unread, Backed;
    SoundBounds(s);
    WaitingIsLength(s.mem, s.rxq);
    if acts != [] {
      var a, rest := acts[0], acts[1..];
      NoReadsTail(acts);
      ReadCan(s, a, k);
      ReadThenDo(s, a, k);
      DoSound(s, a);
      DoStream(s, a);
      ReadThenAll(Do(s, a), rest, k);
    }
  }

  /** `ReadBytes`, also where it is not known to be possible. */
  ghost function ReadBytesIf(s: Q, k: nat): Q {
    if Unread(s.rxq) && k <= s.dlen then ReadBytes(s, k) else s
  }

  lemma {:induction false} ReadCan(s: Q, a: Act, k: nat)
    requires !a.Got? && Can(ReadBytesIf(s, k), a)
    ensures Can(s, a)
  {
  }

  lemma {:induction false} NoReadsTail(acts: seq<Act>)
    requires acts != [] && NoReads(acts) == acts
    ensures !acts[0].Got? && NoReads(acts[1..]) == acts[1..]
  {
    NoReadsShorter(acts[1..]);
    var a, rest := acts[0], NoReads(acts[1..]);
    assert ([a] + rest)[1..] == rest;
  }

  lemma {:induction false} NoReadsShorter(acts: seq<Act>)
    ensures |NoReads(acts)| <= |acts| && NoReads(NoReads(acts)) == NoReads(acts)
  {
    if acts != [] {
      NoReadsShorter(acts[1..]);
      var a, rest := acts[0], NoReads(acts[1..]);
      assert ([a] + rest)[1..] == rest;
      assert [] + rest == rest;
    }
  }

  lemma {:induction false} ReadTwice(s: Q, k: nat, t: nat)
    requires Sound(s) && Unread(s.rxq) && k + t <= s.dlen
    ensures Unread(ReadBytes(s, k).rxq) && t <= ReadBytes(s, k).dlen
    ensures ReadBytes(ReadBytes(s, k), t) == ReadBytes(s, k + t)
  {
    hide Owned, MemOk, Drop, Freed, Waiting;
    DropAdd(s.rxq, k, t);
    assert s.freed + (Freed(s.rxq, k) + Freed(Drop(s.rxq, k), t)) == s.freed + Freed(s.rxq, k) + Freed(Drop(s.rxq, k), t);
  }

  /** What is left of the stream after a read. */
  lemma {:induction false} ReadStream(s: Q, k: nat)
    requires Sound(s) && Unread(s.rxq) && k <= s.dlen
    ensures var s' := ReadBytes(s, k);
            && Backed(s.mem, s.rxq) && Backed(s'.mem, s'.rxq) && k <= |Stream(s.mem, s.rxq)| == s.dlen
            && Stream(s'.mem, s'.rxq) == Stream(s.mem, s.rxq)[k..]
  {
    hide Owned, MemOk, Drop, Freed, Waiting, Stream;
    SoundBounds(s);
    WaitingIsLength(s.mem, s.rxq);
    DropStream(s.mem, s.rxq, k);
  }

  /** Any sequence of pages and reads ends as the pages followed by one read of all the bytes, and the readers get the
      same bytes in the same order. */
  lemma {:induction false} ReadsLast(s: Q, acts: seq<Act>)
    requires Sound(s) && CanAll(s, acts)
    ensures CanAll(s, NoReads(acts))
    ensures var s' := DoAll(s, NoReads(acts));
            && Sound(s') && Unread(s'.rxq) && Backed(s'.mem, s'.rxq)
            && Total(acts) <= s'.dlen == |Stream(s'.mem, s'.rxq)|
            && DoAll(s, acts) == ReadBytes(s', Total(acts))
            && Gotten(s, acts) == Stream(s'.mem, s'.rxq)[..Total(acts)]
    decreases |acts|
  {
    hide Sound, Do, Can, Stream, ReadBytes, Unread, Backed;
    if acts == [] {
      NoRead(s);
    } else {
      var a, rest := acts[0], acts[1..];
      var s1, ps := Do(s, a), NoReads(rest);
      DoSound(s, a);
      ReadsLast(s1, rest);
      assert ([a] + ps)[1..] == ps && [] + ps == ps;
      if a.Got? {
        GotIs(s, a);
        NoReadsShorter(rest);
        ReadThenAll(s, ps, a.k);
        var x := DoAll(s, ps);
        ReadStream(x, a.k);
        var all := Stream(x.mem, x.rxq);
        ReadTwice(x, a.k, Total(rest));
        assert Stream(s.mem, s.rxq)[..a.k] == all[..a.k];
        assert all[..a.k] + all[a.k..][..Total(rest)] == all[..a.k + Total(rest)];
      }
    }
  }

  lemma {:induction false} NoRead(s: Q)
    requires Sound(s)
    ensures Unread(s.rxq) && Backed(s.mem, s.rxq) && s.dlen == |Stream(s.mem, s.rxq)| && ReadBytes(s, 0) == s
  {
    hide Owned, MemOk;
    SoundBounds(s);
    WaitingIsLength(s.mem, s.rxq);
    assert s.freed + [] == s.freed;
  }

  lemma {:induction false} GotIs(s: Q, a: Act)
    requires a.Got? && Can(s, a) && Sound(s)
    ensures Unread(s.rxq) && a.k <= s.dlen && Do(s, a) == ReadBytesIf(s, a.k) == ReadBytes(s, a.k)
    ensures Backed(s.mem, s.rxq) && s.dlen == |Stream(s.mem, s.rxq)|
  {
    hide Owned, MemOk;
    SoundBounds(s);
    WaitingIsLength(s.mem, s.rxq);
  }

  // ---------------------------------------------------------------------------
  // The batch
  // ---------------------------------------------------------------------------

  function PacketActs(p: nat, len: nat, n: nat): seq<Act>
    decreases len
  {
    if len == 0 then [] else
      var k := Min(len, PAGE_SIZE);
      [Page(p, k)] + PacketActs(Inc(p, n), len - k, n)
  }

  function PacketEnd(p: nat, len: nat, n: nat): (r: nat)
    ensures p < n ==> r < n
    decreases len
  {
    if len == 0 then p else PacketEnd(Inc(p, n), len - Min(len, PAGE_SIZE), n)
  }

  /** What one service call does, lock section by lock section. */
  function BatchActs(wrb: seq<Entry>, c: nat, p: nat, budget: nat, n: nat): seq<Act>
    requires c < |wrb|
    decreases budget
  {
    if budget == 0 || wrb[c].err then [] else
      var len := wrb[c].len;
      PacketActs(p, len, n) + ([Turn(Inc(c, |wrb|))] + BatchActs(wrb, Inc(c, |wrb|), PacketEnd(p, len, n), budget - 1, n))
  }

  lemma {:induction false} DoConcat(s: Q, a: seq<Act>, b: seq<Act>)
    requires CanAll(s, a) && CanAll(DoAll(s, a), b)
    ensures CanAll(s, a + b) && DoAll(s, a + b) == DoAll(DoAll(s, a), b)
    decreases |a|
  {
    hide Do, Can;
    if a == [] {
      assert a + b == b;
    } else {
      assert (a + b)[1..] == a[1..] + b;
      DoConcat(Do(s, a[0]), a[1..], b);
    }
  }

  lemma {:induction false} PacketIs(s: Q, p: nat, len: nat)
    requires p < |s.fl| == |s.desc|
    ensures var acts := PacketActs(p, len, |s.fl|);
            && CanAll(s, acts)
            && TakePacket(s, p, len) == Outcome(DoAll(s, acts), PacketEnd(p, len, |s.fl|), true)
    decreases len
  {
    hide TakePage;
    if len > 0 {
      var k := Min(len, PAGE_SIZE);
      TakePageSize(s, p, k);
      var s' := TakePage(s, p, k);
      PacketIs(s', Inc(p, |s.fl|), len - k);
      var rest := PacketActs(Inc(p, |s.fl|), len - k, |s.fl|);
      assert ([Page(p, k)] + rest)[1..] == rest;
      assert Do(s, Page(p, k)) == s';
    }
  }

  lemma {:induction false} BatchIs(s: Q, wrb: seq<Entry>, p: nat, budget: nat)
    requires p < |s.fl| == |s.desc| && s.cidxWrb < |wrb|
    ensures var acts := BatchActs(wrb, s.cidxWrb, p, budget, |s.fl|);
            CanAll(s, acts) && TakeEntries(s, wrb, p, budget).s == DoAll(s, acts)
    decreases budget
  {
    hide TakePacket, PacketActs;
    if budget > 0 && !wrb[s.cidxWrb].err {
      var c, n, len := Inc(s.cidxWrb, |wrb|), |s.fl|, wrb[s.cidxWrb].len;
      PacketIs(s, p, len);
      var o := TakePacket(s, p, len);
      var s' := o.s.(cidxWrb := c);
      BatchIs(s', wrb, o.p, budget - 1);
      var rest := BatchActs(wrb, c, o.p, budget - 1, n);
      assert ([Turn(c)] + rest)[1..] == rest;
      assert Do(o.s, Turn(c)) == s';
      DoConcat(s, PacketActs(p, len, n), [Turn(c)] + rest);
    }
  }

  /** However reads fall between the pages of a service call: the call ends as if it had run alone and one read of all
      their bytes had followed, and the readers get the first bytes of the stream that it leaves. */
  lemma {:induction false} ReadsBetweenPages(s: Q, wrb: seq<Entry>, pidxWrb: nat, acts: seq<Act>)
    requires Sound(s) && s.pidx < |s.fl| == |s.desc| && s.cidxWrb < |wrb| && s.cidxWrb < |s.fl|
    requires NoReads(acts) == BatchActs(wrb, s.cidxWrb, s.pidx, Budget(pidxWrb, s.cidxWrb, |s.fl|), |s.fl|)
    requires CanAll(s, acts)
    ensures var o, s' := TakeEntries(s, wrb, s.pidx, Budget(pidxWrb, s.cidxWrb, |s.fl|)), Service(s, wrb, pidxWrb);
            && Unread(s'.rxq) && Backed(s'.mem, s'.rxq) && Total(acts) <= s'.dlen == |Stream(s'.mem, s'.rxq)|
            && (if o.ok then DoAll(s, acts).(pidx := o.p) else DoAll(s, acts)) == ReadBytes(s', Total(acts))
            && Gotten(s, acts) == Stream(s'.mem, s'.rxq)[..Total(acts)]
  {
    hide Sound, CanAll, DoAll, Gotten, Stream, Unread, Backed, TakeEntries, Drop, Freed, Waiting;
    ReadsLast(s, acts);
    BatchIs(s, wrb, s.pidx, Budget(pidxWrb, s.cidxWrb, |s.fl|));
  }
}
