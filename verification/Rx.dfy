/** The receive queue of a streaming card-to-host queue: page fragments in arrival order, a cached byte
    count, and the read that copies bytes out of them. User-defined data is off. */
module Rx {
  import opened Common
  import opened SgList

  type Byte = bv8
  type Page = nat
  type Memory = map<Page, seq<Byte>>

  /** `len` bytes of the page are valid and the first `off` of them have been read. */
  datatype Frag = Frag(pg: Page, off: nat, len: nat)

  predicate Unread(fs: seq<Frag>) {
    forall i :: 0 <= i < |fs| ==> fs[i].off < fs[i].len
  }

  predicate Backed(mem: Memory, fs: seq<Frag>) {
    forall i :: 0 <= i < |fs| ==> fs[i].pg in mem && fs[i].off <= fs[i].len <= |mem[fs[i].pg]|
  }

  /** The bytes waiting in the queue. */
  function Stream(mem: Memory, fs: seq<Frag>): seq<Byte>
    requires Backed(mem, fs)
  {
    if fs == [] then [] else mem[fs[0].pg][fs[0].off..fs[0].len] + Stream(mem, fs[1..])
  }

  function Pages(fs: seq<Frag>): (r: seq<Page>)
    ensures |r| == |fs|
  {
    seq(|fs|, i requires 0 <= i < |fs| => fs[i].pg)
  }

  /** What the cached byte count stands for. */
  function Waiting(fs: seq<Frag>): nat
    requires Unread(fs)
  {
    if fs == [] then 0 else fs[0].len - fs[0].off + Waiting(fs[1..])
  }

  /** The queue after `n` bytes were read: used-up fragments are gone, a partly read one stays in front. */
  function Drop(fs: seq<Frag>, n: nat): seq<Frag>
    requires Unread(fs)
    decreases |fs|
  {
    if fs == [] || n == 0 then fs else
      var r := fs[0].len - fs[0].off;
      if n < r then [fs[0].(off := fs[0].off + n)] + fs[1..] else Drop(fs[1..], n - r)
  }

  /** The pages given back by reading `n` bytes. */
  function Freed(fs: seq<Frag>, n: nat): seq<Page>
    requires Unread(fs)
    decreases |fs|
  {
    if fs == [] || n == 0 then [] else
      var r := fs[0].len - fs[0].off;
      if n < r then [] else [fs[0].pg] + Freed(fs[1..], n - r)
  }

  function Flatten<T>(ss: seq<seq<T>>): seq<T> {
    if ss == [] then [] else Flatten(ss[..|ss| - 1]) + ss[|ss| - 1]
  }

  // ---------------------------------------------------------------------------
  // Reading is taking from the front of the stream
  // ---------------------------------------------------------------------------

  lemma {:induction false} WaitingIsLength(mem: Memory, fs: seq<Frag>)
    requires Unread(fs) && Backed(mem, fs)
    ensures |Stream(mem, fs)| == Waiting(fs)
  {
    if fs != [] {
      WaitingIsLength(mem, fs[1..]);
    }
  }

  lemma {:induction false} DropUnread(mem: Memory, fs: seq<Frag>, n: nat)
    requires Unread(fs) && Backed(mem, fs)
    ensures Unread(Drop(fs, n)) && Backed(mem, Drop(fs, n))
    decreases |fs|
  {
    if fs != [] && n > 0 {
      var r := fs[0].len - fs[0].off;
      if n >= r {
        DropUnread(mem, fs[1..], n - r);
      }
    }
  }

  /** Dropping `n` bytes leaves exactly the rest of the stream. */
  lemma {:induction false} DropStream(mem: Memory, fs: seq<Frag>, n: nat)
    requires Unread(fs) && Backed(mem, fs) && n <= Waiting(fs)
    ensures Unread(Drop(fs, n)) && Backed(mem, Drop(fs, n))
    ensures n <= |Stream(mem, fs)| && Stream(mem, Drop(fs, n)) == Stream(mem, fs)[n..]
    ensures Waiting(Drop(fs, n)) == Waiting(fs) - n
    decreases |fs|
  {
    DropUnread(mem, fs, n);
    WaitingIsLength(mem, fs);
    if fs != [] && n > 0 {
      var f, r := fs[0], fs[0].len - fs[0].off;
      if n < r {
        var f' := f.(off := f.off + n);
        assert ([f'] + fs[1..])[1..] == fs[1..];
        assert mem[f.pg][f.off..f.len][n..] == mem[f.pg][f'.off..f.len];
      } else {
        DropStream(mem, fs[1..], n - r);
        assert Stream(mem, fs)[n..] == Stream(mem, fs[1..])[n - r..];
      }
    }
  }

  /** Reading in two goes is reading in one. */
  lemma {:induction false} DropAdd(fs: seq<Frag>, a: nat, b: nat)
    requires Unread(fs)
    ensures Unread(Drop(fs, a))
    ensures Drop(Drop(fs, a), b) == Drop(fs, a + b)
    ensures Freed(fs, a + b) == Freed(fs, a) + Freed(Drop(fs, a), b)
    decreases |fs|
  {
    if fs == [] || a == 0 {
      assert [] + Freed(fs, b) == Freed(fs, b);
    } else {
      var r := fs[0].len - fs[0].off;
      if a < r {
        DropInHead(fs, a, b);
      } else {
        DropAdd(fs[1..], a - r, b);
      }
    }
  }

  lemma {:induction false} DropInHead(fs: seq<Frag>, a: nat, b: nat)
    requires Unread(fs) && fs != [] && 0 < a < fs[0].len - fs[0].off
    ensures Unread(Drop(fs, a))
    ensures Drop(Drop(fs, a), b) == Drop(fs, a + b)
    ensures Freed(fs, a + b) == Freed(fs, a) + Freed(Drop(fs, a), b)
  {
  }

  /** Every page is either given back or still queued, once each and in order. */
  lemma {:induction false} DropPages(fs: seq<Frag>, n: nat)
    requires Unread(fs)
    ensures Pages(fs) == Freed(fs, n) + Pages(Drop(fs, n))
    decreases |fs|
  {
    if fs != [] {
      assert Pages(fs) == [fs[0].pg] + Pages(fs[1..]);
      var r := fs[0].len - fs[0].off;
      if n >= r {
        DropPages(fs[1..], n - r);
      }
    }
  }

  /** What one copy of the inner loop takes and leaves. */
  lemma {:induction false} CopyStep(mem: Memory, fs: seq<Frag>, k: nat)
    requires Unread(fs) && Backed(mem, fs) && fs != [] && 0 < k <= fs[0].len - fs[0].off
    ensures k <= |Stream(mem, fs)| && Stream(mem, fs)[..k] == mem[fs[0].pg][fs[0].off..fs[0].off + k]
    ensures k < fs[0].len - fs[0].off ==> Drop(fs, k) == [fs[0].(off := fs[0].off + k)] + fs[1..] && Freed(fs, k) == []
    ensures k == fs[0].len - fs[0].off ==> Drop(fs, k) == fs[1..] && Freed(fs, k) == [fs[0].pg]
  {
  }

  lemma {:induction false} WaitingHead(fs: seq<Frag>, f: Frag)
    requires Unread(fs) && f.off < f.len
    ensures Unread([f] + fs) && Waiting([f] + fs) == Waiting(fs) + (f.len - f.off)
  {
    assert ([f] + fs)[1..] == fs;
  }

  lemma {:induction false} WaitingTail(fs: seq<Frag>, f: Frag)
    requires Unread(fs) && f.off < f.len
    ensures Unread(fs + [f]) && Waiting(fs + [f]) == Waiting(fs) + (f.len - f.off)
  {
    if fs == [] {
      assert fs + [f] == [f];
    } else {
      WaitingTail(fs[1..], f);
      assert (fs + [f])[1..] == fs[1..] + [f];
    }
  }

  lemma {:induction false} StreamTail(mem: Memory, fs: seq<Frag>, f: Frag)
    requires Backed(mem, fs) && f.pg in mem && f.off <= f.len <= |mem[f.pg]|
    ensures Backed(mem, fs + [f])
    ensures Stream(mem, fs + [f]) == Stream(mem, fs) + mem[f.pg][f.off..f.len]
  {
    assert Backed(mem, fs + [f]);
    if fs == [] {
      assert fs + [f] == [f];
      assert Stream(mem, [f]) == mem[f.pg][f.off..f.len] + Stream(mem, [f][1..]);
    } else {
      StreamTail(mem, fs[1..], f);
      assert (fs + [f])[1..] == fs[1..] + [f];
    }
  }

  /** The fragments not yet used up, with the one in hand in front. */
  ghost function View(rx: Option<Frag>, frags: seq<Frag>): seq<Frag> {
    if rx.None? then frags else [rx.value] + frags
  }

  /** One entry of the queue's linked list. */
  class RxNode {
    var frag: Frag
    var next: RxNode?

    constructor (frag: Frag)
      ensures this.frag == frag
    {
      this.frag, next := frag, null;
    }
  }

  /** The fragment in hand, if any. */
  ghost function Held(rx: RxNode?): Option<Frag>
    reads rx
  {
    if rx == null then None else Some(rx.frag)
  }

  class RxQueue {
    var head: RxNode?
    var tail: RxNode?
    var dlen: nat
    var freed: seq<Page>
    ghost var nodes: seq<RxNode>
    ghost var frags: seq<Frag>
    ghost var repr: set<RxNode>

    /** From the head, the links lead through `nodes` to the tail, and the entries hold `frags`. */
    ghost predicate Chained()
      reads this`head, this`tail, this`nodes, this`frags, this`repr, repr
    {
      && |frags| == |nodes| && repr == (set n | n in nodes)
      && (forall i :: 0 <= i < |nodes| ==> nodes[i].frag == frags[i])
      && (forall i :: 0 <= i < |nodes| - 1 ==> nodes[i].next == nodes[i + 1])
      && (forall i, j :: 0 <= i < j < |nodes| ==> nodes[i] != nodes[j])
      && (if nodes == [] then head == null && tail == null
          else head == nodes[0] && tail == nodes[|nodes| - 1] && nodes[|nodes| - 1].next == null)
    }

    ghost predicate Valid()
      reads this`head, this`tail, this`nodes, this`frags, this`repr, this`dlen, repr
    {
      Chained() && Unread(frags) && dlen == Waiting(frags)
    }

    constructor ()
      ensures Valid() && frags == [] && freed == [] && repr == {} && dlen == 0
    {
      head, tail, dlen, freed := null, null, 0, [];
      nodes, frags, repr := [], [], {};
    }

    method DequeueHead() returns (rx: RxNode?)
      requires Valid()
      modifies this`head, this`tail, this`dlen, this`nodes, this`frags, this`repr, repr
      ensures Valid() && old(frags) == View(Held(rx), frags) && HeadOk(Held(rx))
      ensures if rx == null then repr == old(repr) == {} && frags == [] else rx in old(repr) && repr == old(repr) - {rx}
    {
      rx := head;
      if rx != null {
        head := rx.next;
        rx.next := null;
        if head == null {
          tail := null;
        }
        dlen := dlen - (rx.frag.len - rx.frag.off);
        nodes, frags, repr := nodes[1..], frags[1..], repr - {rx};
      }
    }

    method EnqueueHead(rx: RxNode)
      requires Valid() && rx.frag.off < rx.frag.len && rx !in repr
      modifies this`head, this`tail, this`dlen, this`nodes, this`frags, this`repr, rx`next
      ensures Valid() && repr == old(repr) + {rx} && frags == [rx.frag] + old(frags)
    {
      hide Unread, Waiting;
      WaitingHead(frags, rx.frag);
      rx.next := head;
      head := rx;
      if tail == null {
        tail := rx;
      }
      dlen := dlen + (rx.frag.len - rx.frag.off);
      nodes, frags, repr := [rx] + nodes, [rx.frag] + frags, repr + {rx};
    }

    method EnqueueTail(rx: RxNode)
      requires Valid() && rx.frag.off < rx.frag.len && rx !in repr
      modifies this`head, this`tail, this`dlen, this`nodes, this`frags, this`repr, rx`next, repr
      ensures Valid() && repr == old(repr) + {rx} && rx.frag == old(rx.frag) && frags == old(frags) + [rx.frag]
    {
      hide Unread, Waiting;
      WaitingTail(frags, rx.frag);
      rx.next := null;
      if head == null {
        head := rx;
      } else {
        tail.next := rx;
      }
      tail := rx;
      dlen := dlen + (rx.frag.len - rx.frag.off);
      nodes, frags, repr := nodes + [rx], frags + [rx.frag], repr + {rx};
    }

    /** The inner loop of the read, for one buffer of `len` bytes; `rx0` is the entry in hand. */
    method FillBuffer(mem: Memory, len: nat, rx0: RxNode?) returns (buf: seq<Byte>, rx: RxNode?)
      requires Valid() && HeadOk(Held(rx0)) && (rx0 == null ==> frags == []) && Backed(mem, View(Held(rx0), frags))
      requires rx0 != null ==> rx0 !in repr
      modifies this, repr, rx0
      ensures Valid() && HeadOk(Held(rx)) && (rx == null ==> frags == [])
      ensures repr <= old(repr) && (rx != null ==> rx !in repr && (rx == rx0 || rx in old(repr)))
      ensures Unread(old(View(Held(rx0), frags)))
      ensures var fs, n := old(View(Held(rx0), frags)), |buf|;
              && (n == len || rx == null) && n <= len
              && ReadSoFar(mem, fs, n, View(Held(rx), frags), old(freed), freed, buf)
    {
      hide Drop, Freed, Stream, Waiting, Unread, Backed, Chained, ReadSoFar;
      ghost var fs := View(Held(rx0), frags);
      ViewUnread(Held(rx0), frags);
      ReadStart(mem, fs, freed);
      var left: nat := len;
      buf, rx := [], rx0;
      while left > 0 && rx != null
        invariant Valid() && left + |buf| == len && HeadOk(Held(rx)) && (rx == null ==> frags == [])
        invariant repr <= old(repr) && (rx != null ==> rx !in repr && (rx == rx0 || rx in old(repr)))
        invariant ReadSoFar(mem, fs, |buf|, View(Held(rx), frags), old(freed), freed, buf)
        decreases left
      {
        var f := rx.frag;
        ghost var view, gone := View(Held(rx), frags), freed;
        ReadBacked(mem, fs, |buf|, view, old(freed), freed, buf);
        var copy := Min(left, f.len - f.off);
        var part := mem[f.pg][f.off..f.off + copy];
        rx.frag := f.(off := f.off + copy);
        if f.off + copy == f.len {
          freed := freed + [f.pg];
          rx := DequeueHead();
        }
        ReadMore(mem, fs, |buf|, view, View(Held(rx), frags), copy, old(freed), gone, freed, buf, part);
        left, buf := left - copy, buf + part;
      }
    }

    /** The loop over the buffers; `c` bytes are copied in all. */
    method FillBuffers(mem: Memory, lens: seq<nat>, rx0: RxNode?) returns (bufs: seq<seq<Byte>>, rx: RxNode?, ghost c: nat)
      requires Valid() && HeadOk(Held(rx0)) && (rx0 == null ==> frags == []) && Backed(mem, View(Held(rx0), frags))
      requires rx0 != null ==> rx0 !in repr
      modifies this, repr, rx0
      ensures Valid() && HeadOk(Held(rx)) && (rx == null ==> frags == [])
      ensures repr <= old(repr) && (rx != null ==> rx !in repr && (rx == rx0 || rx in old(repr)))
      ensures ReadSoFar(mem, old(View(Held(rx0), frags)), c, View(Held(rx), frags), old(freed), freed, Flatten(bufs))
      ensures |bufs| <= |lens| && c <= Sum(lens[..|bufs|])
      ensures rx != null ==> |bufs| == |lens| && c == Sum(lens[..|bufs|])
      ensures forall j :: 0 <= j < |bufs| ==> |bufs[j]| <= lens[j] && (j + 1 < |bufs| ==> |bufs[j]| == lens[j])
    {
      hide Drop, Freed, Stream, Waiting, Sum, Unread, Backed, Flatten, ReadSoFar, Chained;
      ghost var fs := View(Held(rx0), frags);
      ViewUnread(Held(rx0), frags);
      ReadStart(mem, fs, freed);
      ReadNothing(lens);
      bufs, rx, c := [], rx0, 0;
      var i := 0;
      while i < |lens|
        invariant i == |bufs| <= |lens| && c == Sum(lens[..i])
        invariant Valid() && HeadOk(Held(rx)) && (rx == null ==> frags == [])
        invariant repr <= old(repr) && (rx != null ==> rx !in repr && (rx == rx0 || rx in old(repr)))
        invariant ReadSoFar(mem, fs, c, View(Held(rx), frags), old(freed), freed, Flatten(bufs))
        invariant forall j :: 0 <= j < i ==> |bufs[j]| == lens[j]
      {
        ghost var view, gone := View(Held(rx), frags), freed;
        ReadBacked(mem, fs, c, view, old(freed), freed, Flatten(bufs));
        var buf;
        buf, rx := FillBuffer(mem, lens[i], rx);
        ReadNext(mem, fs, c, view, View(Held(rx), frags), old(freed), gone, freed, bufs, buf, lens, i);
        c := c + |buf|;
        bufs := bufs + [buf];
        if rx == null {
          break;
        }
        i := i + 1;
      }
    }

    /** `qdma_descq_rxq_read` into buffers of the given lengths: the first bytes of the stream, as many as are
        asked for and there, in order and without holes; exactly the rest stays queued. */
    method Read(mem: Memory, lens: seq<nat>) returns (bufs: seq<seq<Byte>>)
      requires Valid() && Backed(mem, frags)
      modifies this, repr
      ensures Valid() && repr <= old(repr)
      ensures var n := Min(Sum(lens), old(dlen));
              && n <= |Stream(mem, old(frags))|
              && Flatten(bufs) == Stream(mem, old(frags))[..n]
              && frags == Drop(old(frags), n)
              && dlen == old(dlen) - n
              && freed == old(freed) + Freed(old(frags), n)
      ensures |bufs| <= |lens|
      ensures forall j :: 0 <= j < |bufs| ==> |bufs[j]| <= lens[j] && (j + 1 < |bufs| ==> |bufs[j]| == lens[j])
    {
      hide Drop, Freed, Stream, Waiting, Sum, Unread, Backed, Flatten, ReadSoFar, Chained;
      ghost var fs := frags;
      var rx := DequeueHead();
      ghost var c;
      bufs, rx, c := FillBuffers(mem, lens, rx);
      ReadEnd(mem, fs, c, View(Held(rx), frags), old(freed), freed, Flatten(bufs), lens, |bufs|, rx != null);
      if rx != null {
        EnqueueHead(rx);
      }
    }

    /** `rxq_free_resource`. */
    method FreeAll()
      requires Valid()
      modifies this, repr
      ensures Valid() && frags == [] && repr == {} && freed == old(freed) + Pages(old(frags))
    {
      hide Waiting, Unread, Pages, Chained;
      ghost var fs, n := frags, 0;
      PagesStart(fs, freed);
      var rx := DequeueHead();
      while rx != null
        invariant Valid() && repr <= old(repr) && (rx == null ==> frags == [] && repr == {})
        invariant n <= |fs| && View(Held(rx), frags) == fs[n..] && freed == old(freed) + Pages(fs[..n])
        decreases |fs| - n
      {
        PagesNext(fs, n, Held(rx), frags, old(freed));
        freed := freed + [rx.frag.pg];
        n := n + 1;
        rx := DequeueHead();
      }
      assert fs[..n] == fs;
    }
  }

  lemma {:induction false} PagesStart(fs: seq<Frag>, freed: seq<Page>)
    ensures fs[0..] == fs && freed == freed + Pages(fs[..0])
  {
  }

  lemma {:induction false} PagesNext(fs: seq<Frag>, n: nat, rx: Option<Frag>, frags: seq<Frag>, freed: seq<Page>)
    requires rx.Some? && n <= |fs| && View(rx, frags) == fs[n..]
    ensures n < |fs| && frags == fs[n + 1..]
    ensures freed + Pages(fs[..n]) + [rx.value.pg] == freed + Pages(fs[..n + 1])
  {
  }

  lemma {:induction false} PagesNone()
    ensures Pages([]) == []
  {
  }

  lemma {:induction false} PagesSnoc(fs: seq<Frag>, f: Frag)
    ensures Pages(fs + [f]) == Pages(fs) + [f.pg]
  {
  }

  predicate HeadOk(rx: Option<Frag>) {
    rx.Some? ==> rx.value.off < rx.value.len
  }

  /** After `c` bytes: what is left, what was given back, and what was copied. */
  ghost predicate ReadSoFar(mem: Memory, fs: seq<Frag>, c: nat, view: seq<Frag>, gone0: seq<Page>, gone: seq<Page>, copied: seq<Byte>) {
    && Unread(fs) && Backed(mem, fs)
    && c <= Waiting(fs) && c <= |Stream(mem, fs)|
    && view == Drop(fs, c)
    && gone == gone0 + Freed(fs, c)
    && copied == Stream(mem, fs)[..c]
  }

  lemma {:induction false} ViewUnread(rx: Option<Frag>, frags: seq<Frag>)
    requires HeadOk(rx) && Unread(frags)
    ensures Unread(View(rx, frags))
  {
  }

  lemma {:induction false} ReadStart(mem: Memory, fs: seq<Frag>, gone: seq<Page>)
    requires Unread(fs) && Backed(mem, fs)
    ensures ReadSoFar(mem, fs, 0, fs, gone, gone, [])
    ensures fs != [] ==> fs[0].off < fs[0].len
  {
  }

  lemma {:induction false} ReadNothing(lens: seq<nat>)
    ensures Sum(lens[..0]) == 0 && Flatten<Byte>([]) == []
  {
  }

  lemma {:induction false} ReadBacked(mem: Memory, fs: seq<Frag>, c: nat, view: seq<Frag>, gone0: seq<Page>, gone: seq<Page>, copied: seq<Byte>)
    requires ReadSoFar(mem, fs, c, view, gone0, gone, copied)
    ensures Unread(view) && Backed(mem, view)
    ensures view != [] ==> view[0].off < view[0].len && view[0].pg in mem && view[0].len <= |mem[view[0].pg]|
    ensures |view| > 1 ==> view[1].off < view[1].len
  {
    DropUnread(mem, fs, c);
  }

  /** Reading on from where a read stopped. */
  lemma {:induction false} ReadJoin(mem: Memory, fs: seq<Frag>, c: nat, view: seq<Frag>, k: nat, view': seq<Frag>,
                                    gone0: seq<Page>, gone: seq<Page>, gone': seq<Page>, copied: seq<Byte>, part: seq<Byte>)
    requires ReadSoFar(mem, fs, c, view, gone0, gone, copied)
    requires ReadSoFar(mem, view, k, view', gone, gone', part)
    ensures ReadSoFar(mem, fs, c + k, view', gone0, gone', copied + part)
  {
    hide Drop, Freed, Stream, Waiting, Backed, Unread;
    DropAdd(fs, c, k);
    DropStream(mem, fs, c);
    WaitingIsLength(mem, view);
    WaitingIsLength(mem, fs);
    assert Stream(mem, fs)[..c + k] == Stream(mem, fs)[..c] + Stream(mem, fs)[c..][..k];
    assert gone0 + (Freed(fs, c) + Freed(view, k)) == (gone0 + Freed(fs, c)) + Freed(view, k);
  }

  lemma {:induction false} ReadMore(mem: Memory, fs: seq<Frag>, c: nat, view: seq<Frag>, view': seq<Frag>, k: nat,
                                    gone0: seq<Page>, gone: seq<Page>, gone': seq<Page>, copied: seq<Byte>, part: seq<Byte>)
    requires ReadSoFar(mem, fs, c, view, gone0, gone, copied)
    requires Unread(view) && Backed(mem, view)
    requires view != [] && 0 < k <= view[0].len - view[0].off
    requires part == mem[view[0].pg][view[0].off..view[0].off + k]
    requires if k < view[0].len - view[0].off then view' == [view[0].(off := view[0].off + k)] + view[1..] && gone' == gone
             else view' == view[1..] && gone' == gone + [view[0].pg]
    ensures ReadSoFar(mem, fs, c + k, view', gone0, gone', copied + part)
  {
    hide Drop, Freed, Stream, Waiting, Backed, Unread;
    CopyStep(mem, view, k);
    WaitingIsLength(mem, view);
    assert gone + [] == gone;
    ReadJoin(mem, fs, c, view, k, view', gone0, gone, gone', copied, part);
  }

  lemma {:induction false} FlattenSnoc<T>(ss: seq<seq<T>>, s: seq<T>)
    ensures Flatten(ss + [s]) == Flatten(ss) + s
  {
  }

  /** One more buffer. */
  lemma {:induction false} ReadNext(mem: Memory, fs: seq<Frag>, c: nat, view: seq<Frag>, view': seq<Frag>, gone0: seq<Page>,
                                    gone: seq<Page>, gone': seq<Page>, bufs: seq<seq<Byte>>, buf: seq<Byte>, lens: seq<nat>, i: nat)
    requires i < |lens|
    requires ReadSoFar(mem, fs, c, view, gone0, gone, Flatten(bufs))
    requires ReadSoFar(mem, view, |buf|, view', gone, gone', buf)
    ensures ReadSoFar(mem, fs, c + |buf|, view', gone0, gone', Flatten(bufs + [buf]))
    ensures Sum(lens[..i + 1]) == Sum(lens[..i]) + lens[i]
  {
    hide ReadSoFar, Flatten, Sum;
    ReadJoin(mem, fs, c, view, |buf|, view', gone0, gone, gone', Flatten(bufs), buf);
    FlattenSnoc(bufs, buf);
    SumSnoc(lens, i);
  }

  lemma {:induction false} ReadEnd(mem: Memory, fs: seq<Frag>, c: nat, view: seq<Frag>, gone0: seq<Page>, gone: seq<Page>,
                                   copied: seq<Byte>, lens: seq<nat>, i: nat, more: bool)
    requires ReadSoFar(mem, fs, c, view, gone0, gone, copied)
    requires i <= |lens| && c <= Sum(lens[..i])
    requires if more then i == |lens| && c == Sum(lens[..i]) else view == []
    ensures c == Min(Sum(lens), Waiting(fs)) && Waiting(fs) == |Stream(mem, fs)|
    ensures Unread(fs) && Backed(mem, fs) && Unread(view) && Waiting(view) == Waiting(fs) - c
    ensures view == Drop(fs, c) && gone == gone0 + Freed(fs, c) && copied == Stream(mem, fs)[..c]
  {
    DropStream(mem, fs, c);
    WaitingIsLength(mem, fs);
    SumGrows(lens, i);
    if more {
      assert lens[..i] == lens;
    } else {
      assert Waiting([]) == 0;
    }
  }
}
