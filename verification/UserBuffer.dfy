/** A user buffer cut at page boundaries into scatter-gather elements, with the widths of the C types written out. */
module UserBuffer {
  import opened Common
  import opened SgList
  import opened Queue
  import opened QueueRun

  const U32: nat := 0x1_0000_0000
  const U64: nat := 0x1_0000_0000_0000_0000

  /** The page-count expression in 64-bit arithmetic, then stored in 32 bits. */
  function PagesNr(buf: nat, len: nat): nat
    requires buf < U64
  {
    var end := (buf + len + PAGE_SIZE - 1) % U64;
    var base := buf - buf % PAGE_SIZE;
    ((end - base) % U64) / PAGE_SIZE % U32
  }

  /** What the element for a page gets: the rest of the page or the rest of the buffer, whichever is
      less, where the rest of the buffer is first cut to 32 bits. */
  function Piece(buf: nat, len: nat): nat {
    Min(PAGE_SIZE - buf % PAGE_SIZE, len % U32)
  }

  /** `n` turns of the element loop. Addresses are those of the user buffer. */
  function Elements(buf: nat, len: nat, n: nat): seq<Sg>
    decreases n
  {
    if n == 0 then [] else
      var k := Piece(buf, len);
      [Sg(buf, k)] + Elements(buf + k, len - Min(k, len), n - 1)
  }

  /** The elements for a buffer; a page count of zero is refused. */
  function Mapped(buf: nat, len: nat): Option<seq<Sg>>
    requires buf < U64
  {
    var n := PagesNr(buf, len);
    if n == 0 then None else Some(Elements(buf, len, n))
  }

  /** `map_user_buf_to_sgl`, when all pages can be pinned. */
  method MapUserBuf(buf: nat, len: nat) returns (rv: int, sgl: seq<Sg>)
    requires buf < U64
    ensures rv == if Mapped(buf, len).None? then -EINVAL else 0
    ensures rv == 0 ==> Mapped(buf, len) == Some(sgl)
  {
    hide PagesNr, Piece;
    var n := PagesNr(buf, len);
    sgl := [];
    if n == 0 {
      return -EINVAL, [];
    }
    rv := 0;
    var b: nat, l: nat, i := buf, len, 0;
    while i < n
      invariant 0 <= i <= n
      invariant sgl + Elements(b, l, n - i) == Elements(buf, len, n)
    {
      var k := Piece(b, l);
      assert Elements(b, l, n - i) == [Sg(b, k)] + Elements(b + k, l - Min(k, l), n - i - 1);
      assert sgl + ([Sg(b, k)] + Elements(b + k, l - Min(k, l), n - i - 1))
          == (sgl + [Sg(b, k)]) + Elements(b + k, l - Min(k, l), n - i - 1);
      sgl := sgl + [Sg(b, k)];
      assert k <= l by { PieceBound(b, l); }
      b, l := b + k, l - k;
      i := i + 1;
    }
    assert sgl + [] == sgl;
  }

  lemma {:induction false} PieceBound(buf: nat, len: nat)
    ensures Piece(buf, len) <= len && Piece(buf, len) <= PAGE_SIZE
    ensures len < U32 ==> Piece(buf, len) == Min(PAGE_SIZE - buf % PAGE_SIZE, len)
  {
  }

  /** Pages that [buf, buf + len) touches. */
  function Touched(buf: nat, len: nat): nat {
    (buf % PAGE_SIZE + len + PAGE_SIZE - 1) / PAGE_SIZE
  }

  /** Modular arithmetic on addresses does not disturb the page count. */
  lemma {:induction false} PagesNrExact(buf: nat, len: nat)
    requires buf < U64 && len < U32
    ensures PagesNr(buf, len) == Touched(buf, len)
  {
    var off := buf % PAGE_SIZE;
    var d := off + len + PAGE_SIZE - 1;
    WrapCancels(buf - off, d);
    assert d / PAGE_SIZE < U32;
  }

  /** A distance survives if both its ends wrap. */
  lemma {:induction false} WrapCancels(base: nat, d: nat)
    requires base < U64 && d < U64
    ensures ((base + d) % U64 - base) % U64 == d
  {
    if base + d < U64 {
      assert (base + d) % U64 == base + d;
    } else {
      assert (base + d) % U64 == base + d - U64;
    }
  }

  /** The elements are non-empty, at most a page, and lie end to end over the buffer. */
  ghost predicate Tiles(sgl: seq<Sg>, buf: nat, len: nat) {
    Small(sgl, PAGE_SIZE) && Addrs(sgl) == Run(buf, len)
  }

  lemma {:induction false} OnePage(buf: nat, len: nat, k: nat)
    requires 0 < len && k == Min(PAGE_SIZE - buf % PAGE_SIZE, len)
    ensures 0 < k <= PAGE_SIZE && k <= len
    ensures Touched(buf, len) == 1 + (if k == len then 0 else Touched(buf + k, len - k))
  {
  }

  lemma {:induction false} ElementsTile(buf: nat, len: nat)
    requires 0 < len < U32
    ensures Tiles(Elements(buf, len, Touched(buf, len)), buf, len)
    decreases len
  {
    hide Touched, Piece, Tiles;
    PieceBound(buf, len);
    var k := Piece(buf, len);
    OnePage(buf, len, k);
    var rest := Elements(buf + k, len - k, Touched(buf, len) - 1);
    assert Elements(buf, len, Touched(buf, len)) == [Sg(buf, k)] + rest;
    if k < len {
      ElementsTile(buf + k, len - k);
    } else {
      EmptyTiles(buf + k);
    }
    TilesCons(buf, k, len, rest);
  }

  lemma {:induction false} EmptyTiles(buf: nat)
    ensures Tiles([], buf, 0)
  {
  }

  lemma {:induction false} TilesCons(buf: nat, k: nat, len: nat, rest: seq<Sg>)
    requires 0 < k <= PAGE_SIZE && k <= len && Tiles(rest, buf + k, len - k)
    ensures Tiles([Sg(buf, k)] + rest, buf, len)
  {
  }

  /** A buffer of 2^32 bytes or more is never used up: what is left stays at or above 2^32. */
  lemma {:induction false} TooLong(buf: nat, len: nat, n: nat)
    requires len >= U32
    ensures Bytes(Elements(buf, len, n)) + U32 <= len
    decreases n
  {
    if n > 0 {
      PieceBound(buf, len);
      var k := Piece(buf, len);
      assert k <= len - U32 by {
        assert len % U32 <= len - U32;
      }
      TooLong(buf + k, len - k, n - 1);
      assert Elements(buf, len, n)[1..] == Elements(buf + k, len - k, n - 1);
    }
  }

  /** A zero-length buffer at an address inside a page still counts one page, and gets one empty element. */
  lemma {:induction false} EmptyBuffer(buf: nat)
    requires buf < U64
    ensures PagesNr(buf, 0) == if buf % PAGE_SIZE == 0 then 0 else 1
    ensures Tiles(Elements(buf, 0, PagesNr(buf, 0)), buf, 0) <==> buf % PAGE_SIZE == 0
  {
    PagesNrExact(buf, 0);
    if buf % PAGE_SIZE == 0 {
      EmptyTiles(buf);
    } else {
      assert Elements(buf, 0, 1) == [Sg(buf, 0)] + Elements(buf, 0, 0);
      assert Elements(buf, 0, 1)[0].len == 0;
    }
  }

  /** For every address, the call succeeds and the elements tile the buffer if and only if the buffer is not empty and its
      length fits 32 bits. A shorter buffer is refused exactly when it is empty and page-aligned. */
  lemma {:induction false} MapExact(buf: nat, len: nat)
    requires buf < U64
    ensures var r := Mapped(buf, len);
            && (r.Some? && Tiles(r.value, buf, len) <==> 0 < len < U32)
            && (len < U32 ==> (r.None? <==> len == 0 && buf % PAGE_SIZE == 0))
  {
    hide PagesNr, Elements, Tiles;
    if len == 0 {
      EmptyBuffer(buf);
    } else if len < U32 {
      PagesNrExact(buf, len);
      OnePage(buf, len, Min(PAGE_SIZE - buf % PAGE_SIZE, len));
      hide Touched;
      ElementsTile(buf, len);
    } else {
      NeverTiled(buf, len, PagesNr(buf, len));
    }
  }

  lemma {:induction false} NeverTiled(buf: nat, len: nat, n: nat)
    requires len >= U32
    ensures !Tiles(Elements(buf, len, n), buf, len)
  {
    hide Elements, Addrs, Bytes;
    TooLong(buf, len, n);
    AddrsLength(Elements(buf, len, n));
  }

  /** A non-empty buffer that fits 32 bits makes a request that the queue theorems ask for, if DMA mapping
      keeps the lengths of the elements (`mapped`) and gives them bus addresses. */
  lemma {:induction false} UserRequestWellFormed(buf: nat, len: nat, mapped: seq<Sg>, ep: nat, kind: Kind)
    requires buf < U64 && 0 < len < U32
    requires Mapped(buf, len).Some? ==>
             var sgl := Mapped(buf, len).value;
             |mapped| == |sgl| && forall i :: 0 <= i < |sgl| ==> mapped[i].len == sgl[i].len
    ensures WellFormed(Req(mapped, len, ep, false), kind)
  {
    hide Mapped, Bytes, Addrs;
    MapExact(buf, len);
    var sgl := Mapped(buf, len).value;
    AddrsLength(sgl);
    SameBytes(sgl, mapped);
    if sgl == [] {
      NoBytes(sgl);
    }
  }

  lemma {:induction false} NoBytes(sgl: seq<Sg>)
    requires sgl == []
    ensures Bytes(sgl) == 0
  {
  }

  lemma {:induction false} SameBytes(a: seq<Sg>, b: seq<Sg>)
    requires |a| == |b| && forall i :: 0 <= i < |a| ==> b[i].len == a[i].len
    ensures Bytes(a) == Bytes(b)
  {
    if a != [] {
      SameBytes(a[1..], b[1..]);
    }
  }
}
