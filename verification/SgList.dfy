/** Scatter-gather lists, their split into descriptor-sized pieces, and the search for a resume point. */
module SgList {

  const PAGE_SIZE: nat := 4096
  const DESC_BLEN_MAX: nat := 0x0FFF_FFFF

  /** A DMA-mapped scatter-gather element, and also one descriptor's worth of host memory. */
  datatype Sg = Sg(addr: nat, len: nat)

  function Min(a: nat, b: nat): nat {
    if a <= b then a else b
  }

  function Take<T>(s: seq<T>, n: nat): seq<T> {
    if n <= |s| then s[..n] else s
  }

  function Bytes(sgl: seq<Sg>): nat {
    if sgl == [] then 0 else sgl[0].len + Bytes(sgl[1..])
  }

  /** The byte addresses that an element list covers, one by one and in order. */
  ghost function Addrs(sgl: seq<Sg>): seq<nat> {
    if sgl == [] then [] else Run(sgl[0].addr, sgl[0].len) + Addrs(sgl[1..])
  }

  ghost function Run(addr: nat, len: nat): seq<nat> {
    seq(len, i requires 0 <= i => addr + i)
  }

  /** One element cut into pieces of at most `cap` bytes: the inner `while (tlen)` loop. */
  function Chunks(addr: nat, len: nat, cap: nat): seq<Sg>
    requires cap > 0
    decreases len
  {
    if len == 0 then [] else
      var n := Min(len, cap);
      [Sg(addr, n)] + Chunks(addr + n, len - n, cap)
  }

  function Split(sgl: seq<Sg>, cap: nat): seq<Sg>
    requires cap > 0
  {
    if sgl == [] then [] else Chunks(sgl[0].addr, sgl[0].len, cap) + Split(sgl[1..], cap)
  }

  /** Every element fits one descriptor. */
  predicate Small(sgl: seq<Sg>, cap: nat) {
    forall i :: 0 <= i < |sgl| ==> 0 < sgl[i].len <= cap
  }

  predicate NonEmpty(sgl: seq<Sg>) {
    forall i :: 0 <= i < |sgl| ==> 0 < sgl[i].len
  }

  lemma {:induction false} BytesConcat(a: seq<Sg>, b: seq<Sg>)
    ensures Bytes(a + b) == Bytes(a) + Bytes(b)
  {
    if a == [] {
      assert a + b == b;
    } else {
      assert (a + b)[1..] == a[1..] + b;
      BytesConcat(a[1..], b);
    }
  }

  lemma {:induction false} BytesSnoc(a: seq<Sg>, k: nat)
    requires k < |a|
    ensures Bytes(a[..k + 1]) == Bytes(a[..k]) + a[k].len
  {
    assert a[..k + 1] == a[..k] + [a[k]];
    BytesConcat(a[..k], [a[k]]);
  }

  lemma {:induction false} BytesPrefix(a: seq<Sg>, j: nat, k: nat)
    requires j <= k <= |a|
    ensures Bytes(a[..k]) == Bytes(a[..j]) + Bytes(a[j..k])
  {
    assert a[..k] == a[..j] + a[j..k];
    BytesConcat(a[..j], a[j..k]);
  }

  lemma {:induction false} BytesAtLeast(a: seq<Sg>)
    requires NonEmpty(a)
    ensures Bytes(a) >= |a|
  {
    if a != [] {
      BytesAtLeast(a[1..]);
    }
  }

  lemma {:induction false} AddrsConcat(a: seq<Sg>, b: seq<Sg>)
    ensures Addrs(a + b) == Addrs(a) + Addrs(b)
  {
    if a == [] {
      assert a + b == b;
    } else {
      assert (a + b)[1..] == a[1..] + b;
      AddrsConcat(a[1..], b);
    }
  }

  lemma {:induction false} AddrsLength(a: seq<Sg>)
    ensures |Addrs(a)| == Bytes(a)
  {
    if a != [] {
      AddrsLength(a[1..]);
    }
  }

  lemma {:induction false} ChunksCover(addr: nat, len: nat, cap: nat)
    requires cap > 0
    ensures Addrs(Chunks(addr, len, cap)) == Run(addr, len)
    ensures Small(Chunks(addr, len, cap), cap)
    decreases len
  {
    if len != 0 {
      var n := Min(len, cap);
      ChunksCover(addr + n, len - n, cap);
      assert Chunks(addr, len, cap)[1..] == Chunks(addr + n, len - n, cap);
      assert Run(addr, len) == Run(addr, n) + Run(addr + n, len - n);
    }
  }

  /** Splitting changes neither which bytes are covered nor their order, and every piece fits a descriptor. */
  lemma {:induction false} SplitCovers(sgl: seq<Sg>, cap: nat)
    requires cap > 0
    ensures Addrs(Split(sgl, cap)) == Addrs(sgl)
    ensures Small(Split(sgl, cap), cap)
    ensures Bytes(Split(sgl, cap)) == Bytes(sgl)
  {
    if sgl != [] {
      ChunksCover(sgl[0].addr, sgl[0].len, cap);
      SplitCovers(sgl[1..], cap);
      AddrsConcat(Chunks(sgl[0].addr, sgl[0].len, cap), Split(sgl[1..], cap));
    }
    AddrsLength(sgl);
    AddrsLength(Split(sgl, cap));
  }

  /** Elements that fit are programmed one descriptor each. */
  lemma {:induction false} SplitSmall(sgl: seq<Sg>, cap: nat)
    requires cap > 0 && Small(sgl, cap)
    ensures Split(sgl, cap) == sgl
  {
    if sgl != [] {
      var a, l := sgl[0].addr, sgl[0].len;
      assert Chunks(a, l, cap) == [Sg(a, l)] + Chunks(a + l, 0, cap);
      SplitSmall(sgl[1..], cap);
    }
  }

  lemma {:induction false} SplitConcat(a: seq<Sg>, b: seq<Sg>, cap: nat)
    requires cap > 0
    ensures Split(a + b, cap) == Split(a, cap) + Split(b, cap)
  {
    if a == [] {
      assert a + b == b;
    } else {
      assert (a + b)[1..] == a[1..] + b;
      SplitConcat(a[1..], b, cap);
    }
  }

  // ---------------------------------------------------------------------------
  // sgt_find_offset
  // ---------------------------------------------------------------------------

  /** `Found(idx, rest)` is a non-negative return value with `*sg_offset == rest`. */
  datatype Found = Found(idx: nat, rest: nat) | OutOfRange

  function Find(sgl: seq<Sg>, offset: nat, i: nat, len: nat): Found
    requires i <= |sgl|
    decreases |sgl| - i
  {
    if i == |sgl| then OutOfRange else
      var total := len + sgl[i].len;
      if total == offset then Found(i + 1, 0)
      else if total > offset then Found(i, total - offset)
      else Find(sgl, offset, i + 1, total)
  }

  /** The search as the driver's loop runs it. */
  method SgtFindOffset(sgl: seq<Sg>, offset: nat) returns (r: Found)
    ensures r == Find(sgl, offset, 0, 0)
  {
    var len: nat, i: nat := 0, 0;
    while i < |sgl|
      invariant i <= |sgl|
      invariant Find(sgl, offset, 0, 0) == Find(sgl, offset, i, len)
    {
      len := len + sgl[i].len;
      if len == offset {
        return Found(i + 1, 0);
      } else if len > offset {
        return Found(i, len - offset);
      }
      i := i + 1;
    }
    return OutOfRange;
  }

  lemma {:induction false} FindFrom(sgl: seq<Sg>, offset: nat, i: nat)
    requires i <= |sgl|
    requires forall j :: 0 < j <= i ==> Bytes(sgl[..j]) < offset
    ensures match Find(sgl, offset, i, Bytes(sgl[..i]))
            case Found(k, rest) =>
              if rest == 0 then 0 < k <= |sgl| && Bytes(sgl[..k]) == offset
              else k < |sgl| && (k > 0 ==> Bytes(sgl[..k]) < offset) && offset + rest == Bytes(sgl[..k + 1])
            case OutOfRange => sgl == [] || Bytes(sgl) < offset
    decreases |sgl| - i
  {
    if i == |sgl| {
      assert sgl[..i] == sgl;
    } else {
      BytesSnoc(sgl, i);
      if Bytes(sgl[..i + 1]) < offset {
        FindFrom(sgl, offset, i + 1);
      }
    }
  }

  /** A position inside the list is found; it is an element boundary exactly when the reported remainder is 0.
      The remainder is what is LEFT of the element, not what was already used of it. */
  lemma {:induction false} FindMeans(sgl: seq<Sg>, offset: nat)
    requires 0 < offset <= Bytes(sgl)
    ensures var r := Find(sgl, offset, 0, 0);
            && r.Found?
            && (r.rest == 0 ==> 0 < r.idx <= |sgl| && Bytes(sgl[..r.idx]) == offset)
            && (r.rest > 0 ==> r.idx < |sgl| && Bytes(sgl[..r.idx]) < offset
                               && offset + r.rest == Bytes(sgl[..r.idx + 1]))
  {
    FindFrom(sgl, offset, 0);
  }

  lemma {:induction false} PrefixesGrow(sgl: seq<Sg>, j: nat, k: nat)
    requires NonEmpty(sgl) && j < k <= |sgl|
    ensures Bytes(sgl[..j]) < Bytes(sgl[..k])
  {
    BytesPrefix(sgl, j, k);
    BytesAtLeast(sgl[j..k]);
  }

  /** From the end of a prefix of non-empty elements, the search returns the next element. */
  lemma {:induction false} FindBoundary(sgl: seq<Sg>, k: nat)
    requires NonEmpty(sgl) && 0 < k <= |sgl|
    ensures Find(sgl, Bytes(sgl[..k]), 0, 0) == Found(k, 0)
  {
    var offset := Bytes(sgl[..k]);
    assert sgl[..0] == [];
    PrefixesGrow(sgl, 0, k);
    BytesPrefix(sgl, k, |sgl|);
    assert sgl[..|sgl|] == sgl;
    FindMeans(sgl, offset);
    var r := Find(sgl, offset, 0, 0);
    if r.rest == 0 {
      if r.idx < k { PrefixesGrow(sgl, r.idx, k); }
      if k < r.idx { PrefixesGrow(sgl, k, r.idx); }
    } else {
      if r.idx < k {
        if r.idx + 1 < k { PrefixesGrow(sgl, r.idx + 1, k); }
      } else if k < r.idx {
        PrefixesGrow(sgl, k, r.idx);
      }
      assert false;
    }
  }
}
