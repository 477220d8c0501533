/** The contexts of all queues, reached through one command register and a window of four data registers. A command may
    time out; whether it took effect then is left open. */
module ContextStore {

  import opened Common
  import opened Context

  const REG_COUNT: nat := 4

  type Word = w: nat | w < 0x1_0000_0000

  datatype Op = Clr | Wr | Rd | Inv

  function Opcode(op: Op): bv32 {
    match op
    case Clr => 0
    case Wr => 1
    case Rd => 2
    case Inv => 3
  }

  function Operation(code: bv32): Op {
    if code == 0 then Clr else if code == 1 then Wr else if code == 2 then Rd else Inv
  }

  /** The hardware takes from the command word what the driver put in, and of a queue number its low eleven bits. */
  lemma {:induction false} WordMeans(qid: bv32, op: Op, sel: bv32)
    requires sel & 0xF == sel
    ensures var v := Command(qid, Opcode(op), sel);
            QidOf(v) == Low11(qid) && Operation(OpOf(v)) == op && SelOf(v) == sel
  {
    hide Command, QidOf, OpOf, SelOf, Low11;
    CommandDecodes(qid, Opcode(op), sel);
  }

  lemma {:induction false} SelsFit(c2h: bool)
    ensures Sw(c2h) & 0xF == Sw(c2h) && Hw(c2h) & 0xF == Hw(c2h) && Cr(c2h) & 0xF == Cr(c2h)
    ensures WRB & 0xF == WRB && PFTCH & 0xF == PFTCH
  {
  }

  // Context selectors
  const SW_C2H: bv32 := 0
  const SW_H2C: bv32 := 1
  const HW_C2H: bv32 := 2
  const HW_H2C: bv32 := 3
  const CR_C2H: bv32 := 4
  const CR_H2C: bv32 := 5
  const WRB: bv32 := 6
  const PFTCH: bv32 := 7

  const ZERO4: seq<Word> := [0, 0, 0, 0]

  type Store = map<(bv32, bv32), seq<Word>>

  function Get(s: Store, qid: bv32, sel: bv32): (r: seq<Word>)
    ensures (forall k :: k in s ==> |s[k]| == 4) ==> |r| == 4
  {
    if (qid, sel) in s then s[(qid, sel)] else ZERO4
  }

  ghost predicate Sound(s: Store) {
    forall k :: k in s ==> |s[k]| == 4
  }

  /** `s` and `s'` agree everywhere but at one context. */
  ghost predicate Only(s: Store, s': Store, qid: bv32, sel: bv32) {
    forall q: bv32, x: bv32 :: (q, x) != (qid, sel) ==> Get(s', q, x) == Get(s, q, x)
  }

  function Pad(ws: seq<Word>): (r: seq<Word>)
    requires |ws| <= 4
    ensures |r| == 4
  {
    ws + ZERO4[|ws|..]
  }

  /** The contexts that belong to a queue of this type and direction. */
  function Sels(st: bool, c2h: bool): set<bv32> {
    if !c2h then {SW_H2C, HW_H2C, CR_H2C}
    else if !st then {SW_C2H, HW_C2H, CR_C2H}
    else {SW_C2H, HW_C2H, CR_C2H, WRB, PFTCH}
  }

  function Sw(c2h: bool): bv32 { if c2h then SW_C2H else SW_H2C }
  function Hw(c2h: bool): bv32 { if c2h then HW_C2H else HW_H2C }
  function Cr(c2h: bool): bv32 { if c2h then CR_C2H else CR_H2C }

  datatype Ctx = Ctx(sw: seq<Word>, prefetch: seq<Word>, wrb: seq<Word>, hw: seq<Word>, cr: seq<Word>)

  predicate Shaped(c: Ctx) {
    |c.sw| == 4 && |c.prefetch| == 2 && |c.wrb| == 4
  }

  /** Nothing outside the queue's own contexts has changed. */
  ghost predicate Confined(s: Store, s': Store, qid: bv32, st: bool, c2h: bool) {
    forall q: bv32, x: bv32 :: !(q == qid && x in Sels(st, c2h)) ==> Get(s', q, x) == Get(s, q, x)
  }

  ghost predicate AllZero(s: Store, qid: bv32, st: bool, c2h: bool) {
    forall x :: x in Sels(st, c2h) ==> Get(s, qid, x) == ZERO4
  }

  ghost predicate Programmed(s: Store, qid: bv32, st: bool, c2h: bool, c: Ctx)
    requires Shaped(c)
  {
    && Get(s, qid, Sw(c2h)) == c.sw && Get(s, qid, Hw(c2h)) == ZERO4 && Get(s, qid, Cr(c2h)) == ZERO4
    && (st && c2h ==> Get(s, qid, WRB) == c.wrb && Get(s, qid, PFTCH) == Pad(c.prefetch))
  }

  /** What reading a queue's contexts yields. */
  function ReadCtx(s: Store, qid: bv32, st: bool, c2h: bool): Ctx
    requires forall k :: k in s ==> |s[k]| == 4
  {
    Ctx(Get(s, qid, Sw(c2h)),
        if st && c2h then Get(s, qid, PFTCH)[..2] else [0, 0],
        if st && c2h then Get(s, qid, WRB) else ZERO4,
        Get(s, qid, Hw(c2h))[..2], Get(s, qid, Cr(c2h))[..1])
  }

  // ---------------------------------------------------------------------------
  // The device
  // ---------------------------------------------------------------------------

  datatype Fate = Done | TimedOut(applied: bool)

  class Device {
    const window: array<Word>
    var store: Store
    var fates: seq<Fate>

    ghost predicate Valid()
      reads this, window
    {
      window.Length == REG_COUNT && Sound(store)
    }

    constructor (store: Store, fates: seq<Fate>)
      requires Sound(store)
      ensures Valid() && fresh(window) && this.store == store
    {
      window := new Word[REG_COUNT](_ => 0);
      this.store, this.fates := store, fates;
    }

    /** A word is written to the command register: the hardware decodes it, and the driver waits for it to finish. */
    method Execute(word: bv32) returns (rv: int)
      requires Valid()
      modifies this, window
      ensures Valid() && (rv == 0 || rv == -EBUSY)
      ensures var qid, op, sel := QidOf(word), Operation(OpOf(word)), SelOf(word);
              && Only(old(store), store, qid, sel)
              && (op == Rd ==> store == old(store))
              && (rv == 0 && op == Wr ==> Get(store, qid, sel) == old(window[..]))
              && (rv == 0 && op == Clr ==> Get(store, qid, sel) == ZERO4)
              && (rv == 0 && op == Rd ==> window[..] == Get(store, qid, sel))
    {
      hide QidOf, OpOf, SelOf, Operation;
      var qid, op, sel := QidOf(word), Operation(OpOf(word)), SelOf(word);
      var fate := if fates == [] then Done else fates[0];
      fates := if fates == [] then [] else fates[1..];
      if fate.Done? || fate.applied {
        match op
        case Clr => store := store[(qid, sel) := ZERO4];
        case Wr => store := store[(qid, sel) := window[..]];
        case Rd =>
          var ws := Get(store, qid, sel);
          forall i | 0 <= i < 4 { window[i] := ws[i]; }
        case Inv =>
      }
      rv := if fate.Done? then 0 else -EBUSY;
    }

    /** `hw_indirect_ctext_prog`: on success the one context is written, cleared or read back, and in any case no other
        context is touched. The read-back check of a write never finds a difference. */
    method Prog(qid: bv32, op: Op, sel: bv32, data: seq<Word>, cnt: nat, verify: bool) returns (rv: int, rd: seq<Word>)
      requires Valid() && sel & 0xF == sel && (op == Wr ==> cnt <= |data|) && (verify ==> op == Wr)
      modifies this, window
      ensures Valid() && Only(old(store), store, Low11(qid), sel)
      ensures rv == -EINVAL <==> (op == Wr || op == Rd) && !(0 < cnt <= REG_COUNT)
      ensures rv == 0 || rv == -EINVAL || rv == -EBUSY
      ensures rv == -EINVAL || op == Rd ==> store == old(store)
      ensures rv == 0 && op == Wr ==> Get(store, Low11(qid), sel) == Pad(data[..cnt])
      ensures rv == 0 && op == Clr ==> Get(store, Low11(qid), sel) == ZERO4
      ensures rv == 0 && op == Rd ==> rd == Get(store, Low11(qid), sel)[..cnt]
    {
      hide Get, Command, QidOf, OpOf, SelOf, Low11, Opcode, Operation;
      WordMeans(qid, op, sel);
      rd := [];
      if op == Wr || op == Rd {
        if cnt == 0 || cnt > REG_COUNT {
          return -EINVAL, [];
        }
        if op == Wr {
          Load(data, cnt);
        }
      }
      rv := Execute(Command(qid, Opcode(op), sel));
      if rv < 0 {
        return;
      }
      if op == Rd {
        rd := window[..cnt];
        return;
      }
      if !verify {
        return;
      }
      WordMeans(qid, Rd, sel);
      rv := Execute(Command(qid, Opcode(Rd), sel));
      if rv < 0 {
        return;
      }
      rd := window[..cnt];
      if data[..cnt] != rd {
        assert false;
      }
    }

    /** The data words, padded with zeros, go to the window. */
    method Load(data: seq<Word>, cnt: nat)
      requires window.Length == REG_COUNT && cnt <= |data| && cnt <= REG_COUNT
      modifies window
      ensures window[..] == Pad(data[..cnt])
    {
      hide Pad;
      var i := 0;
      while i < cnt
        invariant 0 <= i <= cnt && forall j :: 0 <= j < i ==> window[j] == data[j]
      {
        window[i] := data[i];
        i := i + 1;
      }
      while i < REG_COUNT
        invariant cnt <= i <= REG_COUNT
        invariant forall j :: 0 <= j < cnt ==> window[j] == data[j]
        invariant forall j :: cnt <= j < i ==> window[j] == 0
      {
        window[i] := 0;
        i := i + 1;
      }
      PadIs(window[..], data, cnt);
    }

    /** `qdma_descq_context_clear`. */
    method Clear(qid: bv32, st: bool, c2h: bool) returns (rv: int)
      requires Valid()
      modifies this, window
      ensures Valid() && Confined(old(store), store, Low11(qid), st, c2h) && rv <= 0
      ensures rv == 0 ==> AllZero(store, Low11(qid), st, c2h)
    {
      hide Get, Only, Confined, Sels, AllZero, Low11;
      SelsFit(c2h);
      ghost var q := Low11(qid);
      ghost var s0 := store;
      SelsAre(s0, q, st, c2h);
      var rd;
      rv, rd := Prog(qid, Clr, Sw(c2h), [], 0, false);
      ghost var s1 := store;
      Step(s0, s0, s1, q, st, c2h, Sw(c2h));
      if rv < 0 { return; }
      rv, rd := Prog(qid, Clr, Hw(c2h), [], 0, false);
      ghost var s2 := store;
      Step(s0, s1, s2, q, st, c2h, Hw(c2h));
      if rv < 0 { return; }
      rv, rd := Prog(qid, Clr, Cr(c2h), [], 0, false);
      ghost var s3 := store;
      Step(s0, s2, s3, q, st, c2h, Cr(c2h));
      if rv < 0 { return; }
      if st && c2h {
        assert Pad(ZERO4[..4]) == ZERO4;
        rv, rd := Prog(qid, Wr, PFTCH, ZERO4, 4, true);
        ghost var s4 := store;
        Step(s0, s3, s4, q, st, c2h, PFTCH);
        if rv < 0 { return; }
        rv, rd := Prog(qid, Clr, WRB, [], 0, false);
        ghost var s5 := store;
        Step(s0, s4, s5, q, st, c2h, WRB);
        if rv < 0 { return; }
      }
      ZeroedAll(store, q, st, c2h);
    }

    /** `qdma_descq_context_program`. */
    method Program(qid: bv32, st: bool, c2h: bool, c: Ctx) returns (rv: int)
      requires Valid() && Shaped(c)
      modifies this, window
      ensures Valid() && Confined(old(store), store, Low11(qid), st, c2h) && rv <= 0
      ensures rv == 0 ==> Programmed(store, Low11(qid), st, c2h, c)
    {
      hide Get, Low11, Only, Confined, Sels, AllZero;
      SelsFit(c2h);
      ghost var s0, q := store, Low11(qid);
      SelsAre(s0, q, st, c2h);
      rv := Clear(qid, st, c2h);
      if rv < 0 { return; }
      ghost var s1 := store;
      ZeroedParts(s1, q, st, c2h);
      var rd;
      assert Pad(c.sw[..4]) == c.sw && Pad(c.wrb[..4]) == c.wrb && c.prefetch[..2] == c.prefetch;
      rv, rd := Prog(qid, Wr, Sw(c2h), c.sw, 4, true);
      ghost var s2 := store;
      Step(s0, s1, s2, q, st, c2h, Sw(c2h));
      if rv < 0 { return; }
      if !st || !c2h {
        return 0;
      }
      rv, rd := Prog(qid, Wr, PFTCH, c.prefetch, 2, true);
      ghost var s3 := store;
      Step(s0, s2, s3, q, st, c2h, PFTCH);
      if rv < 0 { return; }
      rv, rd := Prog(qid, Wr, WRB, c.wrb, 4, true);
      Step(s0, s3, store, q, st, c2h, WRB);
    }

    /** `qdma_descq_context_read`. */
    method Read(qid: bv32, st: bool, c2h: bool) returns (rv: int, c: Ctx)
      requires Valid()
      modifies this, window
      ensures Valid() && store == old(store) && rv <= 0
      ensures rv == 0 ==> c == ReadCtx(store, Low11(qid), st, c2h)
    {
      hide Get, Low11;
      SelsFit(c2h);
      var sw, hw, cr, wrb, pf := ZERO4, [0, 0], [0], ZERO4, [0, 0];
      c := Ctx(sw, pf, wrb, hw, cr);
      rv, sw := Prog(qid, Rd, Sw(c2h), [], 4, false);
      if rv < 0 { return; }
      rv, hw := Prog(qid, Rd, Hw(c2h), [], 2, false);
      if rv < 0 { return; }
      rv, cr := Prog(qid, Rd, Cr(c2h), [], 1, false);
      if rv < 0 { return; }
      if st && c2h {
        rv, wrb := Prog(qid, Rd, WRB, [], 4, false);
        if rv < 0 { return; }
        rv, pf := Prog(qid, Rd, PFTCH, [], 2, false);
        if rv < 0 { return; }
      }
      c := Ctx(sw, pf, wrb, hw, cr);
    }
  }

  lemma {:induction false} PadIs(w: seq<Word>, data: seq<Word>, cnt: nat)
    requires |w| == 4 && cnt <= 4 && cnt <= |data|
    requires forall j :: 0 <= j < 4 ==> w[j] == if j < cnt then data[j] else 0
    ensures w == Pad(data[..cnt])
  {
  }

  lemma {:induction false} SelsAre(s: Store, qid: bv32, st: bool, c2h: bool)
    ensures Sw(c2h) in Sels(st, c2h) && Hw(c2h) in Sels(st, c2h) && Cr(c2h) in Sels(st, c2h)
    ensures st && c2h ==> WRB in Sels(st, c2h) && PFTCH in Sels(st, c2h)
    ensures Confined(s, s, qid, st, c2h)
  {
  }

  /** One more of the queue's own contexts changes and the rest stays. */
  lemma {:induction false} Step(s0: Store, s: Store, s': Store, qid: bv32, st: bool, c2h: bool, sel: bv32)
    requires Confined(s0, s, qid, st, c2h) && Only(s, s', qid, sel) && sel in Sels(st, c2h)
    ensures Confined(s0, s', qid, st, c2h)
    ensures forall x: bv32 :: x != sel ==> Get(s', qid, x) == Get(s, qid, x)
  {
  }

  lemma {:induction false} ZeroedAll(s: Store, qid: bv32, st: bool, c2h: bool)
    requires Get(s, qid, Sw(c2h)) == ZERO4 && Get(s, qid, Hw(c2h)) == ZERO4 && Get(s, qid, Cr(c2h)) == ZERO4
    requires st && c2h ==> Get(s, qid, WRB) == ZERO4 && Get(s, qid, PFTCH) == ZERO4
    ensures AllZero(s, qid, st, c2h)
  {
  }

  lemma {:induction false} ZeroedParts(s: Store, qid: bv32, st: bool, c2h: bool)
    requires AllZero(s, qid, st, c2h)
    ensures Get(s, qid, Hw(c2h)) == ZERO4 && Get(s, qid, Cr(c2h)) == ZERO4
  {
    hide Get;
  }

  /** By the hardware's own numbers: which context each part of a read comes from, which contexts a queue has, the operation
      codes, and that data words are padded with zeros. */
  lemma {:induction false} NumbersExact(s: Store, qid: bv32, st: bool, c2h: bool, ws: seq<Word>)
    requires Sound(s) && |ws| <= 4
    ensures var c := ReadCtx(s, qid, st, c2h);
            && c.sw == Get(s, qid, if c2h then 0 else 1)
            && c.hw == Get(s, qid, if c2h then 2 else 3)[..2]
            && c.cr == Get(s, qid, if c2h then 4 else 5)[..1]
            && (st && c2h ==> c.wrb == Get(s, qid, 6) && c.prefetch == Get(s, qid, 7)[..2])
    ensures Sels(st, c2h) == if !c2h then {1, 3, 5} else if st then {0, 2, 4, 6, 7} else {0, 2, 4}
    ensures Opcode(Clr) == 0 && Opcode(Wr) == 1 && Opcode(Rd) == 2 && Opcode(Inv) == 3
    ensures Pad(ws)[..|ws|] == ws && forall i :: |ws| <= i < 4 ==> Pad(ws)[i] == 0
  {
    hide Get;
  }

  /** The contexts that programming leaves, by the hardware's own numbers. */
  lemma {:induction false} ProgrammedExact(s: Store, qid: bv32, st: bool, c2h: bool, c: Ctx)
    requires Shaped(c)
    ensures Programmed(s, qid, st, c2h, c) <==>
            && Get(s, qid, if c2h then 0 else 1) == c.sw
            && Get(s, qid, if c2h then 2 else 3) == Get(s, qid, if c2h then 4 else 5) == [0, 0, 0, 0]
            && (st && c2h ==> Get(s, qid, 6) == c.wrb && Get(s, qid, 7) == c.prefetch + [0, 0])
  {
    hide Get;
  }

  /** Reading after a successful program returns the programmed words; the hardware and credit contexts read as zero. */
  lemma {:induction false} ProgramReadsBack(s: Store, qid: bv32, st: bool, c2h: bool, c: Ctx)
    requires Sound(s) && Shaped(c) && Programmed(s, qid, st, c2h, c)
    ensures ReadCtx(s, qid, st, c2h) ==
            Ctx(c.sw, if st && c2h then c.prefetch else [0, 0], if st && c2h then c.wrb else ZERO4, [0, 0], [0])
  {
  }

  /** Programming or clearing one queue leaves what any other queue, and the other direction of the same queue number,
      reads back as it was. Queue numbers are other ones if they differ in the low eleven bits, so all numbers below
      2^11 are. */
  lemma {:induction false} OthersUndisturbed(s: Store, s': Store, qid: bv32, st: bool, c2h: bool, qid': bv32, st': bool, c2h': bool)
    requires Sound(s) && Sound(s') && Confined(s, s', Low11(qid), st, c2h)
    requires Low11(qid') != Low11(qid) || c2h' != c2h
    ensures ReadCtx(s', Low11(qid'), st', c2h') == ReadCtx(s, Low11(qid'), st', c2h')
    ensures qid < 0x800 && qid' < 0x800 && qid' != qid ==> Low11(qid') != Low11(qid)
  {
    hide Get, Low11;
    CommandDecodes(qid, 0, 0);
    CommandDecodes(qid', 0, 0);
  }
}
