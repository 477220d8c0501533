/** Hardware queue ranges: the physical functions set their own range, virtual functions ask for theirs by message, and
    a table of virtual functions is kept beside the range registers. */
module Fmap {
  import opened Common

  const PF_MAX: nat := 2
  const Q_PER_PF: nat := 32
  const Q_PER_VF: nat := 8
  const ID_INVALID: nat := 254
  const Q_TOTAL: nat := 2048

  datatype Range = Range(qbase: nat, qmax: nat)

  /** The table keeps base and count in 16 bits each. */
  predicate Short(r: Range) {
    r.qbase < 0x1_0000 && r.qmax < 0x1_0000
  }

  type ShortRange = r: Range | Short(r) witness Range(0, 0)

  function Cut(r: Range): ShortRange {
    Range(r.qbase % 0x1_0000, r.qmax % 0x1_0000)
  }

  /** One slot of the table. A slot never used holds whatever was in memory. */
  datatype Vf = Vf(id: nat, range: ShortRange)

  datatype Msg = Hello(src: nat) | Bye(src: nat) | MapReq(src: nat, qbase: nat, qmax: nat)

  // ---------------------------------------------------------------------------
  // The range register
  // ---------------------------------------------------------------------------

  /** Bitwise or. */
  function Or(a: nat, b: nat): nat {
    if a == 0 then b
    else if b == 0 then a
    else (if a % 2 == 1 || b % 2 == 1 then 1 else 0) + 2 * Or(a / 2, b / 2)
  }

  /** The 32-bit word that `hw_set_fmap` writes: the base, or-ed with the count shifted by eleven bits. */
  function PackRange(r: Range): nat {
    Or(r.qbase, 2048 * r.qmax) % 0x1_0000_0000
  }

  /** What the hardware reads out of the word: eleven bits of base and twelve of count. */
  function Decode(word: nat): Range {
    Range(word % 2048, word / 2048 % 4096)
  }

  predicate InFields(r: Range) {
    r.qbase < 2048 && r.qmax < 4096
  }

  function Shl(x: nat, k: nat): nat {
    if k == 0 then x else 2 * Shl(x, k - 1)
  }

  lemma {:induction false} ShlZero(x: nat, k: nat)
    ensures Shl(x, k) == 0 <==> x == 0
  {
    if k > 0 {
      ShlZero(x, k - 1);
    }
  }

  /** The low `k` bits of one side stay as they are when the other side has none. */
  lemma {:induction false} OrAbove(a: nat, c: nat, q: nat, k: nat)
    requires a < Shl(1, k)
    ensures Or(a + Shl(c, k), Shl(q, k)) == a + Shl(Or(c, q), k)
  {
    if k > 0 {
      ShlZero(c, k);
      ShlZero(q, k);
      OrAbove(a / 2, c, q, k - 1);
    }
  }

  lemma {:induction false} Shl11(x: nat)
    ensures Shl(x, 11) == 2048 * x
  {
    assert Shl(x, 1) == 2 * x && Shl(x, 3) == 2 * Shl(x, 2) == 4 * Shl(x, 1);
    assert Shl(x, 5) == 2 * Shl(x, 4) == 4 * Shl(x, 3);
    assert Shl(x, 7) == 2 * Shl(x, 6) == 4 * Shl(x, 5);
    assert Shl(x, 9) == 2 * Shl(x, 8) == 4 * Shl(x, 7);
    assert Shl(x, 11) == 2 * Shl(x, 10) == 4 * Shl(x, 9);
  }

  /** A base that does not fit its field spills into the count. */
  lemma {:induction false} PackDecodes(r: Range)
    ensures Decode(PackRange(r)) == Range(r.qbase % 2048, Or(r.qbase / 2048, r.qmax) % 4096)
  {
    var a, c := r.qbase % 2048, r.qbase / 2048;
    Shl11(1);
    Shl11(c);
    Shl11(r.qmax);
    Shl11(Or(c, r.qmax));
    OrAbove(a, c, r.qmax, 11);
    FieldsOf(a, Or(c, r.qmax));
  }

  lemma {:induction false} FieldsOf(a: nat, x: nat)
    requires a < 2048
    ensures Decode((a + 2048 * x) % 0x1_0000_0000) == Range(a, x % 4096)
  {
    var y, z := x % 0x20_0000, x / 0x20_0000;
    assert a + 2048 * x == (a + 2048 * y) + 0x1_0000_0000 * z;
    Remainder(a + 2048 * y, z, 0x1_0000_0000);
    Remainder(a, y, 2048);
    Remainder(y % 4096, y / 4096 + 512 * z, 4096);
  }

  /** Base and count are read back from the register if and only if they fit their fields of 11 and 12 bits. */
  lemma {:induction false} PackRangeExact(r: Range)
    ensures Decode(PackRange(r)) == r <==> InFields(r)
  {
    hide PackRange, Decode, Or;
    PackDecodes(r);
    OrNone(r.qmax);
    if r.qbase < 2048 {
      Remainder(r.qbase, 0, 2048);
      assert r.qmax % 4096 == r.qmax <==> r.qmax < 4096;
    }
  }

  lemma {:induction false} OrNone(q: nat)
    ensures Or(0, q) == q
  {
  }

  /** Three ranges that the register turns into others: an empty one into queue 0, one into a longer one at 0, and one
      that lies outside the hardware into one inside. */
  lemma {:induction false} PackedElsewhere()
    ensures Decode(PackRange(Range(2048, 0))) == Range(0, 1)
    ensures Decode(PackRange(Range(4096, 8))) == Range(0, 10)
    ensures Decode(PackRange(Range(2112, 1))) == Range(64, 1)
  {
    hide PackRange, Decode, Or;
    PackDecodes(Range(2048, 0));
    PackDecodes(Range(4096, 8));
    PackDecodes(Range(2112, 1));
    OrSmall();
  }

  lemma {:induction false} OrSmall()
    ensures Or(1, 0) == 1 && Or(1, 1) == 1 && Or(2, 8) == 10
  {
    assert Or(1, 4) == 1 + 2 * Or(0, 2);
  }

  // ---------------------------------------------------------------------------
  // The table of virtual functions
  // ---------------------------------------------------------------------------

  /** The first slot with this id, or the length. */
  function FirstOf(vfs: seq<Vf>, id: nat): (i: nat)
    ensures i <= |vfs| && (i < |vfs| ==> vfs[i].id == id)
    ensures forall j :: 0 <= j < i ==> vfs[j].id != id
  {
    if vfs == [] || vfs[0].id == id then 0 else
      var i := FirstOf(vfs[1..], id);
      assert forall j :: 0 < j <= i ==> vfs[j] == vfs[1..][j - 1];
      1 + i
  }

  function Online(vfs: seq<Vf>, id: nat): seq<Vf> {
    var i := FirstOf(vfs, ID_INVALID);
    if i < |vfs| then vfs[i := vfs[i].(id := id)] else vfs
  }

  function Offline(vfs: seq<Vf>, id: nat): (r: seq<Vf>)
    ensures |r| == |vfs|
  {
    seq(|vfs|, i requires 0 <= i < |vfs| => if vfs[i].id == id then Vf(ID_INVALID, Range(0, 0)) else vfs[i])
  }

  function Remap(vfs: seq<Vf>, id: nat, range: Range): seq<Vf> {
    var i := FirstOf(vfs, id);
    if i < |vfs| then vfs[i := Vf(id, Cut(range))] else vfs
  }

  class VfTable {
    const vfs: array<Vf>

    constructor (slots: seq<Vf>)
      ensures fresh(vfs) && vfs[..] == slots
    {
      vfs := new Vf[|slots|](i requires 0 <= i < |slots| => slots[i]);
    }

    /** `xdev_sriov_vf_online`. */
    method SetOnline(id: nat) returns (ok: bool)
      modifies vfs
      ensures vfs[..] == Online(old(vfs[..]), id)
      ensures ok <==> exists i :: 0 <= i < vfs.Length && old(vfs[..])[i].id == ID_INVALID
    {
      var i := 0;
      while i < vfs.Length
        invariant 0 <= i <= vfs.Length && vfs[..] == old(vfs[..])
        invariant forall j :: 0 <= j < i ==> vfs[j].id != ID_INVALID
      {
        if vfs[i].id == ID_INVALID {
          ghost var before := vfs[..];
          assert before[i].id == ID_INVALID;
          vfs[i] := vfs[i].(id := id);
          FirstIs(before, ID_INVALID, i);
          assert vfs[..] == before[i := before[i].(id := id)];
          return true;
        }
        i := i + 1;
      }
      FirstIs(vfs[..], ID_INVALID, i);
      return false;
    }

    /** `xdev_sriov_vf_offline`. */
    method SetOffline(id: nat)
      modifies vfs
      ensures vfs[..] == Offline(old(vfs[..]), id)
    {
      var i := 0;
      while i < vfs.Length
        invariant 0 <= i <= vfs.Length
        invariant forall j :: 0 <= j < i ==> vfs[j] == Offline(old(vfs[..]), id)[j]
        invariant forall j :: i <= j < vfs.Length ==> vfs[j] == old(vfs[..])[j]
      {
        if vfs[i].id == id {
          vfs[i] := Vf(ID_INVALID, Range(0, 0));
        }
        i := i + 1;
      }
    }

    /** `xdev_sriov_vf_fmap`. */
    method SetRange(id: nat, range: Range) returns (ok: bool)
      modifies vfs
      ensures vfs[..] == Remap(old(vfs[..]), id, range)
      ensures ok <==> exists i :: 0 <= i < vfs.Length && old(vfs[..])[i].id == id
    {
      var i := 0;
      while i < vfs.Length
        invariant 0 <= i <= vfs.Length && vfs[..] == old(vfs[..])
        invariant forall j :: 0 <= j < i ==> vfs[j].id != id
      {
        if vfs[i].id == id {
          ghost var before := vfs[..];
          assert before[i].id == id;
          vfs[i] := Vf(id, Cut(range));
          FirstIs(before, id, i);
          assert vfs[..] == before[i := Vf(id, Cut(range))];
          return true;
        }
        i := i + 1;
      }
      FirstIs(vfs[..], id, i);
      return false;
    }
  }

  lemma {:induction false} FirstIs(vfs: seq<Vf>, id: nat, i: nat)
    requires i <= |vfs| && (i < |vfs| ==> vfs[i].id == id) && forall j :: 0 <= j < i ==> vfs[j].id != id
    ensures FirstOf(vfs, id) == i
  {
  }

  // ---------------------------------------------------------------------------
  // Runs
  // ---------------------------------------------------------------------------

  /** `regs`: the word in the range register of each function that was written. `granted`: the range it was written for.
      `mapped`: functions whose request was answered while they were in the table, and that have not said goodbye since. */
  datatype World = World(regs: map<nat, nat>, granted: map<nat, Range>, vfs: seq<Vf>, mapped: set<nat>)

  datatype Event = PfRange(id: nat, qmax: nat) | From(msg: Msg)

  /** What the physical function answers to a request for no particular base. */
  function DefaultBase(id: nat): int {
    Q_PER_PF * PF_MAX + (id - PF_MAX) * Q_PER_VF
  }

  ghost predicate Registered(vfs: seq<Vf>, id: nat) {
    exists i :: 0 <= i < |vfs| && vfs[i].id == id
  }

  /** `hw_set_fmap`. */
  function Written(w: World, id: nat, r: Range): World {
    w.(regs := w.regs[id := PackRange(r)], granted := w.granted[id := r])
  }

  /** The range that a request is answered with. */
  function Answer(src: nat, qbase: nat, qmax: nat): Range
    requires src >= PF_MAX
  {
    Range(if qbase == 0 then DefaultBase(src) else qbase, qmax)
  }

  /** The physical function's handling of a message, and its own range setup. */
  ghost function After(w: World, e: Event): World
    requires e.From? && e.msg.MapReq? ==> e.msg.src >= PF_MAX
  {
    match e
    case PfRange(id, qmax) => Written(w, id, Range(id * qmax, qmax))
    case From(Hello(src)) => w.(vfs := Online(w.vfs, src))
    case From(Bye(src)) =>
      Written(w, src, Range(0, 0)).(vfs := Offline(w.vfs, src), mapped := w.mapped - {src})
    case From(MapReq(src, qbase, qmax)) =>
      var range := Answer(src, qbase, qmax);
      Written(w, src, range).(vfs := Remap(w.vfs, src, range),
                              mapped := if Registered(w.vfs, src) then w.mapped + {src} else w.mapped)
  }

  /** How many queues each of the two physical functions runs with. */
  datatype Pfq = Pfq(q0: nat, q1: nat)

  function QueuesOf(pfq: Pfq, id: nat): nat {
    if id == 0 then pfq.q0 else pfq.q1
  }

  /** The condition under which the physical functions stay apart and in their place; see `PfRangesExact`. */
  predicate PfOk(pfq: Pfq) {
    pfq.q0 <= Q_PER_PF && pfq.q1 <= Q_PER_PF && (pfq.q0 <= pfq.q1 || pfq.q1 == 0)
  }

  /** Inside the eight queues set aside for a virtual function, and representable in the register. */
  predicate InSlot(id: nat, r: Range) {
    DefaultBase(id) <= r.qbase < Q_TOTAL && r.qbase + r.qmax <= DefaultBase(id) + Q_PER_VF
  }

  /** Virtual functions 2 to 249 name no base and at most eight queues, or a range inside the eight queues set aside for
      them; see `NamedBaseExact` and `DefaultBaseExact`. */
  ghost predicate Allowed(e: Event, pfq: Pfq) {
    match e
    case PfRange(id, qmax) => id < PF_MAX && qmax == QueuesOf(pfq, id)
    case From(Hello(src)) => PF_MAX <= src <= 249
    case From(Bye(src)) => PF_MAX <= src <= 249
    case From(MapReq(src, qbase, qmax)) =>
      PF_MAX <= src <= 249 && InSlot(src, Answer(src, qbase, qmax))
  }

  ghost predicate Trace(pfq: Pfq, ws: seq<World>, es: seq<Event>) {
    && |ws| == |es| + 1
    && ws[0].regs == map[] && ws[0].granted == map[] && ws[0].mapped == {}
    && forall i :: 0 <= i < |es| ==> Allowed(es[i], pfq) && ws[i + 1] == After(ws[i], es[i])
  }

  /** Where a function's range may lie. */
  ghost predicate Fits(id: nat, r: Range, pfq: Pfq) {
    if id < PF_MAX then r == Range(id * QueuesOf(pfq, id), QueuesOf(pfq, id))
    else id <= 249 && (r == Range(0, 0) || InSlot(id, r))
  }

  predicate Holds(vf: Vf, id: nat, range: Range) {
    vf.id == id && vf.range == range
  }

  /** The table holds the range that was granted. */
  ghost predicate Matches(w: World, id: nat)
    requires id in w.granted
  {
    exists i :: 0 <= i < |w.vfs| && Holds(w.vfs[i], id, w.granted[id])
  }

  ghost predicate Inv(w: World, pfq: Pfq) {
    && w.regs.Keys == w.granted.Keys
    && (forall id :: id in w.granted ==> w.regs[id] == PackRange(w.granted[id]) && Fits(id, w.granted[id], pfq))
    && (forall id :: id in w.mapped ==> PF_MAX <= id <= 249 && id in w.granted && Matches(w, id))
  }

  lemma {:induction false} HelloInv(w: World, src: nat, pfq: Pfq)
    requires Inv(w, pfq)
    ensures Inv(w.(vfs := Online(w.vfs, src)), pfq)
  {
    hide PackRange;
    var w' := w.(vfs := Online(w.vfs, src));
    forall id | id in w'.mapped ensures Matches(w', id) {
      assert Matches(w, id);
      var i :| 0 <= i < |w.vfs| && Holds(w.vfs[i], id, w.granted[id]);
      assert Holds(w'.vfs[i], id, w'.granted[id]);
    }
  }

  lemma {:induction false} ByeInv(w: World, src: nat, pfq: Pfq)
    requires Inv(w, pfq) && PF_MAX <= src <= 249
    ensures Inv(After(w, From(Bye(src))), pfq)
  {
    hide PackRange;
    var w' := After(w, From(Bye(src)));
    forall id | id in w'.mapped ensures Matches(w', id) {
      assert Matches(w, id);
      var i :| 0 <= i < |w.vfs| && Holds(w.vfs[i], id, w.granted[id]);
      assert Holds(w'.vfs[i], id, w'.granted[id]);
    }
  }

  lemma {:induction false} MapInv(w: World, src: nat, qbase: nat, qmax: nat, pfq: Pfq)
    requires Inv(w, pfq) && Allowed(From(MapReq(src, qbase, qmax)), pfq)
    ensures Inv(After(w, From(MapReq(src, qbase, qmax))), pfq)
  {
    hide PackRange;
    var w' := After(w, From(MapReq(src, qbase, qmax)));
    var k := FirstOf(w.vfs, src);
    forall id | id in w'.mapped ensures Matches(w', id) {
      if id == src {
        if id in w.mapped {
          assert Matches(w, id);
        }
        assert Registered(w.vfs, src);
        var i :| 0 <= i < |w.vfs| && w.vfs[i].id == src;
        assert k < |w.vfs| && Holds(w'.vfs[k], src, w'.granted[src]);
      } else {
        assert Matches(w, id);
        var i :| 0 <= i < |w.vfs| && Holds(w.vfs[i], id, w.granted[id]);
        assert Holds(w'.vfs[i], id, w'.granted[id]);
      }
    }
  }

  lemma {:induction false} AfterInv(w: World, e: Event, pfq: Pfq)
    requires Inv(w, pfq) && Allowed(e, pfq)
    ensures Inv(After(w, e), pfq)
  {
    match e
    case PfRange(id, qmax) =>
      forall v | v in w.mapped ensures Matches(After(w, e), v) {
        assert Matches(w, v);
      }
    case From(Hello(src)) => HelloInv(w, src, pfq);
    case From(Bye(src)) => ByeInv(w, src, pfq);
    case From(MapReq(src, qbase, qmax)) => MapInv(w, src, qbase, qmax, pfq);
  }

  lemma {:induction false} TraceInv(pfq: Pfq, ws: seq<World>, es: seq<Event>, i: nat)
    requires Trace(pfq, ws, es) && i < |ws|
    ensures Inv(ws[i], pfq)
  {
    hide After;
    if i > 0 {
      TraceInv(pfq, ws, es, i - 1);
      assert ws[i - 1 + 1] == After(ws[i - 1], es[i - 1]);
      AfterInv(ws[i - 1], es[i - 1], pfq);
    }
  }

  predicate Contains(r: Range, q: nat) {
    r.qbase <= q < r.qbase + r.qmax
  }

  ghost predicate Disjoint(a: Range, b: Range) {
    forall q: nat :: !(Contains(a, q) && Contains(b, q))
  }

  lemma {:induction false} FitsApart(f: nat, g: nat, a: Range, b: Range, pfq: Pfq)
    requires f < g && Fits(f, a, pfq) && Fits(g, b, pfq) && PfOk(pfq)
    ensures Disjoint(a, b)
    ensures a.qbase + a.qmax <= Q_TOTAL && b.qbase + b.qmax <= Q_TOTAL
    ensures InFields(a) && InFields(b)
  {
    if f < PF_MAX {
      assert f == 0 || f == 1;
    }
    if g < PF_MAX {
      assert g == 1 && f == 0;
    }
  }

  /** In every run each register decodes to the range that was granted, the ranges that the registers of different
      functions decode to share no hardware queue and lie inside the 2048 there are, and the table holds the range of
      every function that asked for it while in the table. */
  lemma {:induction false} RangesIsolated(pfq: Pfq, ws: seq<World>, es: seq<Event>, i: nat, f: nat, g: nat)
    requires Trace(pfq, ws, es) && i < |ws| && PfOk(pfq)
    requires f in ws[i].regs && g in ws[i].regs && f != g
    ensures f in ws[i].granted && Decode(ws[i].regs[f]) == ws[i].granted[f]
    ensures Disjoint(Decode(ws[i].regs[f]), Decode(ws[i].regs[g]))
    ensures Decode(ws[i].regs[f]).qbase + Decode(ws[i].regs[f]).qmax <= Q_TOTAL
    ensures f in ws[i].mapped ==> Matches(ws[i], f)
  {
    TraceInv(pfq, ws, es, i);
    hide Fits, Disjoint, PackRange, Decode, InFields;
    var w := ws[i];
    assert f in w.granted && g in w.granted;
    PackRangeExact(w.granted[f]);
    PackRangeExact(w.granted[g]);
    if f < g {
      FitsApart(f, g, w.granted[f], w.granted[g], pfq);
    } else {
      FitsApart(g, f, w.granted[g], w.granted[f], pfq);
      DisjointSym(w.granted[g], w.granted[f]);
    }
  }

  lemma {:induction false} DisjointSym(a: Range, b: Range)
    requires Disjoint(a, b)
    ensures Disjoint(b, a)
  {
  }

  // --- Exactly when the assumptions are needed ---

  /** Two physical functions set up with `q0` and `q1` queues: the second starts at `q1`, so what their registers decode to is
      apart if and only if the first has no more queues than the second (or the second has none). */
  lemma {:induction false} PfRangesExact(w: World, q0: nat, q1: nat)
    requires q0 < 2048 && q1 < 2048
    ensures var w' := After(After(w, PfRange(0, q0)), PfRange(1, q1));
            && 0 in w'.regs && 1 in w'.regs
            && Decode(w'.regs[0]) == Range(0, q0) && Decode(w'.regs[1]) == Range(q1, q1)
            && (Disjoint(Decode(w'.regs[0]), Decode(w'.regs[1])) <==> q0 <= q1 || q1 == 0)
  {
    hide PackRange, Decode;
    var a, b := Range(0, q0), Range(q1, q1);
    PackRangeExact(a);
    PackRangeExact(b);
    if q0 > q1 > 0 {
      assert Contains(a, q1) && Contains(b, q1);
    }
  }

  /** Default ranges follow each other from queue 64 on, and a full one lies inside the hardware's queues if and only if the
      function id is at most 249. */
  lemma {:induction false} VfRangeExact(id: nat)
    requires id >= PF_MAX
    ensures DefaultBase(2) == 64 && DefaultBase(id + 1) == DefaultBase(id) + 8
    ensures DefaultBase(id) + 8 <= 2048 <==> id <= 249
  {
  }

  /** The queues set aside for a function: 32 for each physical one, eight for each virtual one. */
  function SlotOf(id: nat): Range {
    if id < PF_MAX then Range(id * Q_PER_PF, Q_PER_PF) else Range(DefaultBase(id), Q_PER_VF)
  }

  /** Inside the hardware and apart from what is set aside for every other function. */
  ghost predicate KeepsClear(src: nat, r: Range) {
    r.qbase + r.qmax <= Q_TOTAL && forall g :: 0 <= g <= 249 && g != src ==> Disjoint(r, SlotOf(g))
  }

  /** The function for which queue `q` is set aside. */
  function OwnerOf(q: nat): nat {
    if q < Q_PER_PF * PF_MAX then q / Q_PER_PF else PF_MAX + (q - Q_PER_PF * PF_MAX) / Q_PER_VF
  }

  lemma {:induction false} OwnerExact(q: nat, g: nat)
    requires q < Q_TOTAL
    ensures Contains(SlotOf(g), q) <==> g == OwnerOf(q)
    ensures OwnerOf(q) <= 249
  {
  }

  /** A request is granted unseen. What the register then decodes to keeps clear of all other functions if and only if it
      is empty or lies inside the eight queues set aside for the one that asks; and it is the range in the reply if and
      only if that fits the fields. */
  lemma {:induction false} NamedBaseExact(w: World, src: nat, qbase: nat, qmax: nat)
    requires PF_MAX <= src <= 249
    ensures var g, w' := Answer(src, qbase, qmax), After(w, From(MapReq(src, qbase, qmax)));
            var d := Range(g.qbase % 2048, Or(g.qbase / 2048, g.qmax) % 4096);
            && src in w'.regs
            && (KeepsClear(src, Decode(w'.regs[src])) <==> d.qmax == 0 || InSlot(src, d))
            && (d == g <==> InFields(g))
  {
    hide Or, PackRange, Decode, KeepsClear, InSlot;
    var g := Answer(src, qbase, qmax);
    PackDecodes(g);
    PackRangeExact(g);
    ClearExact(src, Decode(PackRange(g)));
  }

  /** With no base named, that is so if and only if the low twelve bits of the count are at most eight. */
  lemma {:induction false} DefaultBaseExact(w: World, src: nat, qmax: nat)
    requires PF_MAX <= src <= 249
    ensures var w' := After(w, From(MapReq(src, 0, qmax)));
            src in w'.regs && (KeepsClear(src, Decode(w'.regs[src])) <==> qmax % 4096 <= Q_PER_VF)
  {
    hide KeepsClear, Decode, PackRange;
    NamedBaseExact(w, src, 0, qmax);
  }

  lemma {:induction false} ClearExact(src: nat, r: Range)
    requires PF_MAX <= src <= 249 && r.qbase < 2048
    ensures KeepsClear(src, r) <==> r.qmax == 0 || InSlot(src, r)
  {
    if InSlot(src, r) || r.qmax == 0 {
      forall g, q: nat | 0 <= g <= 249 && g != src ensures !(Contains(r, q) && Contains(SlotOf(g), q)) {
        if Contains(r, q) {
          OwnerExact(q, src);
          OwnerExact(q, g);
        }
      }
    } else if r.qbase + r.qmax <= Q_TOTAL {
      var last := r.qbase + r.qmax - 1;
      var q := if Contains(SlotOf(src), r.qbase) then last else r.qbase;
      OwnerExact(q, src);
      OwnerExact(q, OwnerOf(q));
      assert Contains(r, q) && Contains(SlotOf(OwnerOf(q)), q);
      assert !Disjoint(r, SlotOf(OwnerOf(q)));
    }
  }

  /** Two virtual functions, one of which names the other's base. */
  lemma {:induction false} ChosenBaseOverlaps(vfs: seq<Vf>)
    ensures var w0 := World(map[], map[], vfs, {});
            var w := After(After(w0, From(MapReq(2, 0, 8))), From(MapReq(3, 64, 8)));
            2 in w.regs && 3 in w.regs && !Disjoint(Decode(w.regs[2]), Decode(w.regs[3]))
  {
    var a := Range(64, 8);
    PackRangeExact(a);
    assert Contains(a, 64);
    assert !Disjoint(a, a);
  }

  /** After a range request, whatever it asks for, the register decodes to the range in the reply if and only if that fits
      11 and 12 bits, and the table holds it if and only if the function was in the table and it fits 16 bits each. So
      both hold it if and only if the function was in the table and it fits the register. */
  lemma {:induction false} MapExact(w: World, src: nat, qbase: nat, qmax: nat)
    requires src >= PF_MAX
    ensures var g, w' := Answer(src, qbase, qmax), After(w, From(MapReq(src, qbase, qmax)));
            && src in w'.regs && src in w'.granted && w'.granted[src] == g
            && (Decode(w'.regs[src]) == g <==> InFields(g))
            && (Matches(w', src) <==> Registered(w.vfs, src) && Short(g))
            && (Decode(w'.regs[src]) == g && Matches(w', src) <==> Registered(w.vfs, src) && InFields(g))
  {
    hide PackRange, Decode;
    var g, w' := Answer(src, qbase, qmax), After(w, From(MapReq(src, qbase, qmax)));
    PackRangeExact(g);
    var k := FirstOf(w.vfs, src);
    if Registered(w.vfs, src) && Short(g) {
      assert Holds(w'.vfs[k], src, w'.granted[src]);
    }
  }

  /** After a hello the function is in the table if and only if a slot was free or it was there before. */
  lemma {:induction false} HelloExact(w: World, src: nat)
    ensures Registered(After(w, From(Hello(src))).vfs, src) <==> Registered(w.vfs, ID_INVALID) || Registered(w.vfs, src)
  {
    var vfs, k := Online(w.vfs, src), FirstOf(w.vfs, ID_INVALID);
    if Registered(w.vfs, ID_INVALID) {
      assert vfs[k].id == src;
    } else {
      assert vfs == w.vfs;
    }
  }

  /** After a goodbye the function has no slot, and its register decodes to the empty range. */
  lemma {:induction false} ByeExact(w: World, src: nat)
    requires src != ID_INVALID
    ensures var w' := After(w, From(Bye(src)));
            && !Registered(w'.vfs, src) && src !in w'.mapped
            && src in w'.regs && Decode(w'.regs[src]) == Range(0, 0)
  {
    PackRangeExact(Range(0, 0));
  }

  /** In every run, a function whose last message was a goodbye has no range. */
  lemma {:induction false} GoneStaysGone(pfq: Pfq, ws: seq<World>, es: seq<Event>, k: nat, i: nat, src: nat)
    requires Trace(pfq, ws, es) && k < i < |ws| && es[k] == From(Bye(src))
    requires forall j, b: nat, q: nat :: k < j < i ==> es[j] != From(MapReq(src, b, q))
    ensures src in ws[i].regs && Decode(ws[i].regs[src]) == Range(0, 0)
    decreases i
  {
    hide Decode, PackRange;
    assert Allowed(es[k], pfq) && ws[k + 1] == After(ws[k], es[k]);
    if i == k + 1 {
      ByeExact(ws[k], src);
    } else {
      GoneStaysGone(pfq, ws, es, k, i - 1, src);
      assert Allowed(es[i - 1], pfq) && ws[i - 1 + 1] == After(ws[i - 1], es[i - 1]);
      if es[i - 1] == From(Bye(src)) {
        ByeExact(ws[i - 1], src);
      } else if es[i - 1].From? && es[i - 1].msg.MapReq? {
        var m := es[i - 1].msg;
        assert es[i - 1] == From(MapReq(m.src, m.qbase, m.qmax));
      }
    }
  }

  /** The table routines, slot by slot: a hello takes the first free slot and leaves its old range in it, a goodbye clears
      every slot of the function, a range request changes the first slot of the function. */
  lemma {:induction false} TableExact(vfs: seq<Vf>, id: nat, r: Range, i: nat)
    requires i < |vfs|
    ensures |Online(vfs, id)| == |Offline(vfs, id)| == |Remap(vfs, id, r)| == |vfs|
    ensures Online(vfs, id)[i] ==
            if vfs[i].id == ID_INVALID && (forall j :: 0 <= j < i ==> vfs[j].id != ID_INVALID) then Vf(id, vfs[i].range) else vfs[i]
    ensures Offline(vfs, id)[i] == if vfs[i].id == id then Vf(ID_INVALID, Range(0, 0)) else vfs[i]
    ensures Remap(vfs, id, r)[i] ==
            if vfs[i].id == id && (forall j :: 0 <= j < i ==> vfs[j].id != id)
            then Vf(id, Range(r.qbase % 0x1_0000, r.qmax % 0x1_0000)) else vfs[i]
  {
  }

  /** What the table and the registers hold for one function does not depend on the messages of others. */
  lemma {:induction false} OthersApart(w: World, id: nat, src: nat, e: Event)
    requires e.From? && e.msg.src == src >= PF_MAX && src != id && id != ID_INVALID
    ensures var w' := After(w, e);
            && (Registered(w'.vfs, id) <==> Registered(w.vfs, id))
            && (id in w'.regs <==> id in w.regs)
            && (id in w.regs ==> w'.regs[id] == w.regs[id])
            && (id in w'.granted <==> id in w.granted)
            && (id in w.granted ==> w'.granted[id] == w.granted[id] && (Matches(w', id) <==> Matches(w, id)))
  {
    hide PackRange;
    var w' := After(w, e);
    assert |w'.vfs| == |w.vfs|;
    assert forall i :: 0 <= i < |w.vfs| && (w'.vfs[i].id == id || w.vfs[i].id == id) ==> w'.vfs[i] == w.vfs[i];
    if Registered(w.vfs, id) {
      var i :| 0 <= i < |w.vfs| && w.vfs[i].id == id;
      assert w'.vfs[i].id == id;
    }
    if Registered(w'.vfs, id) {
      var i :| 0 <= i < |w'.vfs| && w'.vfs[i].id == id;
      assert w.vfs[i].id == id;
    }
    if id in w.granted && Matches(w, id) {
      var i :| 0 <= i < |w.vfs| && Holds(w.vfs[i], id, w.granted[id]);
      assert Holds(w'.vfs[i], id, w'.granted[id]);
    }
    if id in w.granted && Matches(w', id) {
      var i :| 0 <= i < |w'.vfs| && Holds(w'.vfs[i], id, w'.granted[id]);
      assert Holds(w.vfs[i], id, w.granted[id]);
    }
  }

  /** A function that asks before it says hello gets its range, but the table does not know it. */
  lemma {:induction false} MapBeforeHello(w: World, src: nat)
    requires w.vfs == [Vf(ID_INVALID, Range(0, 0))] && 2 <= src <= 249
    ensures var w' := After(After(w, From(MapReq(src, 0, 8))), From(Hello(src)));
            src in w'.granted && w'.vfs == [Vf(src, Range(0, 0))] && !Matches(w', src)
  {
    hide PackRange;
  }

  // ---------------------------------------------------------------------------
  // Hardware indices of a virtual function's queues
  // ---------------------------------------------------------------------------

  class VfDevice {
    const qidxHw: array<nat>
    var qbase: nat
    var ready: bool

    ghost predicate Valid()
      reads this, qidxHw
    {
      (!ready ==> qbase == 0) && forall i :: 0 <= i < qidxHw.Length ==> qidxHw[i] == qbase + i
    }

    constructor (qmax: nat)
      ensures Valid() && fresh(qidxHw) && qidxHw.Length == qmax && !ready
    {
      qidxHw := new nat[qmax](i requires 0 <= i => i);
      qbase, ready := 0, false;
    }

    /** `qdma_device_prep_q_resource` with the reply of the physical function: however often it is called and however
        often the request fails, the hardware index of queue `i` is the base plus `i`. */
    method PrepQueues(rv: int, granted: nat)
      requires Valid()
      modifies this, qidxHw
      ensures Valid()
      ensures ready <==> old(ready) || rv >= 0
      ensures qbase == if old(ready) || rv < 0 then old(qbase) else granted % 0x1_0000
    {
      if ready || rv < 0 {
        return;
      }
      qbase := granted % 0x1_0000;
      var i := 0;
      while i < qidxHw.Length
        invariant 0 <= i <= qidxHw.Length && qbase == granted % 0x1_0000
        invariant forall j :: 0 <= j < i ==> qidxHw[j] == qbase + j
        invariant forall j :: i <= j < qidxHw.Length ==> qidxHw[j] == j
      {
        qidxHw[i] := qidxHw[i] + qbase;
        i := i + 1;
      }
      ready := true;
    }
  }
}
