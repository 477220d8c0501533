/** Queue contexts: the bit fields packed into them, and the indirect window through which they are cleared,
    written and read back. */
module Context {

  // ---------------------------------------------------------------------------
  // Bit fields (all words are computed in 64 bits and fit 32)
  // ---------------------------------------------------------------------------

  function High(addr: bv64): bv64 { (addr >> 16) >> 16 }
  function Low(addr: bv64): bv64 { addr & 0xFFFF_FFFF }

  /** The two address words of the software context give the address back. */
  lemma {:induction false} SwAddressDecodes(addr: bv64)
    ensures (High(addr) << 32) | Low(addr) == addr
    ensures High(addr) & 0xFFFF_FFFF == High(addr) && Low(addr) & 0xFFFF_FFFF == Low(addr)
  {
  }

  /** Bytes per descriptor, by which the ring is allocated. */
  function DescSize(st: bool, c2h: bool): bv64 {
    if !st then 32 else if c2h then 8 else 16
  }

  function SizeSel(st: bool, c2h: bool): bv64 {
    if !st then 2 else if c2h then 0 else 1
  }

  /** Word 1 of the software context. */
  function SwWord1(st: bool, c2h: bool, func: bv64, irq: bv64, channel: bv64): bv64 {
    var common := 1 | (1 << 3) | (1 << 2) | (func << 4) | (1 << 20) | (irq << 21);
    if !st then common | (2 << 16) | (channel << 19)
    else if c2h then common | (1 << 1) | (0 << 16)
    else common | (1 << 16)
  }

  predicate SwInRange(func: bv64, irq: bv64, channel: bv64) {
    func & 0xFF == func && irq & 1 == irq && channel & 1 == channel
  }

  lemma {:induction false} SwFunc(st: bool, c2h: bool, func: bv64, irq: bv64, channel: bv64)
    requires SwInRange(func, irq, channel)
    ensures (SwWord1(st, c2h, func, irq, channel) >> 4) & 0xFF == func
  {
  }

  lemma {:induction false} SwIrq(st: bool, c2h: bool, func: bv64, irq: bv64, channel: bv64)
    requires SwInRange(func, irq, channel)
    ensures (SwWord1(st, c2h, func, irq, channel) >> 21) & 1 == irq
  {
  }

  lemma {:induction false} SwSize(st: bool, c2h: bool, func: bv64, irq: bv64, channel: bv64)
    requires SwInRange(func, irq, channel)
    ensures (SwWord1(st, c2h, func, irq, channel) >> 16) & 3 == SizeSel(st, c2h)
  {
  }

  lemma {:induction false} SwChannel(c2h: bool, func: bv64, irq: bv64, channel: bv64)
    requires SwInRange(func, irq, channel)
    ensures (SwWord1(false, c2h, func, irq, channel) >> 19) & 1 == channel
  {
  }

  /** The enable flags: queue, status writeback, its checks and its accumulation, and the credit check of ST C2H. */
  lemma {:induction false} SwFlags(st: bool, c2h: bool, func: bv64, irq: bv64, channel: bv64)
    requires SwInRange(func, irq, channel)
    ensures SwWord1(st, c2h, func, irq, channel) & 0x10_000F == if st && c2h then 0x10_000F else 0x10_000D
  {
  }

  /** What the hardware reads out of word 1. */
  datatype SwFields = SwFields(func: bv64, irq: bv64, sizeSel: bv64, channel: bv64, flags: bv64)

  function SwDecode(w: bv64): SwFields {
    SwFields((w >> 4) & 0xFF, (w >> 21) & 1, (w >> 16) & 3, (w >> 19) & 1, w & 0x10_000F)
  }

  /** Function id, interrupt flag, enable flags, descriptor size and, for memory-mapped queues, the channel are read back
      from word 1. */
  lemma {:induction false} SwWordDecodes(st: bool, c2h: bool, func: bv64, irq: bv64, channel: bv64)
    requires SwInRange(func, irq, channel)
    ensures var d := SwDecode(SwWord1(st, c2h, func, irq, channel));
            d.func == func && d.irq == irq && d.sizeSel == SizeSel(st, c2h)
            && d.flags == (if st && c2h then 0x10_000F else 0x10_000D) && (!st ==> d.channel == channel)
  {
    hide SwWord1, SwInRange, SizeSel;
    SwFunc(st, c2h, func, irq, channel);
    SwIrq(st, c2h, func, irq, channel);
    SwSize(st, c2h, func, irq, channel);
    SwFlags(st, c2h, func, irq, channel);
    SwChannel(c2h, func, irq, channel);
  }

  /** Selector `s` means descriptors of 8 * 2^s bytes. */
  lemma {:induction false} SizeSelMeans(st: bool, c2h: bool)
    ensures DescSize(st, c2h) == (8 as bv64) << SizeSel(st, c2h)
  {
  }

  /** The writeback ring address in units of 64 bytes, assembled from its halves. */
  function Units(addr: bv64): bv64 {
    (High(addr) << 26) | (Low(addr) >> 6)
  }

  function Wrb0(u: bv64, stat: bv64, irq: bv64, trig: bv64, func: bv64): bv64 {
    stat | (irq << 1) | (trig << 2) | ((func & 0xFF) << 5) | (1 << 23) | (((u & 0xF) & 0xF) << 28)
  }

  function Wrb1(u: bv64): bv64 { (u >> 4) & 0xFFFF_FFFF }

  function Wrb2(u: bv64, descSize: bv64): bv64 {
    (((u >> 36) & 0x3F_FFFF) & 0x3F_FFFF) | (descSize << 22)
  }

  function Wrb3(): bv64 { 1 << 24 }

  // The fields of the writeback context, as the hardware reads them
  function StatOf(w0: bv64): bv64 { w0 & 1 }
  function IrqOf(w0: bv64): bv64 { (w0 >> 1) & 1 }
  function TrigOf(w0: bv64): bv64 { (w0 >> 2) & 7 }
  function FuncOf(w0: bv64): bv64 { (w0 >> 5) & 0xFF }
  function ColorOf(w0: bv64): bv64 { (w0 >> 23) & 1 }
  function Low4Of(w0: bv64): bv64 { (w0 >> 28) & 0xF }
  function Top22Of(w2: bv64): bv64 { w2 & 0x3F_FFFF }
  function SizeOf(w2: bv64): bv64 { (w2 >> 22) & 3 }
  function ValidOf(w3: bv64): bv64 { (w3 >> 24) & 1 }

  predicate WrbInRange(stat: bv64, irq: bv64, trig: bv64, func: bv64) {
    stat & 1 == stat && irq & 1 == irq && trig & 7 == trig && func & 0xFF == func
  }

  /** What the hardware reads out of the four words. */
  datatype WrbFields = WrbFields(addr: bv64, stat: bv64, irq: bv64, trig: bv64, func: bv64, color: bv64, descSize: bv64, valid: bv64)

  function JoinAddress(low4: bv64, mid32: bv64, top22: bv64): bv64 {
    (low4 | (mid32 << 4) | (top22 << 36)) << 6
  }

  function WrbDecode(w0: bv64, w1: bv64, w2: bv64, w3: bv64): WrbFields {
    WrbFields(JoinAddress(Low4Of(w0), w1, Top22Of(w2)), StatOf(w0), IrqOf(w0), TrigOf(w0), FuncOf(w0), ColorOf(w0), SizeOf(w2),
              ValidOf(w3))
  }

  predicate Aligned(addr: bv64) {
    addr & 0x3F == 0
  }

  /** Every field of the writeback context is read back, and the ring address, split over three words as 4, 32 and 22
      bits, is read back whole if and only if it is 64-byte aligned. */
  lemma {:induction false} WrbDecodesExact(addr: bv64, stat: bv64, irq: bv64, trig: bv64, func: bv64, descSize: bv64)
    requires WrbInRange(stat, irq, trig, func) && descSize & 3 == descSize
    ensures var u := Units(addr);
            (WrbDecode(Wrb0(u, stat, irq, trig, func), Wrb1(u), Wrb2(u, descSize), Wrb3()) ==
             WrbFields(addr, stat, irq, trig, func, 1, descSize, 1)) <==> Aligned(addr)
  {
  }

  /** The command word names queue, operation and context without mixing them up. */
  function Command(qid: bv32, op: bv32, sel: bv32): bv32 {
    (qid << 7) | (op << 5) | (sel << 1)
  }

  // The fields of the command word, as the hardware reads them
  function QidOf(v: bv32): bv32 { (v >> 7) & 0x7FF }
  function OpOf(v: bv32): bv32 { (v >> 5) & 3 }
  function SelOf(v: bv32): bv32 { (v >> 1) & 0xF }

  /** The part of a queue number that the command word has room for. */
  function Low11(qid: bv32): bv32 { qid & 0x7FF }

  lemma {:induction false} CommandDecodes(qid: bv32, op: bv32, sel: bv32)
    requires op & 3 == op && sel & 0xF == sel
    ensures var v := Command(qid, op, sel);
            QidOf(v) == Low11(qid) && OpOf(v) == op && SelOf(v) == sel
    ensures Low11(qid) == qid <==> qid < 0x800
  {
  }

  lemma {:induction false} CommandInjective(q: bv32, o: bv32, s: bv32, q': bv32, o': bv32, s': bv32)
    requires q & 0x7FF == q && o & 3 == o && s & 0xF == s
    requires q' & 0x7FF == q' && o' & 3 == o' && s' & 0xF == s'
    ensures Command(q, o, s) == Command(q', o', s') <==> q == q' && o == o' && s == s'
  {
  }
}
