/**
 FI packets: the sender's id, the logarithm of the frame length and one group of
 fields per slot, in the layout of the ns-2 code and in that of the ns-3 code.
 */
module FiPackets {
  import opened Bits
  import opened FiCodec
  import opened SlotTable

  /** The `BIT_LENGTH_*` constants. */
  datatype Layout = Layout(busy: nat, sti: nat, frameLen: nat, count: nat, psf: nat) {
    function SlotBits(): nat { busy + sti + count + psf }
    function SlotAt(i: nat): nat { sti + frameLen + SlotBits() * i }
    function Bytes(slots: nat): nat { (SlotAt(slots) + 7) / 8 }
  }

  const NS2 := Layout(2, 16, 4, 8, 2)
  const NS3 := Layout(2, 9, 4, 2, 0)

  // ---------- Writing fields into a clear buffer ----------

  /** Nothing is written from bit `p` on. */
  ghost predicate Clear(buf: seq<Byte>, p: nat) {
    forall q :: p <= q < 8 * |buf| ==> !BitAt(buf, q)
  }

  /** Every field that ends at or below bit `r` is the same in both buffers. */
  ghost predicate Kept(buf: seq<Byte>, buf': seq<Byte>, r: nat) {
    && |buf| == |buf'|
    && forall p: nat, n: nat :: p + n <= r && p + n <= 8 * |buf| ==> Field(buf', p, n) == Field(buf, p, n)
  }

  lemma FieldWritten(buf: seq<Byte>, buf': seq<Byte>, p: nat, n: nat, v: nat)
    requires Clear(buf, p) && Written(buf, buf', p, n, v) && p + n <= 8 * |buf|
    ensures Field(buf', p, n) == Low(v, n) && Clear(buf', p + n) && Kept(buf, buf', p)
  {
    hide Bit, BitAt, Low;
    forall j | 0 <= j < n ensures BitAt(buf', p + n - 1 - j) == Bit(Low(v, n), j) { LowBit(v, n, j); }
    FieldIs(buf', p, n, Low(v, n));
    forall q: nat, m: nat | q + m <= p ensures Field(buf', q, m) == Field(buf, q, m) {
      FieldFrame(buf, buf', q, m);
    }
  }

  /** Two adjoining parts of a value make the value. */
  lemma WrittenJoin(a: seq<Byte>, b: seq<Byte>, d: seq<Byte>, p: nat, n: nat, m: nat, v: nat, low: nat)
    requires Written(a, b, p, n, Shr(v, m)) && Written(b, d, p + n, m, low) && p + n + m <= 8 * |a|
    requires forall i :: 0 <= i < m ==> Bit(low, i) == Bit(v, i)
    ensures Written(a, d, p, n + m, v)
  {
    hide Bit, BitAt, Shr;
    forall q | 0 <= q < 8 * |a|
      ensures BitAt(d, q) == (BitAt(a, q) || (p <= q < p + n + m && Bit(v, p + n + m - 1 - q)))
    {
      if p <= q < p + n { BitShr(v, m, p + n - 1 - q); }
    }
  }

  /** The conversion to `unsigned char`. */
  function LowByte(x: nat): (b: Byte)
    ensures forall i :: 0 <= i < 8 ==> Bit(b, i) == Bit(x, i)
  {
    LowByteBits(x);
    And(x, Ones(8))
  }

  lemma LowByteBits(x: nat)
    ensures And(x, Ones(8)) < 256
    ensures forall i :: 0 <= i < 8 ==> Bit(And(x, Ones(8)), i) == Bit(x, i)
  {
    forall i: nat ensures Bit(And(x, Ones(8)), i) == (i < 8 && Bit(x, i)) {
      BitAnd(x, Ones(8), i);
      BitOnes(8, i);
    }
    BelowPow2(And(x, Ones(8)), 8);
    assert Pow2(8) == 256;
  }

  lemma ShrTwice(v: nat, a: nat, b: nat)
    ensures Shr(Shr(v, a), b) == Shr(v, a + b)
    decreases a
  {
    if 0 < a { ShrTwice(v / 2, a - 1, b); }
  }

  lemma WrittenNone(a: seq<Byte>, p: nat, v: nat)
    ensures Written(a, a, p, 0, v)
  {
  }

  lemma WrittenLow(a: seq<Byte>, b: seq<Byte>, p: nat, n: nat, v: nat)
    requires Written(a, b, p, n, LowByte(v)) && n <= 8
    ensures Written(a, b, p, n, v)
  {
    hide Bit, BitAt, LowByte;
  }

  /** A field of any length: its odd leading bits, then whole bytes from the top. */
  method PutField(value: nat, len: nat, buffer: array<Byte>, bytePos: nat, bitPos: nat)
    returns (bytePos': nat, bitPos': nat)
    requires bitPos < 8 && 1 <= len && Cursor(bytePos, bitPos) + len <= 8 * buffer.Length
    modifies buffer
    ensures bitPos' < 8 && Cursor(bytePos', bitPos') == Cursor(bytePos, bitPos) + len
    ensures Written(old(buffer[..]), buffer[..], Cursor(bytePos, bitPos), len, value)
  {
    hide Written, Shr, Bit, LowByte;
    ghost var before, p := buffer[..], Cursor(bytePos, bitPos);
    bytePos', bitPos' := bytePos, bitPos;
    var head, j := len % 8, len / 8;
    assert len == head + 8 * j;
    if head != 0 {
      bytePos', bitPos' := SetValue(LowByte(Shr(value, 8 * j)), head, buffer, bytePos', bitPos');
      WrittenLow(before, buffer[..], p, head, Shr(value, 8 * j));
    } else {
      WrittenNone(before, p, Shr(value, 8 * j));
    }
    while 0 < j
      invariant 0 <= j && head + 8 * j <= len && bitPos' < 8 && Cursor(bytePos', bitPos') == p + len - 8 * j
      invariant buffer.Length == |before| && Written(before, buffer[..], p, len - 8 * j, Shr(value, 8 * j))
    {
      j := j - 1;
      ghost var now := buffer[..];
      bytePos', bitPos' := SetValue(LowByte(Shr(value, 8 * j)), 8, buffer, bytePos', bitPos');
      ShrTwice(value, 8 * j, 8);
      WrittenJoin(before, now, buffer[..], p, len - 8 * j - 8, 8, Shr(value, 8 * j), LowByte(Shr(value, 8 * j)));
    }
    ShrNone(value);
  }

  lemma ShrNone(v: nat)
    ensures Shr(v, 0) == v
  {
  }

  // ---------- Packets ----------

  predicate InRange(l: Layout, m: Mark) {
    m.busy < Pow2(l.busy) && m.sti < Pow2(l.sti) && m.count2 < Pow2(l.count) && m.psf < Pow2(l.psf)
  }

  /** What the fields have room for. */
  function Cut(l: Layout, m: Mark): (r: Mark)
    ensures InRange(l, m) ==> r == m
  {
    Mark(Low(m.busy, l.busy), Low(m.sti, l.sti), Low(m.count2, l.count), Low(m.psf, l.psf))
  }

  function CutAll(l: Layout, marks: seq<Mark>): (r: seq<Mark>)
    ensures |r| == |marks| && forall i :: 0 <= i < |marks| ==> r[i] == Cut(l, marks[i])
  {
    seq(|marks|, i requires 0 <= i < |marks| => Cut(l, marks[i]))
  }

  /** The slot fields from bit `p` on spell the mark. */
  ghost predicate SlotCarries(buf: seq<Byte>, l: Layout, p: nat, m: Mark) {
    && p + l.SlotBits() <= 8 * |buf|
    && Field(buf, p, l.busy) == m.busy
    && Field(buf, p + l.busy, l.sti) == m.sti
    && Field(buf, p + l.busy + l.sti, l.count) == m.count2
    && Field(buf, p + l.busy + l.sti + l.count, l.psf) == m.psf
  }

  lemma SlotFrame(buf: seq<Byte>, buf': seq<Byte>, l: Layout, p: nat, m: Mark, r: nat)
    requires SlotCarries(buf, l, p, m) && Kept(buf, buf', r) && p + l.SlotBits() <= r
    ensures SlotCarries(buf', l, p, m)
  {
  }

  /** Writes the low bits of a value at the end of what is written so far. */
  method Append(value: nat, len: nat, buffer: array<Byte>, bytePos: nat, bitPos: nat)
    returns (bytePos': nat, bitPos': nat)
    requires bitPos < 8 && Cursor(bytePos, bitPos) + len <= 8 * buffer.Length
    requires Clear(buffer[..], Cursor(bytePos, bitPos))
    modifies buffer
    ensures bitPos' < 8 && Cursor(bytePos', bitPos') == Cursor(bytePos, bitPos) + len
    ensures Field(buffer[..], Cursor(bytePos, bitPos), len) == Low(value, len)
    ensures Clear(buffer[..], Cursor(bytePos', bitPos'))
    ensures Kept(old(buffer[..]), buffer[..], Cursor(bytePos, bitPos))
  {
    bytePos', bitPos' := bytePos, bitPos;
    if 0 < len {
      bytePos', bitPos' := PutField(value, len, buffer, bytePos, bitPos);
      FieldWritten(old(buffer[..]), buffer[..], Cursor(bytePos, bitPos), len, value);
    }
  }

  lemma KeptField(a: seq<Byte>, b: seq<Byte>, r: nat, p: nat, n: nat)
    requires Kept(a, b, r) && p + n <= r && p + n <= 8 * |a|
    ensures |a| == |b| && Field(b, p, n) == Field(a, p, n)
  {
  }

  lemma KeptTwice(a: seq<Byte>, b: seq<Byte>, d: seq<Byte>, p: nat, q: nat)
    requires Kept(a, b, p) && Kept(b, d, q) && p <= q
    ensures Kept(a, d, p)
  {
  }

  /** Two fields in a row. */
  method AppendTwo(v: nat, n: nat, w: nat, m: nat, buffer: array<Byte>, bytePos: nat, bitPos: nat)
    returns (bytePos': nat, bitPos': nat)
    requires bitPos < 8 && Cursor(bytePos, bitPos) + n + m <= 8 * buffer.Length
    requires Clear(buffer[..], Cursor(bytePos, bitPos))
    modifies buffer
    ensures bitPos' < 8 && Cursor(bytePos', bitPos') == Cursor(bytePos, bitPos) + n + m
    ensures Field(buffer[..], Cursor(bytePos, bitPos), n) == Low(v, n)
    ensures Field(buffer[..], Cursor(bytePos, bitPos) + n, m) == Low(w, m)
    ensures Clear(buffer[..], Cursor(bytePos', bitPos'))
    ensures Kept(old(buffer[..]), buffer[..], Cursor(bytePos, bitPos))
  {
    hide *;
    ghost var p, a := Cursor(bytePos, bitPos), buffer[..];
    bytePos', bitPos' := Append(v, n, buffer, bytePos, bitPos);
    ghost var b := buffer[..];
    bytePos', bitPos' := Append(w, m, buffer, bytePos', bitPos');
    KeptTwice(a, b, buffer[..], p, p + n);
    KeptField(b, buffer[..], p + n, p, n);
  }

  /** The fields of one slot. */
  method AppendSlot(l: Layout, m: Mark, buffer: array<Byte>, bytePos: nat, bitPos: nat)
    returns (bytePos': nat, bitPos': nat)
    requires bitPos < 8 && Cursor(bytePos, bitPos) + l.SlotBits() <= 8 * buffer.Length
    requires Clear(buffer[..], Cursor(bytePos, bitPos))
    modifies buffer
    ensures bitPos' < 8 && Cursor(bytePos', bitPos') == Cursor(bytePos, bitPos) + l.SlotBits()
    ensures SlotCarries(buffer[..], l, Cursor(bytePos, bitPos), Cut(l, m))
    ensures Clear(buffer[..], Cursor(bytePos', bitPos'))
    ensures Kept(old(buffer[..]), buffer[..], Cursor(bytePos, bitPos))
  {
    hide Field, Bit, BitAt, Low, Clear, Kept, Cursor, Pow2;
    ghost var p, a := Cursor(bytePos, bitPos), buffer[..];
    bytePos', bitPos' := AppendTwo(m.busy, l.busy, m.sti, l.sti, buffer, bytePos, bitPos);
    bytePos', bitPos' := AppendRest(l, m, buffer, bytePos', bitPos', a, p);
  }

  /** The last two fields of the slot at bit `p`; `a` is the buffer before the first two. */
  method AppendRest(l: Layout, m: Mark, buffer: array<Byte>, bytePos: nat, bitPos: nat, ghost a: seq<Byte>,
                    ghost p: nat)
    returns (bytePos': nat, bitPos': nat)
    requires bitPos < 8 && Cursor(bytePos, bitPos) == p + l.busy + l.sti && p + l.SlotBits() <= 8 * buffer.Length
    requires |a| == buffer.Length && Clear(buffer[..], Cursor(bytePos, bitPos)) && Kept(a, buffer[..], p)
    requires Field(buffer[..], p, l.busy) == Low(m.busy, l.busy)
    requires Field(buffer[..], p + l.busy, l.sti) == Low(m.sti, l.sti)
    modifies buffer
    ensures bitPos' < 8 && Cursor(bytePos', bitPos') == p + l.SlotBits()
    ensures SlotCarries(buffer[..], l, p, Cut(l, m)) && Kept(a, buffer[..], p)
    ensures Clear(buffer[..], Cursor(bytePos', bitPos'))
  {
    hide Field, Bit, BitAt, Low, Clear, Kept, Cursor, Pow2;
    ghost var b := buffer[..];
    bytePos', bitPos' := AppendTwo(m.count2, l.count, m.psf, l.psf, buffer, bytePos, bitPos);
    SlotDone(a, b, buffer[..], l, p, m);
  }

  /** The first two fields of a slot are still there when the other two have been written. */
  lemma SlotDone(a: seq<Byte>, b: seq<Byte>, d: seq<Byte>, l: Layout, p: nat, m: Mark)
    requires |a| == |b| == |d| && p + l.SlotBits() <= 8 * |a|
    requires Kept(a, b, p) && Kept(b, d, p + l.busy + l.sti)
    requires Field(b, p, l.busy) == Low(m.busy, l.busy) && Field(b, p + l.busy, l.sti) == Low(m.sti, l.sti)
    requires Field(d, p + l.busy + l.sti, l.count) == Low(m.count2, l.count)
    requires Field(d, p + l.busy + l.sti + l.count, l.psf) == Low(m.psf, l.psf)
    ensures SlotCarries(d, l, p, Cut(l, m)) && Kept(a, d, p)
  {
    hide Field, Low, Kept;
    var q := p + l.busy + l.sti;
    KeptTwice(a, b, d, p, q);
    KeptField(b, d, q, p, l.busy);
    KeptField(b, d, q, p + l.busy, l.sti);
  }

  ghost predicate HeaderCarries(buf: seq<Byte>, l: Layout, sender: nat, log: nat) {
    && l.sti + l.frameLen <= 8 * |buf|
    && Field(buf, 0, l.sti) == sender && Field(buf, l.sti, l.frameLen) == log
  }

  lemma HeaderFrame(buf: seq<Byte>, buf': seq<Byte>, l: Layout, sender: nat, log: nat, r: nat)
    requires HeaderCarries(buf, l, sender, log) && Kept(buf, buf', r) && l.sti + l.frameLen <= r
    ensures HeaderCarries(buf', l, sender, log)
  {
  }

  /** The first `k` slots are written. */
  ghost predicate SlotsCarry(buf: seq<Byte>, l: Layout, marks: seq<Mark>, k: nat) {
    k <= |marks| && forall i :: 0 <= i < k ==> SlotCarries(buf, l, l.SlotAt(i), marks[i])
  }

  lemma SlotsFrame(buf: seq<Byte>, buf': seq<Byte>, l: Layout, marks: seq<Mark>, k: nat)
    requires SlotsCarry(buf, l, marks, k) && Kept(buf, buf', l.SlotAt(k))
    ensures SlotsCarry(buf', l, marks, k)
  {
    forall i | 0 <= i < k ensures SlotCarries(buf', l, l.SlotAt(i), marks[i]) {
      SlotOffsets(l, i + 1, k);
      SlotFrame(buf, buf', l, l.SlotAt(i), marks[i], l.SlotAt(k));
    }
  }

  ghost predicate Carries(buf: seq<Byte>, l: Layout, sender: nat, log: nat, marks: seq<Mark>) {
    HeaderCarries(buf, l, sender, log) && SlotsCarry(buf, l, marks, |marks|)
  }

  /** `generate_FI_packet` and the `FiHeader` constructor: the packet of an FI. */
  method Encode(l: Layout, sender: nat, log: nat, marks: seq<Mark>) returns (buffer: array<Byte>)
    ensures fresh(buffer) && buffer.Length == l.Bytes(|marks|)
    ensures Carries(buffer[..], l, Low(sender, l.sti), Low(log, l.frameLen), CutAll(l, marks))
  {
    hide Field, Bit, BitAt, Low, Cut;
    ghost var s, g, ms := Low(sender, l.sti), Low(log, l.frameLen), CutAll(l, marks);
    buffer := new Byte[l.Bytes(|marks|)](_ => 0);
    SlotOffsets(l, 0, |marks|);
    BlankClear(buffer[..]);
    var bytePos, bitPos := AppendTwo(sender, l.sti, log, l.frameLen, buffer, 0, 7);
    for k := 0 to |marks|
      invariant bitPos < 8 && Cursor(bytePos, bitPos) == l.SlotAt(k) && Clear(buffer[..], l.SlotAt(k))
      invariant HeaderCarries(buffer[..], l, s, g) && SlotsCarry(buffer[..], l, ms, k)
    {
      ghost var b := buffer[..];
      SlotOffsets(l, k, |marks|);
      SlotOffsets(l, k + 1, |marks|);
      bytePos, bitPos := AppendSlot(l, marks[k], buffer, bytePos, bitPos);
      HeaderFrame(b, buffer[..], l, s, g, l.SlotAt(k));
      SlotsFrame(b, buffer[..], l, ms, k);
    }
  }

  lemma SlotOffsets(l: Layout, i: nat, n: nat)
    requires i <= n
    ensures l.sti + l.frameLen <= l.SlotAt(i) <= l.SlotAt(n) <= 8 * l.Bytes(n)
    ensures 0 < i ==> l.SlotAt(i) == l.SlotAt(i - 1) + l.SlotBits()
  {
    var b := l.SlotBits();
    assert b * i <= b * n;
    if 0 < i { assert b * i == b * (i - 1) + b; }
  }

  lemma BlankClear(buf: seq<Byte>)
    requires forall i :: 0 <= i < |buf| ==> buf[i] == 0
    ensures Clear(buf, 0)
  {
    forall q | 0 <= q < 8 * |buf| ensures !BitAt(buf, q) { ZeroBit(7 - q % 8); }
  }

  // ---------- Reading packets ----------

  /** What `decode_slot_tag` makes of the fields from bit `p` on. */
  function DecodedMark(buf: seq<Byte>, l: Layout, p: nat): Mark
    requires p + l.SlotBits() <= 8 * |buf|
  {
    Mark(Decoded(buf, p, l.busy), Decoded(buf, p + l.busy, l.sti),
         Decoded(buf, p + l.busy + l.sti, l.count), Decoded(buf, p + l.busy + l.sti + l.count, l.psf))
  }

  method DecodeSlot(l: Layout, buffer: array<Byte>, bytePos: nat, bitPos: nat)
    returns (m: Mark, bytePos': nat, bitPos': nat)
    requires bitPos < 8 && Cursor(bytePos, bitPos) + l.SlotBits() <= 8 * buffer.Length
    ensures bitPos' < 8 && Cursor(bytePos', bitPos') == Cursor(bytePos, bitPos) + l.SlotBits()
    ensures m == DecodedMark(buffer[..], l, Cursor(bytePos, bitPos))
  {
    hide Decoded;
    var busy, sti, count, psf;
    busy, bytePos', bitPos' := DecodeValue(buffer, bytePos, bitPos, l.busy);
    sti, bytePos', bitPos' := DecodeValue(buffer, bytePos', bitPos', l.sti);
    count, bytePos', bitPos' := DecodeValue(buffer, bytePos', bitPos', l.count);
    psf, bytePos', bitPos' := DecodeValue(buffer, bytePos', bitPos', l.psf);
    m := Mark(busy, sti, count, psf);
  }

  /**
   `recvFI`: the frame length is taken from the packet if frames may change their length, else it is
   the node's own.
   */
  method Decode(l: Layout, buffer: array<Byte>, adjustFrame: bool, ownLen: nat)
    returns (sender: nat, log: nat, marks: seq<Mark>)
    requires l.sti + l.frameLen <= 8 * buffer.Length
    requires l.SlotAt(if adjustFrame then Pow2(Decoded(buffer[..], l.sti, l.frameLen)) else ownLen) <= 8 * buffer.Length
    ensures sender == Decoded(buffer[..], 0, l.sti) && log == Decoded(buffer[..], l.sti, l.frameLen)
    ensures |marks| == if adjustFrame then Pow2(log) else ownLen
    ensures forall i :: 0 <= i < |marks| ==>
      l.SlotAt(i) + l.SlotBits() <= 8 * buffer.Length && marks[i] == DecodedMark(buffer[..], l, l.SlotAt(i))
  {
    hide Decoded;
    var bytePos, bitPos;
    sender, bytePos, bitPos := DecodeValue(buffer, 0, 7, l.sti);
    log, bytePos, bitPos := DecodeValue(buffer, bytePos, bitPos, l.frameLen);
    var n := if adjustFrame then Pow2(log) else ownLen;
    marks := [];
    for k := 0 to n
      invariant bitPos < 8 && Cursor(bytePos, bitPos) == l.SlotAt(k) && |marks| == k
      invariant forall i :: 0 <= i < k ==>
        l.SlotAt(i) + l.SlotBits() <= 8 * buffer.Length && marks[i] == DecodedMark(buffer[..], l, l.SlotAt(i))
    {
      SlotOffsets(l, k + 1, n);
      var m;
      m, bytePos, bitPos := DecodeSlot(l, buffer, bytePos, bitPos);
      marks := marks + [m];
    }
  }

  // ---------- The round trip ----------

  /** A field of `n` bits at bit `p` lies in one byte as far as its odd leading bits go. */
  predicate Aligned(p: nat, n: nat) { n % 8 <= 8 - p % 8 }

  lemma AlignedExact(buf: seq<Byte>, p: nat, n: nat)
    requires p + n <= 8 * |buf| && Aligned(p, n)
    ensures Decoded(buf, p, n) == Field(buf, p, n)
  {
    DecodeExact(buf, p, n);
  }

  lemma Ns2Aligned(i: nat)
    ensures var p := NS2.SlotAt(i);
      Aligned(p, 2) && Aligned(p + 2, 16) && Aligned(p + 18, 8) && Aligned(p + 26, 2)
  {
    assert NS2.SlotAt(i) == 20 + 28 * i;
    var q, r := i / 2, i % 2;
    assert NS2.SlotAt(i) == 8 * (7 * q) + (20 + 28 * r);
    Mod8(7 * q, 20 + 28 * r);
    Mod8(7 * q, 22 + 28 * r);
    Mod8(7 * q, 38 + 28 * r);
    Mod8(7 * q, 46 + 28 * r);
  }

  /** Every slot of an ns-2 packet is read as it was written. */
  lemma Ns2Exact(buf: seq<Byte>, sender: nat, log: nat, marks: seq<Mark>)
    requires Carries(buf, NS2, sender, log, marks)
    ensures Decoded(buf, 0, 16) == sender && Decoded(buf, 16, 4) == log
    ensures forall i :: 0 <= i < |marks| ==> DecodedMark(buf, NS2, NS2.SlotAt(i)) == marks[i]
  {
    hide Decoded, Field;
    AlignedExact(buf, 0, 16);
    AlignedExact(buf, 16, 4);
    forall i | 0 <= i < |marks| ensures DecodedMark(buf, NS2, NS2.SlotAt(i)) == marks[i] {
      var p := NS2.SlotAt(i);
      assert SlotCarries(buf, NS2, p, marks[i]);
      Ns2Aligned(i);
      AlignedExact(buf, p, 2);
      AlignedExact(buf, p + 2, 16);
      AlignedExact(buf, p + 18, 8);
      AlignedExact(buf, p + 26, 2);
    }
  }

  /** The ns-2 codec: an FI with in-range fields arrives as it was sent, and so does a power-of-two frame length. */
  method Ns2RoundTrip(sender: nat, log: nat, marks: seq<Mark>)
    returns (sender': nat, marks': seq<Mark>)
    requires log < 16 && |marks| == Pow2(log)
    ensures sender' == Low(sender, 16) && marks' == CutAll(NS2, marks)
    ensures (forall i :: 0 <= i < |marks| ==> InRange(NS2, marks[i])) ==> marks' == marks
  {
    hide Decoded, Field, Cut, InRange;
    assert Pow2(4) == 16;
    var buffer := Encode(NS2, sender, log, marks);
    Ns2Exact(buffer[..], Low(sender, 16), log, CutAll(NS2, marks));
    SlotOffsets(NS2, |marks|, |marks|);
    var log';
    sender', log', marks' := Decode(NS2, buffer, true, 0);
  }

  /** A 2-bit field whose first bit is the last of its byte: that bit is read as bit 7. */
  function Straddled(v: nat): nat { if 2 <= v then v + 126 else v }

  lemma StraddledRead(buf: seq<Byte>, p: nat, v: nat)
    requires p % 8 == 7 && p + 2 <= 8 * |buf| && Field(buf, p, 2) == v
    ensures Decoded(buf, p, 2) == Straddled(v)
  {
    hide Field;
    var index, hi, lo := p / 8, Field(buf, p, 1), Field(buf, p + 1, 1);
    FieldSplit(buf, p, 1, 1);
    assert Shl(hi, 1) == 2 * hi && Pow2(1) == 2;
    FieldBound(buf, p, 1);
    FieldBound(buf, p + 1, 1);
    assert At(index, 1) == p && 8 * index + 8 == p + 1;
    assert Decoded(buf, p, 2) == Piece(buf, index, 1, 2);
    ShlSeven(hi);
  }

  lemma ShlSeven(x: nat)
    ensures Shl(x, 7) == 128 * x
  {
    calc {
      Shl(x, 7);
      2 * Shl(x, 6);
      4 * Shl(x, 5);
      8 * Shl(x, 4);
      16 * Shl(x, 3);
      32 * Shl(x, 2);
      64 * Shl(x, 1);
      128 * x;
    }
  }

  /** What arrives of the mark of slot `i` in the ns-3 layout. */
  function Arrived(i: nat, m: Mark): Mark {
    Mark(if i % 8 == 2 then Straddled(m.busy) else m.busy, m.sti,
         if i % 8 == 3 then Straddled(m.count2) else m.count2, 0)
  }

  lemma Ns3Layout(i: nat)
    ensures var p := NS3.SlotAt(i);
      && (if i % 8 == 2 then p % 8 == 7 else Aligned(p, 2))
      && Aligned(p + 2, 9)
      && (if i % 8 == 3 then (p + 11) % 8 == 7 else Aligned(p + 11, 2))
      && Aligned(p + 13, 0)
  {
    assert NS3.SlotAt(i) == 13 + 13 * i;
    var q, r := i / 8, i % 8;
    var p := NS3.SlotAt(i);
    assert p == 8 * (13 * q) + (13 + 13 * r);
    Mod8(13 * q, 13 + 13 * r);
    Mod8(13 * q, 15 + 13 * r);
    Mod8(13 * q, 24 + 13 * r);
  }

  lemma Mod8(a: nat, b: nat)
    ensures (8 * a + b) % 8 == b % 8
  {
  }

  /**
   Every slot of an ns-3 packet is read as it was written, but for `busy` in slots 2 and `count` in
   slots 3 modulo 8.
   */
  lemma Ns3Exact(buf: seq<Byte>, sender: nat, log: nat, marks: seq<Mark>)
    requires Carries(buf, NS3, sender, log, marks)
    ensures Decoded(buf, 0, 9) == sender && Decoded(buf, 9, 4) == log
    ensures forall i :: 0 <= i < |marks| ==> DecodedMark(buf, NS3, NS3.SlotAt(i)) == Arrived(i, marks[i])
  {
    hide Decoded, Field;
    AlignedExact(buf, 0, 9);
    AlignedExact(buf, 9, 4);
    forall i | 0 <= i < |marks| ensures DecodedMark(buf, NS3, NS3.SlotAt(i)) == Arrived(i, marks[i]) {
      Ns3Slot(buf, i, marks[i]);
    }
  }

  lemma Ns3Slot(buf: seq<Byte>, i: nat, m: Mark)
    requires SlotCarries(buf, NS3, NS3.SlotAt(i), m)
    ensures DecodedMark(buf, NS3, NS3.SlotAt(i)) == Arrived(i, m)
  {
    hide Decoded, Field;
    var p := NS3.SlotAt(i);
    Ns3Layout(i);
    if i % 8 == 2 { StraddledRead(buf, p, m.busy); } else { AlignedExact(buf, p, 2); }
    AlignedExact(buf, p + 2, 9);
    if i % 8 == 3 { StraddledRead(buf, p + 11, m.count2); } else { AlignedExact(buf, p + 11, 2); }
    AlignedExact(buf, p + 13, 0);
    EmptyField(buf, p + 13);
  }

  lemma EmptyField(buf: seq<Byte>, p: nat)
    requires p <= 8 * |buf|
    ensures Field(buf, p, 0) == 0
  {
  }

  /**
   The ns-3 codec: sender, frame length and every id arrive; a mark arrives as sent exactly when it is
   not one of those two.
   */
  method Ns3RoundTrip(sender: nat, log: nat, marks: seq<Mark>)
    returns (sender': nat, marks': seq<Mark>)
    requires log < 16 && |marks| == Pow2(log)
    ensures sender' == Low(sender, 9) && |marks'| == |marks|
    ensures forall i :: 0 <= i < |marks| ==> marks'[i] == Arrived(i, Cut(NS3, marks[i]))
    ensures forall i :: 0 <= i < |marks| && InRange(NS3, marks[i]) ==>
      (marks'[i] == marks[i] <==> !(i % 8 == 2 && 2 <= marks[i].busy) && !(i % 8 == 3 && 2 <= marks[i].count2))
  {
    hide Decoded, Field, Cut;
    assert Pow2(4) == 16 && Pow2(9) == 512 && Pow2(0) == 1;
    var buffer := Encode(NS3, sender, log, marks);
    Ns3Exact(buffer[..], Low(sender, 9), log, CutAll(NS3, marks));
    SlotOffsets(NS3, |marks|, |marks|);
    var log';
    sender', log', marks' := Decode(NS3, buffer, true, 0);
  }

  /**
   What the straddling costs the protocol: in every slot that is 2 modulo 8, an
   FI's word that a station owns the slot, or that it is collided, changes
   nothing at a receiver, neither its own slot nor anybody else's.
   */
  lemma ClaimsLost(c: Config, i: nat, m: Mark, t: Tag, sender: nat, newNeighbor: bool)
    requires i % 8 == 2 && (m.busy == SLOT_1HOP || m.busy == SLOT_COLLISION) && m.sti != 0
    ensures OwnRule(c, t, Arrived(i, m), sender, newNeighbor) == t
    ensures OtherRule(c, t, Arrived(i, m), sender) == t
  {
  }
}
