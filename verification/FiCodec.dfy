/**
 `setvalue` and `decode_value`: packing fields of a few bits, most significant
 bit first, across the bytes of a buffer. A cursor (byte_pos, bit_pos) denotes
 bit `8 * byte_pos + 7 - bit_pos` of the buffer.
 */
module FiCodec {
  import opened Bits

  type Byte = x: nat | x < 256

  function Cursor(bytePos: nat, bitPos: nat): nat
    requires bitPos < 8
  {
    8 * bytePos + 7 - bitPos
  }

  predicate BitAt(buf: seq<Byte>, p: nat)
    requires p < 8 * |buf|
  {
    Bit(buf[p / 8], 7 - p % 8)
  }

  /** The number that the `n` bits from `p` on spell, most significant first. */
  function Field(buf: seq<Byte>, p: nat, n: nat): nat
    requires p + n <= 8 * |buf|
  {
    if n == 0 then 0 else 2 * Field(buf, p, n - 1) + Digit(BitAt(buf, p + n - 1))
  }

  lemma {:induction false} FieldBit(buf: seq<Byte>, p: nat, n: nat, j: nat)
    requires p + n <= 8 * |buf|
    ensures Bit(Field(buf, p, n), j) == (j < n && BitAt(buf, p + n - 1 - j))
    decreases n
  {
    hide Bit, BitAt, Digit;
    if n == 0 {
      ZeroBit(j);
    } else {
      DoubleBit(Field(buf, p, n - 1), BitAt(buf, p + n - 1), j);
      if 0 < j { FieldBit(buf, p, n - 1, j - 1); }
    }
  }

  lemma FieldBound(buf: seq<Byte>, p: nat, n: nat)
    requires p + n <= 8 * |buf|
    ensures Field(buf, p, n) < Pow2(n)
  {
  }

  /** A field whose bits spell `v` is the low part of `v`. */
  lemma {:induction false} FieldIs(buf: seq<Byte>, p: nat, n: nat, v: nat)
    requires p + n <= 8 * |buf|
    requires forall j :: 0 <= j < n ==> BitAt(buf, p + n - 1 - j) == Bit(v, j)
    requires v < Pow2(n)
    ensures Field(buf, p, n) == v
  {
    forall j: nat ensures Bit(Field(buf, p, n), j) == Bit(v, j) {
      FieldBit(buf, p, n, j);
      if n <= j { HighBitsClear(v, n, j); }
    }
    Extensional(Field(buf, p, n), v);
  }

  lemma {:induction false} FieldSplit(buf: seq<Byte>, p: nat, a: nat, b: nat)
    requires p + a + b <= 8 * |buf|
    ensures Field(buf, p, a + b) == Shl(Field(buf, p, a), b) + Field(buf, p + a, b)
    decreases b
  {
    if 0 < b { FieldSplit(buf, p, a, b - 1); }
  }

  lemma FieldFrame(buf: seq<Byte>, buf': seq<Byte>, p: nat, n: nat)
    requires |buf| == |buf'| && p + n <= 8 * |buf|
    requires forall q :: p <= q < p + n ==> BitAt(buf, q) == BitAt(buf', q)
    ensures Field(buf, p, n) == Field(buf', p, n)
  {
  }

  // ---------- Writing ----------

  /** The bits of one store: the low bits of `v >> f`, put at bit `s` of the byte. */
  lemma {:induction false} StoredBit(b: nat, v: nat, f: nat, w: nat, s: nat, i: nat)
    ensures Bit(Or(b, Shl(And(Shr(v, f), Ones(w)), s)), i) ==
            (Bit(b, i) || (s <= i < s + w && Bit(v, f + i - s)))
  {
    var x := And(Shr(v, f), Ones(w));
    BitOr(b, Shl(x, s), i);
    BitShl(x, s, i);
    if s <= i {
      BitAnd(Shr(v, f), Ones(w), i - s);
      BitShr(v, f, i - s);
      BitOnes(w, i - s);
    }
  }

  lemma {:induction false} StoredByte(b: Byte, v: nat, f: nat, w: nat, s: nat)
    requires s + w <= 8
    ensures Or(b, Shl(And(Shr(v, f), Ones(w)), s)) < 256
  {
    var x := Or(b, Shl(And(Shr(v, f), Ones(w)), s));
    assert Pow2(8) == 256;
    forall i: nat | 8 <= i ensures !Bit(x, i) {
      StoredBit(b, v, f, w, s, i);
      HighBitsClear(b, 8, i);
    }
    BelowPow2(x, 8);
  }

  /** `buf'` is `buf` with the low `n` bits of `v` ORed in at bit `p`. */
  ghost predicate Written(buf: seq<Byte>, buf': seq<Byte>, p: nat, n: nat, v: nat) {
    && |buf'| == |buf|
    && forall q :: 0 <= q < 8 * |buf| ==>
         BitAt(buf', q) == (BitAt(buf, q) || (p <= q < p + n && Bit(v, p + n - 1 - q)))
  }

  /** Where a bit of the buffer is. */
  lemma BitIs(buf: seq<Byte>, index: nat, r: nat)
    requires index < |buf| && 8 * index <= r < 8 * index + 8
    ensures r < 8 * |buf| && BitAt(buf, r) == Bit(buf[index], 8 * index + 7 - r)
  {
  }

  lemma BitElsewhere(buf: seq<Byte>, index: nat, b: Byte, r: nat)
    requires index < |buf| && r < 8 * |buf| && !(8 * index <= r < 8 * index + 8)
    ensures BitAt(buf[index := b], r) == BitAt(buf, r)
  {
    assert r / 8 != index;
  }

  /** What one store does to bit `r`, counted from the first bit `q` that it writes. */
  lemma StoredAt(cur: seq<Byte>, v: nat, index: nat, b: Byte, f: nat, w: nat, s: nat, q: nat, r: nat)
    requires index < |cur| && s + w <= 8 && q + s + w == 8 * index + 8 && r < 8 * |cur|
    requires b == Or(cur[index], Shl(And(Shr(v, f), Ones(w)), s))
    ensures BitAt(cur[index := b], r) == (BitAt(cur, r) || (q <= r < q + w && Bit(v, f + (q + w - 1 - r))))
  {
    hide Bit, BitAt, Or, Shl, And, Shr, Ones;
    if 8 * index <= r < 8 * index + 8 {
      BitIs(cur, index, r);
      BitIs(cur[index := b], index, r);
      StoredBit(cur[index], v, f, w, s, 8 * index + 7 - r);
    } else {
      BitElsewhere(cur, index, b, r);
    }
  }

  /** One store of `setvalue` extends what is written of the value by `w` bits. */
  lemma {:induction false} StoreExtends(buf: seq<Byte>, cur: seq<Byte>, p: nat, n: nat, v: nat,
                                        rest: nat, index: nat, remain: nat, w: nat)
    requires w <= rest <= n && p + n <= 8 * |buf| && 0 < w <= remain <= 8
    requires 8 * index + 8 - remain == p + n - rest
    requires Written(buf, cur, p, n - rest, Shr(v, rest))
    ensures index < |cur|
    ensures var b := Or(cur[index], Shl(And(Shr(v, rest - w), Ones(w)), remain - w));
      b < 256 && Written(buf, cur[index := b], p, n - rest + w, Shr(v, rest - w))
  {
    hide Bit, BitAt, Or, Shl, And, Shr, Ones;
    var q, s, f := p + n - rest, remain - w, rest - w;
    StoredByte(cur[index], v, f, w, s);
    var b: Byte := Or(cur[index], Shl(And(Shr(v, f), Ones(w)), s));
    var buf' := cur[index := b];
    forall r | 0 <= r < 8 * |buf|
      ensures BitAt(buf', r) == (BitAt(buf, r) || (p <= r < q + w && Bit(Shr(v, f), q + w - 1 - r)))
    {
      StoredAt(cur, v, index, b, f, w, s, q, r);
      if p <= r < q + w { BitShr(v, f, q + w - 1 - r); }
      if p <= r < q { BitShr(v, rest, q - 1 - r); }
    }
  }

  /** One store of `setvalue`: `width` more bits of the `rest` that are still to write. */
  method Store(value: Byte, n: nat, buffer: array<Byte>, rest: nat, index: nat, remain: nat, width: nat,
               ghost before: seq<Byte>, ghost p: nat)
    requires width <= rest <= n && p + n <= 8 * |before| && 0 < width <= remain <= 8
    requires 8 * index + 8 - remain == p + n - rest
    requires Written(before, buffer[..], p, n - rest, Shr(value, rest))
    modifies buffer
    ensures Written(before, buffer[..], p, n - rest + width, Shr(value, rest - width))
  {
    ghost var now := buffer[..];
    StoreExtends(before, now, p, n, value, rest, index, remain, width);
    buffer[index] := Or(buffer[index], Shl(And(Shr(value, rest - width), Ones(width)), remain - width));
    assert buffer[..] == now[index := buffer[index]];
  }

  /** `setvalue`. */
  method SetValue(value: Byte, bitLen: nat, buffer: array<Byte>, bytePos: nat, bitPos: nat)
    returns (bytePos': nat, bitPos': nat)
    requires bitPos < 8 && 1 <= bitLen
    requires Cursor(bytePos, bitPos) + bitLen <= 8 * buffer.Length
    modifies buffer
    ensures bitPos' < 8 && Cursor(bytePos', bitPos') == Cursor(bytePos, bitPos) + bitLen
    ensures Written(old(buffer[..]), buffer[..], Cursor(bytePos, bitPos), bitLen, value)
  {
    ghost var p := Cursor(bytePos, bitPos);
    ghost var before := buffer[..];
    var index, fieldLength, bitRemain := bytePos, bitLen, bitPos + 1;
    while true
      invariant 0 <= bitRemain <= 8 && 0 <= fieldLength <= bitLen
      invariant 8 * index + 8 - bitRemain == p + bitLen - fieldLength
      invariant Written(before, buffer[..], p, bitLen - fieldLength, Shr(value, fieldLength))
      decreases fieldLength
    {
      if bitRemain == 0 {
        bitRemain := 8;
        index := index + 1;
      }
      if fieldLength == 0 { break; }
      var width := if bitRemain >= fieldLength then fieldLength else bitRemain;
      Store(value, bitLen, buffer, fieldLength, index, bitRemain, width, before, p);
      fieldLength, bitRemain := fieldLength - width, bitRemain - width;
    }
    bytePos', bitPos' := index, bitRemain - 1;
  }

  // ---------- Reading ----------

  /** The bit that is `remain` bits before the end of byte `index`. */
  function At(index: nat, remain: nat): nat
    requires remain <= 8
  {
    8 * index + 8 - remain
  }

  /** One load: `n` bits inside one byte. */
  lemma {:induction false} Loaded(buf: seq<Byte>, index: nat, remain: nat, n: nat)
    requires 0 < n <= remain <= 8 && index < |buf|
    ensures And(Shr(buf[index], remain - n), Ones(n)) == Field(buf, At(index, remain), n)
  {
    var b, s, p := buf[index], remain - n, At(index, remain);
    forall j: nat ensures Bit(And(Shr(b, s), Ones(n)), j) == Bit(Field(buf, p, n), j) {
      BitAnd(Shr(b, s), Ones(n), j);
      BitShr(b, s, j);
      BitOnes(n, j);
      FieldBit(buf, p, n, j);
      if j < n {
        var r := p + n - 1 - j;
        assert r / 8 == index && 7 - r % 8 == s + j;
      }
    }
    Extensional(And(Shr(b, s), Ones(n)), Field(buf, p, n));
  }

  /**
   What the source reads for a piece of at most eight bits of which `remain`
   fit into the current byte: when the piece runs over into the next byte, its
   first part is shifted as if the piece were a whole byte, whatever its length.
   */
  function Piece(buf: seq<Byte>, index: nat, remain: nat, n: nat): nat
    requires 1 <= remain <= 8 && n <= 8 && At(index, remain) + n <= 8 * |buf|
  {
    if n <= remain then Field(buf, At(index, remain), n)
    else Shl(Field(buf, At(index, remain), remain), 8 - remain) + Field(buf, 8 * index + 8, n - remain)
  }

  /** `decode_value`: the odd leading bits, then whole bytes. */
  function Decoded(buf: seq<Byte>, p: nat, n: nat): nat
    requires p + n <= 8 * |buf|
  {
    if n < 8 then Piece(buf, p / 8, 8 - p % 8, n)
    else 256 * Decoded(buf, p, n - 8) + Field(buf, p + n - 8, 8)
  }

  lemma {:induction false} Misplaced(high: nat, low: nat, s: nat, t: nat)
    requires t < s
    ensures Shl(high, s) + low == Shl(high, t) + low <==> high == 0
  {
    ShlPositive(high, s);
    ShlPositive(high, t);
    if 0 < high { ShlGrows(high, s, t); }
  }

  /** A piece is read right exactly when it stays in its byte, is a whole byte, or its first part is zero. */
  lemma {:induction false} PieceExact(buf: seq<Byte>, index: nat, remain: nat, n: nat)
    requires 1 <= remain <= 8 && n <= 8 && At(index, remain) + n <= 8 * |buf|
    ensures Piece(buf, index, remain, n) == Field(buf, At(index, remain), n) <==>
      n <= remain || n == 8 || Field(buf, At(index, remain), remain) == 0
  {
    if remain < n {
      var p, over := At(index, remain), n - remain;
      FieldSplit(buf, p, remain, over);
      if n < 8 { Misplaced(Field(buf, p, remain), Field(buf, p + remain, over), 8 - remain, over); }
    }
  }

  /** The field's odd leading bits run over a byte boundary, and those before it are not all zero. */
  ghost predicate Garbled(buf: seq<Byte>, p: nat, n: nat)
    requires p + n <= 8 * |buf|
  {
    8 - p % 8 < n % 8 && Field(buf, p, 8 - p % 8) != 0
  }

  lemma {:induction false} GarbledHead(buf: seq<Byte>, p: nat, n: nat)
    requires p + n + 8 <= 8 * |buf|
    ensures Garbled(buf, p, n + 8) == Garbled(buf, p, n)
  {
    assert (n + 8) % 8 == n % 8;
  }

  lemma {:induction false} NextByte(buf: seq<Byte>, p: nat, n: nat)
    requires p + n + 8 <= 8 * |buf|
    ensures Field(buf, p, n + 8) == 256 * Field(buf, p, n) + Field(buf, p + n, 8)
  {
    FieldSplit(buf, p, n, 8);
    ShlByte(Field(buf, p, n));
  }

  lemma {:induction false} ShortExact(buf: seq<Byte>, p: nat, n: nat)
    requires n < 8 && p + n <= 8 * |buf|
    ensures Decoded(buf, p, n) == Field(buf, p, n) <==> !Garbled(buf, p, n)
  {
    assert At(p / 8, 8 - p % 8) == p && n % 8 == n;
    PieceExact(buf, p / 8, 8 - p % 8, n);
  }

  /** When `decode_value` returns the field it was pointed at: for all buffers, positions and lengths. */
  lemma {:induction false} DecodeExact(buf: seq<Byte>, p: nat, n: nat)
    requires p + n <= 8 * |buf|
    ensures Decoded(buf, p, n) == Field(buf, p, n) <==> !Garbled(buf, p, n)
    decreases n
  {
    if n < 8 {
      ShortExact(buf, p, n);
    } else {
      var m := n - 8;
      DecodeExact(buf, p, m);
      NextByte(buf, p, m);
      GarbledHead(buf, p, m);
    }
  }

  lemma {:induction false} ShlByte(x: nat)
    ensures Shl(x, 8) == 256 * x
  {
    calc {
      Shl(x, 8);
      2 * Shl(x, 7);
      4 * Shl(x, 6);
      8 * Shl(x, 5);
      16 * Shl(x, 4);
      32 * Shl(x, 3);
      64 * Shl(x, 2);
      128 * Shl(x, 1);
      256 * x;
    }
  }

  /** ORing bits below 2^k into a value that is clear there is addition. */
  lemma {:induction false} JoinClear(high: nat, k: nat, y: nat, n: nat)
    requires y < Pow2(n) && n <= k
    ensures Or(Shl(high, k), y) == Shl(high, k) + y
  {
    Pow2Grows(n, k);
    OrIsAdd(high, k, y);
  }

  lemma {:induction false} JoinBoth(high: nat, hi: nat, lo: nat, r: nat, s: nat, rest: nat)
    requires hi < Pow2(r) && lo < Pow2(rest) && rest <= s
    ensures Or(Or(Shl(high, r + s), Shl(hi, s)), lo) == Shl(high, r + s) + Shl(hi, s) + lo
  {
    ShlBelow(hi, r, s);
    JoinClear(high, r + s, Shl(hi, s), r + s);
    ShlTwice(high, r, s);
    ShlAdd(Shl(high, r), hi, s);
    JoinClear(Shl(high, r) + hi, s, lo, rest);
  }

  /** The inner loop of `decode_value` as it stands, with `n` bits to go. */
  function Joined(buf: seq<Byte>, value: nat, index: nat, remain: nat, n: nat): nat
    requires 1 <= remain <= 8 && At(index, remain) + n <= 8 * |buf|
    decreases n
  {
    if n == 0 then value
    else if n <= remain then Or(value, Field(buf, At(index, remain), n))
    else Joined(buf, Or(value, Shl(Field(buf, At(index, remain), remain), 8 - remain)), index + 1, 8, n - remain)
  }

  /** On a value whose low byte is clear, the loop adds the piece. */
  lemma {:induction false} JoinedPiece(buf: seq<Byte>, high: nat, index: nat, remain: nat, n: nat)
    requires 1 <= remain <= 8 && n <= 8 && At(index, remain) + n <= 8 * |buf|
    ensures Joined(buf, Shl(high, 8), index, remain, n) == Shl(high, 8) + Piece(buf, index, remain, n)
  {
    if n <= remain {
      JoinedInside(buf, high, index, remain, n, 8);
    } else {
      JoinedAcross(buf, high, index, remain, n, 8 - remain);
    }
  }

  lemma {:induction false} JoinedInside(buf: seq<Byte>, high: nat, index: nat, remain: nat, n: nat, k: nat)
    requires n <= remain <= 8 <= k && 1 <= remain && At(index, remain) + n <= 8 * |buf|
    ensures Joined(buf, Shl(high, k), index, remain, n) == Shl(high, k) + Field(buf, At(index, remain), n)
  {
    FieldBound(buf, At(index, remain), n);
    JoinClear(high, k, Field(buf, At(index, remain), n), n);
  }

  lemma {:induction false} JoinedAcross(buf: seq<Byte>, high: nat, index: nat, remain: nat, n: nat, s: nat)
    requires 1 <= remain < n <= 8 && remain + s == 8 && At(index, remain) + n <= 8 * |buf|
    ensures Joined(buf, Shl(high, remain + s), index, remain, n) ==
            Shl(high, remain + s) + Shl(Field(buf, At(index, remain), remain), s)
            + Field(buf, 8 * index + 8, n - remain)
  {
    var hi, lo := Field(buf, At(index, remain), remain), Field(buf, 8 * index + 8, n - remain);
    var whole := Joined(buf, Shl(high, remain + s), index, remain, n);
    assert whole == Or(Or(Shl(high, remain + s), Shl(hi, s)), lo) by {
      JoinedOver(buf, Shl(high, remain + s), index, remain, n);
    }
    assert hi < Pow2(remain) && lo < Pow2(n - remain) by {
      FieldBound(buf, At(index, remain), remain);
      FieldBound(buf, 8 * index + 8, n - remain);
    }
    JoinBoth(high, hi, lo, remain, s, n - remain);
  }

  lemma {:induction false} JoinedOver(buf: seq<Byte>, value: nat, index: nat, remain: nat, n: nat)
    requires 1 <= remain < n <= 8 && At(index, remain) + n <= 8 * |buf|
    ensures Joined(buf, value, index, remain, n) ==
            Or(Or(value, Shl(Field(buf, At(index, remain), remain), 8 - remain)), Field(buf, 8 * index + 8, n - remain))
  {
  }

  lemma {:induction false} HeadRead(buf: seq<Byte>, index: nat, remain: nat, n: nat)
    requires 1 <= remain <= 8 && n < 8 && At(index, remain) + n <= 8 * |buf|
    ensures Joined(buf, 0, index, remain, n) == Decoded(buf, At(index, remain), n)
  {
    var p := At(index, remain);
    assert p / 8 == index && 8 - p % 8 == remain;
    ShlByte(0);
    JoinedPiece(buf, 0, index, remain, n);
  }

  lemma {:induction false} ByteRead(buf: seq<Byte>, p: nat, n: nat, index: nat, remain: nat)
    requires 1 <= remain <= 8 && At(index, remain) == p + n && p + n + 8 <= 8 * |buf|
    ensures Joined(buf, Shl(Decoded(buf, p, n), 8), index, remain, 8) == Decoded(buf, p, n + 8)
  {
    var value := Decoded(buf, p, n);
    ShlByte(value);
    JoinedPiece(buf, value, index, remain, 8);
    PieceExact(buf, index, remain, 8);
  }

  /** The inner loop of `decode_value`. */
  method ReadPiece(buffer: array<Byte>, value: nat, index: nat, bitRemain: nat, length: nat)
    returns (value': nat, index': nat, bitRemain': nat)
    requires 1 <= bitRemain <= 8 && At(index, bitRemain) + length <= 8 * buffer.Length
    ensures 1 <= bitRemain' <= 8 && At(index', bitRemain') == At(index, bitRemain) + length
    ensures value' == Joined(buffer[..], value, index, bitRemain, length)
  {
    value', index', bitRemain' := value, index, bitRemain;
    var fieldLength := length;
    while 0 < fieldLength
      invariant 1 <= bitRemain' <= 8 && 0 <= fieldLength <= length
      invariant At(index', bitRemain') + fieldLength == At(index, bitRemain) + length
      invariant Joined(buffer[..], value', index', bitRemain', fieldLength) ==
                Joined(buffer[..], value, index, bitRemain, length)
    {
      var width := if bitRemain' >= fieldLength then fieldLength else bitRemain';
      Loaded(buffer[..], index', bitRemain', width);
      var bits := And(Shr(buffer[index'], bitRemain' - width), Ones(width));
      if bitRemain' >= fieldLength {
        value' := Or(value', bits);
      } else {
        value' := Or(value', Shl(bits, 8 - bitRemain'));
      }
      fieldLength, bitRemain' := fieldLength - width, bitRemain' - width;
      if bitRemain' == 0 { index', bitRemain' := index' + 1, 8; }
    }
  }

  /** `decode_value`. */
  method DecodeValue(buffer: array<Byte>, bytePos: nat, bitPos: nat, length: nat)
    returns (value: nat, bytePos': nat, bitPos': nat)
    requires bitPos < 8 && Cursor(bytePos, bitPos) + length <= 8 * buffer.Length
    ensures bitPos' < 8 && Cursor(bytePos', bitPos') == Cursor(bytePos, bitPos) + length
    ensures value == Decoded(buffer[..], Cursor(bytePos, bitPos), length)
  {
    hide Decoded, Joined, Shl;
    ghost var p := Cursor(bytePos, bitPos);
    var index, bitRemain := bytePos, bitPos + 1;
    var head, bytes := length % 8, length / 8;
    assert length == head + 8 * bytes;
    HeadRead(buffer[..], index, bitRemain, head);
    value, index, bitRemain := ReadPiece(buffer, 0, index, bitRemain, head);
    for i := 0 to bytes
      invariant 1 <= bitRemain <= 8 && At(index, bitRemain) == p + head + 8 * i
      invariant value == Decoded(buffer[..], p, head + 8 * i)
    {
      ByteRead(buffer[..], p, head + 8 * i, index, bitRemain);
      value, index, bitRemain := ReadPiece(buffer, Shl(value, 8), index, bitRemain, 8);
    }
    bytePos', bitPos' := index, bitRemain - 1;
  }
}
