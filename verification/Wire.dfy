/** The wire format in literal numbers, apart from the encoder and the decoder: tag
    bytes, widths, ranges, byte order and field offsets, and what each byte string
    decodes to. */
module Wire {
  import opened Wrappers
  import opened Words
  import opened Codec
  import opened Record

  // ---- Digit sums --------------------------------------------------------------------

  /** Base 256, most significant byte first. */
  function HighFirst(bs: seq<byte>): nat {
    if bs == [] then 0 else 256 * HighFirst(bs[..|bs| - 1]) + bs[|bs| - 1]
  }

  /** Base 256, least significant byte first. */
  function LowFirst(bs: seq<byte>): nat {
    if bs == [] then 0 else LowFirst(bs[..|bs| - 1]) + bs[|bs| - 1] * Pow256(|bs| - 1)
  }

  function Digits(little: bool, bs: seq<byte>): nat {
    if little then LowFirst(bs) else HighFirst(bs)
  }

  lemma {:induction false} FromLittleLast(bs: seq<byte>, c: byte)
    ensures FromLittle(bs + [c]) == FromLittle(bs) + c * Pow256(|bs|)
    decreases |bs|
  {
    if bs == [] {
      assert FromLittle([c]) == c + 256 * FromLittle([]);
    } else {
      FromLittleLast(bs[1..], c);
      assert (bs + [c])[1..] == bs[1..] + [c] && (bs + [c])[0] == bs[0];
      Shifted(c, Pow256(|bs| - 1));
    }
  }

  lemma Shifted(c: nat, p: nat)
    ensures 256 * (c * p) == c * (256 * p)
  {
  }

  lemma {:induction false} LowFirstIsLittle(bs: seq<byte>)
    ensures FromLittle(bs) == LowFirst(bs)
    decreases |bs|
  {
    if bs != [] {
      var init, last := bs[..|bs| - 1], bs[|bs| - 1];
      LowFirstIsLittle(init);
      FromLittleLast(init, last);
      assert bs == init + [last];
    }
  }

  lemma {:induction false} HighFirstIsBig(bs: seq<byte>)
    ensures FromLittle(Reverse(bs)) == HighFirst(bs)
    decreases |bs|
  {
    if bs != [] {
      HighFirstIsBig(bs[..|bs| - 1]);
      assert Reverse(bs)[1..] == Reverse(bs[..|bs| - 1]);
    }
  }

  lemma NativeDigits(env: Env, bs: seq<byte>)
    ensures FromNe(env, bs) == Digits(env.little, bs)
  {
    LowFirstIsLittle(bs);
    HighFirstIsBig(bs);
  }

  /** The bytes written for a value have that digit sum. */
  lemma WrittenDigits(env: Env, v: nat, n: nat)
    requires v < Pow256(n)
    ensures Digits(env.little, ToNe(env, v, n)) == v
  {
    NeRoundTrip(env, v, n);
    NativeDigits(env, ToNe(env, v, n));
  }

  // ---- Numbers -------------------------------------------------------------------------

  /** Tag byte, type, width in bytes, and half the number of values. */
  predicate SignedTag(tag: byte, kind: NumKind, n: nat, half: nat) {
    || (tag == 0 && kind == I8 && n == 1 && half == 0x80)
    || (tag == 1 && kind == I16 && n == 2 && half == 0x8000)
    || (tag == 2 && kind == I32 && n == 4 && half == 0x8000_0000)
    || (tag == 3 && kind == I64 && n == 8 && half == 0x8000_0000_0000_0000)
    || (tag == 4 && kind == I128 && n == 16 && half == 0x8000_0000_0000_0000_0000_0000_0000_0000)
    || (tag == 15 && kind == Isize && n == 8 && half == 0x8000_0000_0000_0000)
  }

  /** Tag byte, type, width in bytes, and the number of values. Floats are their bits. */
  predicate UnsignedTag(tag: byte, kind: NumKind, n: nat, count: nat) {
    || (tag == 5 && kind == U8 && n == 1 && count == 0x100)
    || (tag == 6 && kind == U16 && n == 2 && count == 0x1_0000)
    || (tag == 7 && kind == U32 && n == 4 && count == 0x1_0000_0000)
    || (tag == 8 && kind == U64 && n == 8 && count == 0x1_0000_0000_0000_0000)
    || (tag == 9 && kind == U128 && n == 16 && count == 0x1_0000_0000_0000_0000_0000_0000_0000_0000)
    || (tag == 10 && kind == F32 && n == 4 && count == 0x1_0000_0000)
    || (tag == 11 && kind == F64 && n == 8 && count == 0x1_0000_0000_0000_0000)
    || (tag == 14 && kind == Usize && n == 8 && count == 0x1_0000_0000_0000_0000)
  }

  lemma {:induction false} PowAdd(a: nat, b: nat)
    ensures Pow256(a + b) == Pow256(a) * Pow256(b)
  {
    if a > 0 {
      PowAdd(a - 1, b);
    }
  }

  lemma Powers()
    ensures Pow256(1) == 0x100 && Pow256(2) == 0x1_0000 && Pow256(4) == 0x1_0000_0000
    ensures Pow256(8) == 0x1_0000_0000_0000_0000
    ensures Pow256(16) == 0x1_0000_0000_0000_0000_0000_0000_0000_0000
  {
    Pow256Eight();
    PowAdd(8, 8);
  }

  lemma SignedFacts(tag: byte, kind: NumKind, n: nat, half: nat)
    requires SignedTag(tag, kind, n, half)
    ensures TryTag(tag) == Some(NumTag(kind)) && Width(kind) == n && Signed(kind) && Pow256(n) == 2 * half
    ensures TagByte(NumTag(kind)) == tag
  {
    Powers();
  }

  lemma UnsignedFacts(tag: byte, kind: NumKind, n: nat, count: nat)
    requires UnsignedTag(tag, kind, n, count)
    ensures TryTag(tag) == Some(NumTag(kind)) && Width(kind) == n && !Signed(kind) && Pow256(n) == count
    ensures TagByte(NumTag(kind)) == tag
  {
    Powers();
  }

  lemma FixedOnTheWire(env: Env, data: seq<byte>, kind: NumKind, n: nat)
    requires data != [] && TryTag(data[0]) == Some(NumTag(kind)) && Width(kind) == n
    ensures |data| <= n ==> DecodeOne(env, data) == Err(BufferTooShort)
    ensures |data| > n ==>
      DecodeOne(env, data) == Ok((DNum(kind, FromBits(Signed(kind), Digits(env.little, data[1..n + 1]), n)), n + 1))
  {
    if |data| > n {
      assert data[1..][..n] == data[1..n + 1];
      NativeDigits(env, data[1..n + 1]);
    }
  }

  /** A signed number is the one in its type's range congruent to its digits. */
  lemma SignedOnTheWire(env: Env, data: seq<byte>, kind: NumKind, n: nat, half: nat)
    requires data != [] && SignedTag(data[0], kind, n, half)
    ensures |data| <= n ==> DecodeOne(env, data) == Err(BufferTooShort)
    ensures |data| > n ==>
      var d := Digits(env.little, data[1..n + 1]);
      d < 2 * half && DecodeOne(env, data) == Ok((DNum(kind, if d < half then d else d - 2 * half), n + 1))
  {
    SignedFacts(data[0], kind, n, half);
    FixedOnTheWire(env, data, kind, n);
    if |data| > n {
      NativeDigits(env, data[1..n + 1]);
    }
  }

  /** An unsigned number, and the bits of a float, are their digits. */
  lemma UnsignedOnTheWire(env: Env, data: seq<byte>, kind: NumKind, n: nat, count: nat)
    requires data != [] && UnsignedTag(data[0], kind, n, count)
    ensures |data| <= n ==> DecodeOne(env, data) == Err(BufferTooShort)
    ensures |data| > n ==>
      var d := Digits(env.little, data[1..n + 1]);
      d < count && DecodeOne(env, data) == Ok((DNum(kind, d), n + 1))
  {
    UnsignedFacts(data[0], kind, n, count);
    FixedOnTheWire(env, data, kind, n);
    if |data| > n {
      NativeDigits(env, data[1..n + 1]);
    }
  }

  /** Every value of a signed type can be logged, and is written in two's complement. */
  lemma SignedWritten(env: Env, tag: byte, kind: NumKind, n: nat, half: nat, v: int)
    requires SignedTag(tag, kind, n, half)
    ensures ValidArg(env, Num(kind, v)) <==> 0 - half <= v < half
    ensures 0 - half <= v < half ==>
      var bs := Encode(env, Num(kind, v));
      |bs| == n + 1 && bs[0] == tag && Digits(env.little, bs[1..]) == if v < 0 then v + 2 * half else v
  {
    SignedFacts(tag, kind, n, half);
    if 0 - half <= v < half {
      var bits := ToBits(true, v, n);
      WrittenDigits(env, bits, n);
      assert Encode(env, Num(kind, v))[1..] == ToNe(env, bits, n);
    }
  }

  lemma UnsignedWritten(env: Env, tag: byte, kind: NumKind, n: nat, count: nat, v: int)
    requires UnsignedTag(tag, kind, n, count)
    ensures ValidArg(env, Num(kind, v)) <==> 0 <= v < count
    ensures 0 <= v < count ==>
      var bs := Encode(env, Num(kind, v));
      |bs| == n + 1 && bs[0] == tag && Digits(env.little, bs[1..]) == v
  {
    UnsignedFacts(tag, kind, n, count);
    if 0 <= v < count {
      WrittenDigits(env, v, n);
      assert Encode(env, Num(kind, v))[1..] == ToNe(env, v, n);
    }
  }

  // ---- The other tags -------------------------------------------------------------------

  /** No byte, a byte above 16, and a boolean. */
  lemma SmallOnTheWire(env: Env, data: seq<byte>)
    ensures data == [] ==> DecodeOne(env, data) == Err(BufferTooShort)
    ensures data != [] && data[0] > 16 ==> DecodeOne(env, data) == Err(UnknownTag(data[0]))
    ensures data == [12] ==> DecodeOne(env, data) == Err(BufferTooShort)
    ensures |data| >= 2 && data[0] == 12 ==> DecodeOne(env, data) == Ok((DBool(data[1] != 0), 2))
    ensures Encode(env, Bool(true)) == [12, 1] && Encode(env, Bool(false)) == [12, 0]
  {
  }

  /** A string: four length bytes, then UTF-8. */
  lemma StringOnTheWire(env: Env, data: seq<byte>)
    requires data != [] && data[0] == 13
    ensures |data| < 5 ==> DecodeOne(env, data) == Err(BufferTooShort)
    ensures |data| >= 5 ==>
      var len := Digits(env.little, data[1..5]);
      DecodeOne(env, data) ==
        if 4 + len >= Pow256(env.ptrWidth) then Err(SumOverflows)
        else if |data| < 5 + len then Err(BufferTooShort)
        else if env.utf8(data[5..5 + len]).None? then Err(InvalidUtf8)
        else Ok((DStr(env.utf8(data[5..5 + len]).value), 5 + len))
  {
    if |data| >= 5 {
      assert data[1..][..4] == data[1..5];
      NativeDigits(env, data[1..5]);
      var len := Digits(env.little, data[1..5]);
      if |data| >= 5 + len {
        assert data[1..][4..4 + len] == data[5..5 + len];
      }
    }
  }

  /** A custom argument: the decoder, four length bytes, then the payload. */
  lemma CustomOnTheWire(env: Env, data: seq<byte>)
    requires data != [] && data[0] == 16
    ensures var w := env.ptrWidth; |data| < w + 5 ==> DecodeOne(env, data) == Err(BufferTooShort)
    ensures var w := env.ptrWidth; |data| >= w + 5 ==>
      var len := Digits(env.little, data[w + 1..w + 5]);
      var out := if |data| < w + 5 + len then None else env.runDecoder(Digits(env.little, data[1..w + 1]), data[w + 5..w + 5 + len]);
      DecodeOne(env, data) ==
        if w + 4 + len >= Pow256(w) then Err(SumOverflows)
        else if |data| < w + 5 + len then Err(BufferTooShort)
        else if out.None? then Err(DecoderFailed)
        else Ok((DCustom(out.value), w + 5 + len))
  {
    var w := env.ptrWidth;
    if |data| >= w + 5 {
      assert data[1..][w..w + 4] == data[w + 1..w + 5] && data[1..][..w] == data[1..w + 1];
      NativeDigits(env, data[w + 1..w + 5]);
      NativeDigits(env, data[1..w + 1]);
      var len := Digits(env.little, data[w + 1..w + 5]);
      if |data| >= w + 5 + len {
        assert data[1..][w + 4..w + 4 + len] == data[w + 5..w + 5 + len];
      }
    }
  }

  /** Every string and custom payload below 4 GiB whose encoding fits `usize` can be
      logged, and every boolean. */
  lemma AdmittedArgs(env: Env, text: seq<byte>, decoder: nat, payload: seq<byte>, on: bool)
    ensures ValidArg(env, Bool(on))
    ensures ValidArg(env, Str(text)) <==>
              |text| < 0x1_0000_0000 && 5 + |text| < Pow256(env.ptrWidth) && env.utf8(text).Some?
    ensures ValidArg(env, Custom(decoder, payload)) <==>
              && decoder < Pow256(env.ptrWidth) && |payload| < 0x1_0000_0000
              && env.ptrWidth + 5 + |payload| < Pow256(env.ptrWidth)
  {
    Powers();
  }

  /** So can every call with such arguments whose record is small enough. */
  lemma AdmittedCalls(env: Env, call: LogCall)
    ensures ValidCall(env, call) <==>
      && (forall i :: 0 <= i < |call.args| ==> ValidArg(env, call.args[i]))
      && call.timestamp < 0x1_0000_0000_0000_0000 && call.metadata < Pow256(env.ptrWidth) && call.logger < Pow256(env.ptrWidth)
      && ArgsSize(env, call.args) < 0x1_0000_0000 && 2 * env.ptrWidth + 16 + ArgsSize(env, call.args) < Pow256(env.ptrWidth)
  {
    Powers();
  }

  lemma StringWritten(env: Env, text: seq<byte>)
    requires ValidArg(env, Str(text))
    ensures var bs := Encode(env, Str(text));
      |bs| == 5 + |text| && bs[0] == 13 && Digits(env.little, bs[1..5]) == |text| && bs[5..] == text
  {
    WrittenDigits(env, |text|, 4);
    assert Encode(env, Str(text))[1..5] == ToNe(env, |text|, 4);
  }

  lemma ThreeParts(t: byte, a: seq<byte>, b: seq<byte>, c: seq<byte>)
    ensures var all := [t] + (a + b + c);
      && |all| == 1 + |a| + |b| + |c|
      && all[1..|a| + 1] == a && all[|a| + 1..|a| + |b| + 1] == b && all[|a| + |b| + 1..] == c
  {
  }

  lemma CustomWritten(env: Env, decoder: nat, payload: seq<byte>)
    requires ValidArg(env, Custom(decoder, payload))
    ensures var w, bs := env.ptrWidth, Encode(env, Custom(decoder, payload));
      && |bs| == w + 5 + |payload| && bs[0] == 16 && Digits(env.little, bs[1..w + 1]) == decoder
      && Digits(env.little, bs[w + 1..w + 5]) == |payload| && bs[w + 5..] == payload
  {
    var w, bs := env.ptrWidth, Encode(env, Custom(decoder, payload));
    WrittenDigits(env, decoder, w);
    WrittenDigits(env, |payload|, 4);
    ThreeParts(16, ToNe(env, decoder, w), ToNe(env, |payload|, 4), payload);
  }

  // ---- Records ---------------------------------------------------------------------------

  /** Field offsets of the header, for a pointer of `w` bytes. */
  lemma HeaderOnTheWire(env: Env, data: seq<byte>)
    requires |data| >= 2 * env.ptrWidth + 16
    ensures HeaderSize(env) == 2 * env.ptrWidth + 16
    ensures var w, h := env.ptrWidth, ReadHeader(env, data);
      && h.timestamp == Digits(env.little, data[..8]) && h.metadata == Digits(env.little, data[8..8 + w])
      && h.logger == Digits(env.little, data[8 + w..8 + 2 * w]) && h.argsSize == Digits(env.little, data[8 + 2 * w..12 + 2 * w])
  {
    var w := env.ptrWidth;
    NativeDigits(env, data[..8]);
    NativeDigits(env, data[8..8 + w]);
    NativeDigits(env, data[8 + w..8 + 2 * w]);
    NativeDigits(env, data[8 + 2 * w..12 + 2 * w]);
  }

  lemma HeaderWritten(env: Env, h: Header)
    requires ValidHeader(env, h)
    ensures var w, bs := env.ptrWidth, EncodeHeader(env, h);
      && |bs| == 2 * w + 16
      && Digits(env.little, bs[..8]) == h.timestamp && Digits(env.little, bs[8..8 + w]) == h.metadata
      && Digits(env.little, bs[8 + w..8 + 2 * w]) == h.logger && Digits(env.little, bs[8 + 2 * w..12 + 2 * w]) == h.argsSize
      && Digits(env.little, bs[12 + 2 * w..]) == 0
  {
    HeaderAlone(env, h);
    HeaderOnTheWire(env, EncodeHeader(env, h));
    WrittenDigits(env, 0, 4);
    assert EncodeHeader(env, h)[12 + 2 * env.ptrWidth..] == ToNe(env, 0, 4);
  }

  /** On arbitrary bytes: too short for a header or for what it announces. */
  lemma RecordTooShort(env: Env, data: seq<byte>)
    ensures HeaderSize(env) == 2 * env.ptrWidth + 16
    ensures |data| < HeaderSize(env) ==> DecodeRecord(env, data) == Err(BufferTooShort)
    ensures |data| >= HeaderSize(env) && |data| < HeaderSize(env) + ReadHeader(env, data).argsSize ==>
              DecodeRecord(env, data) == Err(BufferTooShort)
  {
  }

  /** Otherwise exactly the announced bytes decoded as arguments, whatever follows them. */
  lemma RecordOnTheWire(env: Env, data: seq<byte>)
    requires |data| >= HeaderSize(env) && |data| >= HeaderSize(env) + ReadHeader(env, data).argsSize
    ensures DecodeRecord(env, data) ==
            Assembled(ReadHeader(env, data), DecodeArgs(env, data[HeaderSize(env)..][..ReadHeader(env, data).argsSize]))
  {
  }
}
