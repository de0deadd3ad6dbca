/** The binary format of a log record: a fixed header followed by tagged,
    self-delimiting arguments in native byte order. */
module Codec {
  import opened Wrappers
  import opened Words

  /** `SumOverflows` is no value of the source: the sum of a prefix and an announced
      length leaves `usize`, and the code panics, on the addition in a debug build and
      on the slice behind it otherwise. */
  datatype DecodeError = BufferTooShort | UnknownTag(tag: byte) | InvalidUtf8 | DecoderFailed | SumOverflows

  type Decoded<T> = Result<T, DecodeError>

  /** The platform (pointer width in bytes, byte order) and the code outside this
      crate: UTF-8 validation, and the decoders that custom arguments name. */
  datatype Env = Env(
    ptrWidth: nat, little: bool,
    utf8: seq<byte> -> Option<string>, runDecoder: (nat, seq<byte>) -> Option<string>)

  // ---- Native-endian integers --------------------------------------------------

  function Pow256(n: nat): (p: nat)
    ensures p >= 1
  {
    if n == 0 then 1 else 256 * Pow256(n - 1)
  }

  function ToLittle(v: nat, n: nat): (bs: seq<byte>)
    ensures |bs| == n
  {
    if n == 0 then [] else [v % 256] + ToLittle(v / 256, n - 1)
  }

  function FromLittle(bs: seq<byte>): (v: nat)
    ensures v < Pow256(|bs|)
  {
    if bs == [] then 0 else bs[0] + 256 * FromLittle(bs[1..])
  }

  function Reverse(bs: seq<byte>): (r: seq<byte>)
    ensures |r| == |bs|
    ensures forall i :: 0 <= i < |bs| ==> r[i] == bs[|bs| - 1 - i]
  {
    seq(|bs|, i requires 0 <= i < |bs| => bs[|bs| - 1 - i])
  }

  /** `to_ne_bytes` of an `n`-byte unsigned value. */
  function ToNe(env: Env, v: nat, n: nat): (bs: seq<byte>)
    ensures |bs| == n
  {
    if env.little then ToLittle(v, n) else Reverse(ToLittle(v, n))
  }

  /** `from_ne_bytes`. */
  function FromNe(env: Env, bs: seq<byte>): (v: nat)
    ensures v < Pow256(|bs|)
  {
    if env.little then FromLittle(bs) else FromLittle(Reverse(bs))
  }

  lemma {:induction false} LittleRoundTrip(v: nat, n: nat)
    requires v < Pow256(n)
    ensures FromLittle(ToLittle(v, n)) == v
  {
    if n > 0 {
      LittleRoundTrip(v / 256, n - 1);
      assert ToLittle(v, n)[1..] == ToLittle(v / 256, n - 1);
    }
  }

  lemma NeRoundTrip(env: Env, v: nat, n: nat)
    requires v < Pow256(n)
    ensures FromNe(env, ToNe(env, v, n)) == v
  {
    LittleRoundTrip(v, n);
    assert Reverse(Reverse(ToLittle(v, n))) == ToLittle(v, n);
  }

  // ---- Arguments -----------------------------------------------------------------

  datatype NumKind =
    I8 | I16 | I32 | I64 | I128 | U8 | U16 | U32 | U64 | U128 | F32 | F64 | Usize | Isize

  /** Width on the wire; `usize` and `isize` travel as 64-bit values. */
  function Width(k: NumKind): nat {
    match k
    case I8 => 1 case U8 => 1
    case I16 => 2 case U16 => 2
    case I32 => 4 case U32 => 4 case F32 => 4
    case I64 => 8 case U64 => 8 case F64 => 8 case Usize => 8 case Isize => 8
    case I128 => 16 case U128 => 16
  }

  predicate Signed(k: NumKind) {
    k.I8? || k.I16? || k.I32? || k.I64? || k.I128? || k.Isize?
  }

  datatype TypeTag = NumTag(kind: NumKind) | BoolTag | StrTag | CustomTag

  function TagByte(t: TypeTag): byte {
    match t
    case NumTag(k) =>
      (match k
       case I8 => 0 case I16 => 1 case I32 => 2 case I64 => 3 case I128 => 4
       case U8 => 5 case U16 => 6 case U32 => 7 case U64 => 8 case U128 => 9
       case F32 => 10 case F64 => 11 case Usize => 14 case Isize => 15)
    case BoolTag => 12
    case StrTag => 13
    case CustomTag => 16
  }

  function TryTag(b: byte): Option<TypeTag> {
    if b == 0 then Some(NumTag(I8)) else if b == 1 then Some(NumTag(I16))
    else if b == 2 then Some(NumTag(I32)) else if b == 3 then Some(NumTag(I64))
    else if b == 4 then Some(NumTag(I128)) else if b == 5 then Some(NumTag(U8))
    else if b == 6 then Some(NumTag(U16)) else if b == 7 then Some(NumTag(U32))
    else if b == 8 then Some(NumTag(U64)) else if b == 9 then Some(NumTag(U128))
    else if b == 10 then Some(NumTag(F32)) else if b == 11 then Some(NumTag(F64))
    else if b == 12 then Some(BoolTag) else if b == 13 then Some(StrTag)
    else if b == 14 then Some(NumTag(Usize)) else if b == 15 then Some(NumTag(Isize))
    else if b == 16 then Some(CustomTag) else None
  }

  /** The tag byte and its parser are inverse to each other. */
  lemma TagRoundTrip(t: TypeTag, b: byte)
    ensures TryTag(TagByte(t)) == Some(t)
    ensures TryTag(b) == Some(t) <==> TagByte(t) == b
    ensures TryTag(b).None? <==> b > 16
  {
    if t.NumTag? {
      match t.kind case _ =>
    }
  }

  /** Floats are carried as their bits. A custom argument names a decoder by its
      address and carries a payload only that decoder understands. */
  datatype Arg =
    | Num(kind: NumKind, value: int)
    | Bool(on: bool)
    | Str(text: seq<byte>)
    | Custom(decoder: nat, payload: seq<byte>)

  datatype DecodedArg =
    | DNum(kind: NumKind, value: int)
    | DBool(on: bool)
    | DStr(text: string)
    | DCustom(text: string)

  /** Two's complement of an `n`-byte value. */
  function ToBits(signed: bool, v: int, n: nat): nat
    requires InRange(signed, v, n)
  {
    if signed && v < 0 then v + Pow256(n) else v
  }

  function FromBits(signed: bool, bits: nat, n: nat): int {
    if signed && 2 * bits >= Pow256(n) then bits - Pow256(n) else bits
  }

  predicate InRange(signed: bool, v: int, n: nat) {
    if signed then 0 - Pow256(n) <= 2 * v < Pow256(n) else 0 <= v < Pow256(n)
  }

  /** The values Rust's types admit, below the 4 GiB the format supports. A slice is
      shorter than half the address space, so `encoded_size()` fits `usize`. */
  predicate ValidArg(env: Env, a: Arg) {
    match a
    case Num(k, v) => InRange(Signed(k), v, Width(k))
    case Bool(_) => true
    case Str(text) => |text| < Pow256(4) && EncodedSize(env, a) < Pow256(env.ptrWidth) && env.utf8(text).Some?
    case Custom(d, payload) =>
      d < Pow256(env.ptrWidth) && |payload| < Pow256(4) && EncodedSize(env, a) < Pow256(env.ptrWidth)
  }

  function Tag(a: Arg): TypeTag {
    match a
    case Num(k, _) => NumTag(k)
    case Bool(_) => BoolTag
    case Str(_) => StrTag
    case Custom(_, _) => CustomTag
  }

  function EncodedSize(env: Env, a: Arg): nat {
    match a
    case Num(k, _) => 1 + Width(k)
    case Bool(_) => 2
    case Str(text) => 1 + 4 + |text|
    case Custom(_, payload) => 1 + env.ptrWidth + 4 + |payload|
  }

  /** The bytes after the tag. */
  function Body(env: Env, a: Arg): seq<byte>
    requires ValidArg(env, a)
  {
    match a
    case Num(k, v) => ToNe(env, ToBits(Signed(k), v, Width(k)), Width(k))
    case Bool(on) => [if on then 1 else 0]
    case Str(text) => ToNe(env, |text|, 4) + text
    case Custom(d, payload) => ToNe(env, d, env.ptrWidth) + ToNe(env, |payload|, 4) + payload
  }

  /** `encode_to`: writes exactly `encoded_size()` bytes, the tag first. */
  function Encode(env: Env, a: Arg): (bs: seq<byte>)
    requires ValidArg(env, a)
    ensures |bs| == EncodedSize(env, a) && bs[0] == TagByte(Tag(a))
  {
    [TagByte(Tag(a))] + Body(env, a)
  }

  /** What the backend should make of an argument. */
  function Meaning(env: Env, a: Arg): Decoded<DecodedArg>
    requires ValidArg(env, a)
  {
    match a
    case Num(k, v) => Ok(DNum(k, v))
    case Bool(on) => Ok(DBool(on))
    case Str(text) => Ok(DStr(env.utf8(text).value))
    case Custom(d, payload) =>
      match env.runDecoder(d, payload)
      case Some(out) => Ok(DCustom(out))
      case None => Err(DecoderFailed)
  }

  // ---- Decoding one argument -----------------------------------------------------

  function DecodeFixed(env: Env, data: seq<byte>, k: NumKind): Decoded<(DecodedArg, nat)> {
    if |data| < Width(k) then Err(BufferTooShort)
    else Ok((DNum(k, FromBits(Signed(k), FromNe(env, data[..Width(k)]), Width(k))), 1 + Width(k)))
  }

  function DecodeBool(data: seq<byte>): Decoded<(DecodedArg, nat)> {
    if |data| < 1 then Err(BufferTooShort) else Ok((DBool(data[0] != 0), 2))
  }

  function DecodeStr(env: Env, data: seq<byte>): Decoded<(DecodedArg, nat)> {
    if |data| < 4 then Err(BufferTooShort)
    else
      var len := FromNe(env, data[..4]);
      if 4 + len >= Pow256(env.ptrWidth) then Err(SumOverflows)
      else if |data| < 4 + len then Err(BufferTooShort)
      else
        match env.utf8(data[4..4 + len])
        case None => Err(InvalidUtf8)
        case Some(text) => Ok((DStr(text), 1 + 4 + len))
  }

  function DecodeCustom(env: Env, data: seq<byte>): Decoded<(DecodedArg, nat)> {
    var start := env.ptrWidth + 4;
    if |data| < start then Err(BufferTooShort)
    else
      var len := FromNe(env, data[env.ptrWidth..start]);
      if start + len >= Pow256(env.ptrWidth) then Err(SumOverflows)
      else if |data| < start + len then Err(BufferTooShort)
      else
        match env.runDecoder(FromNe(env, data[..env.ptrWidth]), data[start..start + len])
        case None => Err(DecoderFailed)
        case Some(out) => Ok((DCustom(out), 1 + env.ptrWidth + 4 + len))
  }

  /** `decode_one`: one argument and the number of bytes it took. */
  function DecodeOne(env: Env, data: seq<byte>): (r: Decoded<(DecodedArg, nat)>)
    ensures r.Ok? ==> 1 <= r.value.1 <= |data|
  {
    if data == [] then Err(BufferTooShort)
    else
      match TryTag(data[0])
      case None => Err(UnknownTag(data[0]))
      case Some(NumTag(k)) => DecodeFixed(env, data[1..], k)
      case Some(BoolTag) => DecodeBool(data[1..])
      case Some(StrTag) => DecodeStr(env, data[1..])
      case Some(CustomTag) => DecodeCustom(env, data[1..])
  }

  /** The `usize` sum that decoding `data` needs, if its length field is there. */
  function AnnouncedEnd(env: Env, data: seq<byte>): nat {
    var w := env.ptrWidth;
    if |data| >= 5 && data[0] == 13 then 4 + FromNe(env, data[1..5])
    else if |data| >= w + 5 && data[0] == 16 then w + 4 + FromNe(env, data[w + 1..w + 5])
    else 0
  }

  /** Decoding returns, with a value or an error, exactly when the announced end fits `usize`. */
  lemma DecodeReturnsIff(env: Env, data: seq<byte>)
    ensures DecodeOne(env, data) != Err(SumOverflows) <==> AnnouncedEnd(env, data) < Pow256(env.ptrWidth)
  {
    if data != [] {
      var w, rest := env.ptrWidth, data[1..];
      assert |data| >= 5 ==> rest[..4] == data[1..5];
      assert |data| >= w + 5 ==> rest[w..w + 4] == data[w + 1..w + 5];
    }
  }

  lemma Pow256Eight()
    ensures Pow256(4) == 0x1_0000_0000 && Pow256(8) == 0x1_0000_0000_0000_0000
  {
    assert Pow256(1) == 256 && Pow256(2) == 0x1_0000 && Pow256(3) == 0x100_0000;
    assert Pow256(5) == 256 * Pow256(4) && Pow256(6) == 256 * Pow256(5) && Pow256(7) == 256 * Pow256(6);
  }

  /** With 64-bit pointers it always does. */
  lemma AlwaysReturnsOn64(env: Env, data: seq<byte>)
    requires env.ptrWidth == 8
    ensures DecodeOne(env, data) != Err(SumOverflows)
  {
    Pow256Eight();
    DecodeReturnsIff(env, data);
  }

  /** With 32-bit pointers, a string that announces 2^32 - 1 bytes makes it panic. */
  lemma PanicsOn32(env: Env)
    requires env.ptrWidth == 4
    ensures DecodeOne(env, [13, 255, 255, 255, 255]) == Err(SumOverflows)
  {
    var data: seq<byte> := [13, 255, 255, 255, 255];
    Pow256Eight();
    AllOnes(env, data[1..5]);
    DecodeReturnsIff(env, data);
  }

  lemma AllOnes(env: Env, bs: seq<byte>)
    requires bs == [255, 255, 255, 255]
    ensures FromNe(env, bs) == 0xFFFF_FFFF
  {
    assert Reverse(bs) == bs;
    FromLittleStep(255, []);
    FromLittleStep(255, [255]);
    FromLittleStep(255, [255, 255]);
    FromLittleStep(255, [255, 255, 255]);
    assert bs == [255] + ([255] + ([255] + ([255] + [])));
  }

  lemma FromLittleStep(b: byte, bs: seq<byte>)
    ensures FromLittle([b] + bs) == b + 256 * FromLittle(bs)
  {
    assert ([b] + bs)[1..] == bs;
  }

  lemma BitsRoundTrip(signed: bool, v: int, n: nat)
    requires InRange(signed, v, n)
    ensures ToBits(signed, v, n) < Pow256(n) && FromBits(signed, ToBits(signed, v, n), n) == v
  {
  }

  lemma StrTrailing(env: Env, data: seq<byte>, rest: seq<byte>)
    requires DecodeStr(env, data) != Err(BufferTooShort)
    ensures DecodeStr(env, data + rest) == DecodeStr(env, data)
  {
    assert (data + rest)[..4] == data[..4];
    var len := FromNe(env, data[..4]);
    if 4 + len <= |data| {
      assert (data + rest)[4..4 + len] == data[4..4 + len];
    }
  }

  lemma CustomTrailing(env: Env, data: seq<byte>, rest: seq<byte>)
    requires DecodeCustom(env, data) != Err(BufferTooShort)
    ensures DecodeCustom(env, data + rest) == DecodeCustom(env, data)
  {
    var p := env.ptrWidth;
    assert (data + rest)[..p] == data[..p] && (data + rest)[p..p + 4] == data[p..p + 4];
    var len := FromNe(env, data[p..p + 4]);
    if p + 4 + len <= |data| {
      assert (data + rest)[p + 4..p + 4 + len] == data[p + 4..p + 4 + len];
    }
  }

  lemma FixedTrailing(env: Env, data: seq<byte>, rest: seq<byte>, k: NumKind)
    requires DecodeFixed(env, data, k) != Err(BufferTooShort)
    ensures DecodeFixed(env, data + rest, k) == DecodeFixed(env, data, k)
  {
    assert (data + rest)[..Width(k)] == data[..Width(k)];
  }

  /** Trailing bytes never change the outcome. */
  lemma TrailingBytesIgnored(env: Env, data: seq<byte>, rest: seq<byte>)
    requires DecodeOne(env, data) != Err(BufferTooShort)
    ensures DecodeOne(env, data + rest) == DecodeOne(env, data)
  {
    assert (data + rest)[1..] == data[1..] + rest && (data + rest)[0] == data[0];
    match TryTag(data[0])
    case None =>
    case Some(NumTag(k)) => FixedTrailing(env, data[1..], rest, k);
    case Some(BoolTag) =>
    case Some(StrTag) => StrTrailing(env, data[1..], rest);
    case Some(CustomTag) => CustomTrailing(env, data[1..], rest);
  }

  lemma DecodeStrExact(env: Env, a: Arg)
    requires a.Str? && ValidArg(env, a)
    ensures DecodeStr(env, Body(env, a)) == Ok((DStr(env.utf8(a.text).value), 5 + |a.text|))
  {
    var b := Body(env, a);
    assert b[..4] == ToNe(env, |a.text|, 4) && b[4..4 + |a.text|] == a.text;
    NeRoundTrip(env, |a.text|, 4);
  }

  lemma DecodeCustomExact(env: Env, a: Arg)
    requires a.Custom? && ValidArg(env, a)
    ensures DecodeCustom(env, Body(env, a)) ==
            match env.runDecoder(a.decoder, a.payload)
            case None => Err(DecoderFailed)
            case Some(out) => Ok((DCustom(out), EncodedSize(env, a)))
  {
    var b, p := Body(env, a), env.ptrWidth;
    assert b[..p] == ToNe(env, a.decoder, p) && b[p..p + 4] == ToNe(env, |a.payload|, 4);
    assert b[p + 4..p + 4 + |a.payload|] == a.payload;
    NeRoundTrip(env, a.decoder, p);
    NeRoundTrip(env, |a.payload|, 4);
  }

  /** Decoding an encoded argument gives back its meaning and its exact size. */
  lemma DecodeExact(env: Env, a: Arg)
    requires ValidArg(env, a)
    ensures DecodeOne(env, Encode(env, a)) ==
            match Meaning(env, a)
            case Ok(d) => Ok((d, EncodedSize(env, a)))
            case Err(e) => Err(e)
  {
    assert Encode(env, a)[1..] == Body(env, a);
    TagRoundTrip(Tag(a), TagByte(Tag(a)));
    match a
    case Num(k, v) =>
      var bits := ToBits(Signed(k), v, Width(k));
      BitsRoundTrip(Signed(k), v, Width(k));
      NeRoundTrip(env, bits, Width(k));
      assert Body(env, a)[..Width(k)] == Body(env, a);
    case Bool(on) =>
    case Str(text) => DecodeStrExact(env, a);
    case Custom(_, _) => DecodeCustomExact(env, a);
  }

  /** Round trip of one argument with anything after it. */
  lemma DecodeAfterEncode(env: Env, a: Arg, rest: seq<byte>)
    requires ValidArg(env, a)
    ensures DecodeOne(env, Encode(env, a) + rest) ==
            match Meaning(env, a)
            case Ok(d) => Ok((d, EncodedSize(env, a)))
            case Err(e) => Err(e)
  {
    DecodeExact(env, a);
    TrailingBytesIgnored(env, Encode(env, a), rest);
  }

  /** A cut behind the middle part leaves the middle part whole. */
  lemma MiddleOfPrefix(x: seq<byte>, y: seq<byte>, z: seq<byte>, k: nat)
    requires |x| + |y| <= k <= |x| + |y| + |z|
    ensures (x + y + z)[..k][|x|..|x| + |y|] == y
  {
    assert (x + y + z)[..k][|x|..|x| + |y|] == (x + y)[|x|..];
  }

  lemma StrPrefixTooShort(env: Env, text: seq<byte>, k: nat)
    requires ValidArg(env, Str(text)) && k < 4 + |text|
    ensures DecodeStr(env, Body(env, Str(text))[..k]) == Err(BufferTooShort)
  {
    var len := ToNe(env, |text|, 4);
    if k >= 4 {
      MiddleOfPrefix([], len, text, k);
      assert [] + len + text == Body(env, Str(text));
      NeRoundTrip(env, |text|, 4);
    }
  }

  lemma CustomPrefixTooShort(env: Env, d: nat, payload: seq<byte>, k: nat)
    requires ValidArg(env, Custom(d, payload)) && k < env.ptrWidth + 4 + |payload|
    ensures DecodeCustom(env, Body(env, Custom(d, payload))[..k]) == Err(BufferTooShort)
  {
    if k >= env.ptrWidth + 4 {
      MiddleOfPrefix(ToNe(env, d, env.ptrWidth), ToNe(env, |payload|, 4), payload, k);
      NeRoundTrip(env, |payload|, 4);
    }
  }

  /** What the decoder goes on with behind a tag. */
  function DecodeBody(env: Env, t: TypeTag, data: seq<byte>): Decoded<(DecodedArg, nat)> {
    match t
    case NumTag(k) => DecodeFixed(env, data, k)
    case BoolTag => DecodeBool(data)
    case StrTag => DecodeStr(env, data)
    case CustomTag => DecodeCustom(env, data)
  }

  lemma PrefixShape(env: Env, a: Arg, k: nat)
    requires ValidArg(env, a) && 0 < k < EncodedSize(env, a)
    ensures DecodeOne(env, Encode(env, a)[..k]) == DecodeBody(env, Tag(a), Body(env, a)[..k - 1])
  {
    var p := Encode(env, a)[..k];
    assert p[0] == TagByte(Tag(a)) && p[1..] == Body(env, a)[..k - 1];
    TagRoundTrip(Tag(a), p[0]);
  }

  lemma BodyPrefixTooShort(env: Env, a: Arg, k: nat)
    requires ValidArg(env, a) && k + 1 < EncodedSize(env, a)
    ensures DecodeBody(env, Tag(a), Body(env, a)[..k]) == Err(BufferTooShort)
  {
    match a
    case Num(_, _) =>
    case Bool(_) =>
    case Str(text) => StrPrefixTooShort(env, text, k);
    case Custom(d, payload) => CustomPrefixTooShort(env, d, payload, k);
  }

  /** Every strict prefix of an encoding is reported as too short. */
  lemma StrictPrefixTooShort(env: Env, a: Arg, k: nat)
    requires ValidArg(env, a) && k < EncodedSize(env, a)
    ensures DecodeOne(env, Encode(env, a)[..k]) == Err(BufferTooShort)
  {
    if k > 0 {
      PrefixShape(env, a, k);
      BodyPrefixTooShort(env, a, k - 1);
    } else {
      assert Encode(env, a)[..k] == [];
    }
  }

  lemma EncodingNotTooShort(env: Env, a: Arg)
    requires ValidArg(env, a)
    ensures DecodeOne(env, Encode(env, a)) != Err(BufferTooShort)
  {
    DecodeExact(env, a);
  }

  lemma ProperPrefixTooShort(env: Env, x: seq<byte>, b: Arg)
    requires ValidArg(env, b) && x < Encode(env, b)
    ensures DecodeOne(env, x) == Err(BufferTooShort)
  {
    assert Encode(env, b)[..|x|] == x;
    StrictPrefixTooShort(env, b, |x|);
  }

  /** The code is prefix-free: one encoding begins another only if they are equal. */
  lemma PrefixFree(env: Env, a: Arg, b: Arg)
    requires ValidArg(env, a) && ValidArg(env, b)
    ensures !(Encode(env, a) < Encode(env, b))
  {
    if Encode(env, a) < Encode(env, b) {
      ProperPrefixTooShort(env, Encode(env, a), b);
      EncodingNotTooShort(env, a);
    }
  }
}
