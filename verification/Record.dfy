/** Whole records: what the log macro writes into the ring and what the backend
    makes of it. */
module Record {
  import opened Wrappers
  import opened Words
  import opened Codec
  import opened Fifo

  datatype Header = Header(timestamp: nat, metadata: nat, logger: nat, argsSize: nat)

  predicate ValidHeader(env: Env, h: Header) {
    && h.timestamp < Pow256(8) && h.metadata < Pow256(env.ptrWidth) && h.logger < Pow256(env.ptrWidth)
    && h.argsSize < Pow256(4)
  }

  /** `size_of::<RecordHeader>()`: a u64, two pointers, a u32 and its padding. */
  function HeaderSize(env: Env): nat {
    8 + env.ptrWidth + env.ptrWidth + 4 + 4
  }

  function EncodeHeader(env: Env, h: Header): (bs: seq<byte>)
    ensures |bs| == HeaderSize(env)
  {
    ToNe(env, h.timestamp, 8) + ToNe(env, h.metadata, env.ptrWidth) + ToNe(env, h.logger, env.ptrWidth)
    + ToNe(env, h.argsSize, 4) + ToNe(env, 0, 4)
  }

  function ReadHeader(env: Env, bs: seq<byte>): Header
    requires |bs| >= HeaderSize(env)
  {
    var p := env.ptrWidth;
    Header(FromNe(env, bs[..8]), FromNe(env, bs[8..8 + p]), FromNe(env, bs[8 + p..8 + p + p]),
           FromNe(env, bs[8 + p + p..8 + p + p + 4]))
  }

  lemma Slices(a: seq<byte>, b: seq<byte>, c: seq<byte>, d: seq<byte>, rest: seq<byte>)
    ensures var all := a + b + c + d + rest;
      && all[..|a|] == a
      && all[|a|..|a| + |b|] == b
      && all[|a| + |b|..|a| + |b| + |c|] == c
      && all[|a| + |b| + |c|..|a| + |b| + |c| + |d|] == d
  {
  }

  /** The header fields are read from where they were put. */
  lemma ReadBack(env: Env, a: seq<byte>, b: seq<byte>, c: seq<byte>, d: seq<byte>, rest: seq<byte>)
    requires |a| == 8 && |b| == |c| == env.ptrWidth && |d| == 4 && |rest| >= 4
    ensures ReadHeader(env, a + b + c + d + rest) == Header(FromNe(env, a), FromNe(env, b), FromNe(env, c), FromNe(env, d))
  {
    Slices(a, b, c, d, rest);
  }

  lemma HeaderRoundTrip(env: Env, h: Header, rest: seq<byte>)
    requires ValidHeader(env, h)
    ensures ReadHeader(env, EncodeHeader(env, h) + rest) == h
  {
    var p := env.ptrWidth;
    var a, b, c, d := ToNe(env, h.timestamp, 8), ToNe(env, h.metadata, p), ToNe(env, h.logger, p), ToNe(env, h.argsSize, 4);
    var pad := ToNe(env, 0, 4);
    assert EncodeHeader(env, h) + rest == a + b + c + d + (pad + rest);
    ReadBack(env, a, b, c, d, pad + rest);
    NeRoundTrip(env, h.timestamp, 8);
    NeRoundTrip(env, h.metadata, p);
    NeRoundTrip(env, h.logger, p);
    NeRoundTrip(env, h.argsSize, 4);
  }

  // ---- Argument lists ------------------------------------------------------------

  predicate ValidArgs(env: Env, args: seq<Arg>) {
    forall i :: 0 <= i < |args| ==> ValidArg(env, args[i])
  }

  /** The macro's sum of `encoded_size()`. */
  function ArgsSize(env: Env, args: seq<Arg>): nat {
    if args == [] then 0 else EncodedSize(env, args[0]) + ArgsSize(env, args[1..])
  }

  function EncodeArgs(env: Env, args: seq<Arg>): (bs: seq<byte>)
    requires ValidArgs(env, args)
    ensures |bs| == ArgsSize(env, args)
  {
    if args == [] then [] else Encode(env, args[0]) + EncodeArgs(env, args[1..])
  }

  function Flatten(pieces: seq<seq<byte>>): seq<byte> {
    if pieces == [] then [] else pieces[0] + Flatten(pieces[1..])
  }

  lemma {:induction false} PosTail(pieces: seq<seq<byte>>, k: nat)
    requires 0 < k <= |pieces|
    ensures Pos(pieces, k) == |pieces[0]| + Pos(pieces[1..], k - 1)
  {
    if k > 1 {
      PosTail(pieces, k - 1);
    }
  }

  lemma {:induction false} FlattenSize(pieces: seq<seq<byte>>)
    ensures |Flatten(pieces)| == Pos(pieces, |pieces|)
  {
    if pieces != [] {
      FlattenSize(pieces[1..]);
      PosTail(pieces, |pieces|);
    }
  }

  /** Piece `k` sits at its prefix sum. */
  lemma {:induction false} FlattenPlace(pieces: seq<seq<byte>>, k: nat)
    requires k < |pieces|
    ensures Pos(pieces, k + 1) <= |Flatten(pieces)|
    ensures Flatten(pieces)[Pos(pieces, k)..Pos(pieces, k + 1)] == pieces[k]
  {
    FlattenSize(pieces);
    PosMono(pieces, k + 1, |pieces|);
    if k > 0 {
      FlattenPlace(pieces[1..], k - 1);
      PosTail(pieces, k);
      PosTail(pieces, k + 1);
      SliceAfter(pieces[0], Flatten(pieces[1..]), Pos(pieces[1..], k - 1), Pos(pieces[1..], k));
    } else {
      assert Flatten(pieces)[0..|pieces[0]|] == pieces[0];
    }
  }

  lemma SliceAfter(a: seq<byte>, b: seq<byte>, lo: nat, hi: nat)
    requires lo <= hi <= |b|
    ensures (a + b)[|a| + lo..|a| + hi] == b[lo..hi]
  {
  }

  function Pieces(env: Env, args: seq<Arg>): (pieces: seq<seq<byte>>)
    requires ValidArgs(env, args)
    ensures |pieces| == |args| && forall i :: 0 <= i < |args| ==> pieces[i] == Encode(env, args[i])
  {
    seq(|args|, i requires 0 <= i < |args| => Encode(env, args[i]))
  }

  lemma {:induction false} EncodeArgsFlatten(env: Env, args: seq<Arg>)
    requires ValidArgs(env, args)
    ensures EncodeArgs(env, args) == Flatten(Pieces(env, args))
  {
    if args != [] {
      EncodeArgsFlatten(env, args[1..]);
      assert Pieces(env, args)[1..] == Pieces(env, args[1..]);
    }
  }

  /** The decoded arguments in order, or the first failure of a custom decoder. */
  function Meanings(env: Env, args: seq<Arg>): (r: Decoded<seq<DecodedArg>>)
    requires ValidArgs(env, args)
    ensures r.Ok? ==> |r.value| == |args| && forall i :: 0 <= i < |args| ==> Meaning(env, args[i]) == Ok(r.value[i])
    ensures r.Err? ==> r.error.DecoderFailed? && exists i :: 0 <= i < |args| && Meaning(env, args[i]).Err?
  {
    if args == [] then Ok([])
    else
      match Meaning(env, args[0])
      case Err(e) => Err(e)
      case Ok(d) =>
        match Meanings(env, args[1..])
        case Err(e) => Err(e)
        case Ok(ds) => Ok([d] + ds)
  }

  type Step = seq<byte> -> Decoded<(DecodedArg, nat)>

  /** A decoder of one argument that makes progress and stays inside its input. */
  ghost predicate Advances(one: Step) {
    forall data :: one(data).Ok? ==> 1 <= one(data).value.1 <= |data|
  }

  function OneArg(env: Env): (one: Step)
    ensures Advances(one)
  {
    data => DecodeOne(env, data)
  }

  /** One argument after the other until the bytes are used up. */
  function DecodeAll(one: Step, data: seq<byte>): Decoded<seq<DecodedArg>>
    requires Advances(one)
    decreases |data|
  {
    if data == [] then Ok([])
    else
      match one(data)
      case Err(e) => Err(e)
      case Ok((d, n)) =>
        match DecodeAll(one, data[n..])
        case Err(e) => Err(e)
        case Ok(ds) => Ok([d] + ds)
  }

  /** What the argument loop of `decode_record` computes. */
  function DecodeArgs(env: Env, data: seq<byte>): Decoded<seq<DecodedArg>> {
    DecodeAll(OneArg(env), data)
  }

  lemma {:induction false} ArgsRoundTrip(env: Env, args: seq<Arg>)
    requires ValidArgs(env, args)
    ensures DecodeArgs(env, EncodeArgs(env, args)) == Meanings(env, args)
  {
    if args != [] {
      var first, rest := Encode(env, args[0]), EncodeArgs(env, args[1..]);
      DecodeAfterEncode(env, args[0], rest);
      ArgsRoundTrip(env, args[1..]);
      assert (first + rest)[|first|..] == rest;
    }
  }

  /** The front of `data` cut at `cuts` into pieces that `one` decodes to `args`, one by one. */
  ghost predicate Cut(one: Step, data: seq<byte>, args: seq<DecodedArg>, cuts: seq<nat>) {
    && |cuts| == |args| + 1 && cuts[0] == 0
    && (forall i :: 0 <= i < |cuts| ==> cuts[i] <= |data|)
    && (forall i :: 0 <= i < |args| ==>
          cuts[i] < cuts[i + 1] && one(data[cuts[i]..]) == Ok((args[i], cuts[i + 1] - cuts[i])))
  }

  /** ... up to the last byte. */
  ghost predicate Segmented(one: Step, data: seq<byte>, args: seq<DecodedArg>, cuts: seq<nat>) {
    Cut(one, data, args, cuts) && cuts[|args|] == |data|
  }

  /** ... up to a piece on which `one` fails. */
  ghost predicate Failing(one: Step, data: seq<byte>, args: seq<DecodedArg>, cuts: seq<nat>, e: DecodeError) {
    Cut(one, data, args, cuts) && cuts[|args|] < |data| && one(data[cuts[|args|]..]) == Err(e)
  }

  function Shift(cuts: seq<nat>, n: nat): (r: seq<nat>)
    ensures |r| == |cuts| && forall i :: 0 <= i < |cuts| ==> r[i] == cuts[i] + n
  {
    seq(|cuts|, i requires 0 <= i < |cuts| => cuts[i] + n)
  }

  /** One more piece in front. */
  lemma CutCons(one: Step, data: seq<byte>, n: nat, d: DecodedArg, args: seq<DecodedArg>, cuts: seq<nat>)
    requires 0 < n <= |data| && one(data) == Ok((d, n)) && Cut(one, data[n..], args, cuts)
    ensures Cut(one, data, [d] + args, [0] + Shift(cuts, n))
  {
    var all, args' := [0] + Shift(cuts, n), [d] + args;
    forall i | 0 <= i < |args'|
      ensures all[i] < all[i + 1] && one(data[all[i]..]) == Ok((args'[i], all[i + 1] - all[i]))
    {
      if i == 0 {
        assert data[0..] == data;
      } else {
        assert all[i] == cuts[i - 1] + n && all[i + 1] == cuts[i] + n && args'[i] == args[i - 1];
        DropDrop(data, n, cuts[i - 1]);
      }
    }
  }

  lemma DropDrop(data: seq<byte>, n: nat, k: nat)
    requires n + k <= |data|
    ensures data[n..][k..] == data[k + n..]
  {
  }

  /** The loop cuts `data` until it is used up or a piece fails. */
  lemma {:induction false} DecodeAllSound(one: Step, data: seq<byte>) returns (args: seq<DecodedArg>, cuts: seq<nat>)
    requires Advances(one)
    ensures match DecodeAll(one, data)
      case Ok(ds) => args == ds && Segmented(one, data, args, cuts)
      case Err(e) => Failing(one, data, args, cuts, e)
    decreases |data|
  {
    if data == [] || one(data).Err? {
      args, cuts := [], [0];
      assert data[0..] == data;
    } else {
      var (d, n) := one(data).value;
      var ds, tail := DecodeAllSound(one, data[n..]);
      CutCons(one, data, n, d, ds, tail);
      args, cuts := [d] + ds, [0] + Shift(tail, n);
      DropDrop(data, n, tail[|ds|]);
    }
  }

  /** From cut `k` on, the rest decodes to the rest of the arguments and what comes after the cuts. */
  lemma {:induction false} DecodeAllComplete(one: Step, data: seq<byte>, args: seq<DecodedArg>, cuts: seq<nat>, k: nat)
    requires Advances(one) && Cut(one, data, args, cuts) && k <= |args|
    ensures DecodeAll(one, data[cuts[k]..]) == Prepend(args[k..], DecodeAll(one, data[cuts[|args|]..]))
    decreases |args| - k
  {
    var last := DecodeAll(one, data[cuts[|args|]..]);
    if k < |args| {
      DecodeAllComplete(one, data, args, cuts, k + 1);
      assert data[cuts[k]..][cuts[k + 1] - cuts[k]..] == data[cuts[k + 1]..];
      PrependOne(args, k, last);
    } else if last.Ok? {
      assert args[k..] + last.value == last.value;
    }
  }

  lemma PrependOne(args: seq<DecodedArg>, k: nat, last: Decoded<seq<DecodedArg>>)
    requires k < |args|
    ensures Prepend([args[k]], Prepend(args[k + 1..], last)) == Prepend(args[k..], last)
  {
    if last.Ok? {
      assert args[k..] + last.value == [args[k]] + (args[k + 1..] + last.value);
    }
  }

  /** On arbitrary bytes, the argument loop succeeds exactly when the bytes can be
      cut, to the last one, into pieces that decode; what it returns are those. */
  lemma DecodeArgsIffSegmented(env: Env, data: seq<byte>, args: seq<DecodedArg>)
    ensures DecodeArgs(env, data) == Ok(args) <==> exists cuts :: Segmented(OneArg(env), data, args, cuts)
  {
    if DecodeArgs(env, data) == Ok(args) {
      var _, cuts := DecodeAllSound(OneArg(env), data);
    }
    forall cuts | Segmented(OneArg(env), data, args, cuts) ensures DecodeArgs(env, data) == Ok(args) {
      DecodeAllComplete(OneArg(env), data, args, cuts, 0);
      assert data[0..] == data && data[cuts[|args|]..] == [] && args[0..] + [] == args;
    }
  }

  /** It fails, or panics, exactly when pieces that decode are followed by one that does so. */
  lemma DecodeArgsFailsIff(env: Env, data: seq<byte>, e: DecodeError)
    ensures DecodeArgs(env, data) == Err(e) <==> exists args, cuts :: Failing(OneArg(env), data, args, cuts, e)
  {
    if DecodeArgs(env, data) == Err(e) {
      var args, cuts := DecodeAllSound(OneArg(env), data);
    }
    forall args, cuts | Failing(OneArg(env), data, args, cuts, e) ensures DecodeArgs(env, data) == Err(e) {
      DecodeAllComplete(OneArg(env), data, args, cuts, 0);
      assert data[0..] == data;
    }
  }

  /** With 64-bit pointers, decoding returns on every byte string. */
  lemma DecodingReturnsOn64(env: Env, data: seq<byte>)
    requires env.ptrWidth == 8
    ensures DecodeRecord(env, data) != Err(SumOverflows)
  {
    if DecodeRecord(env, data) == Err(SumOverflows) {
      var body := data[HeaderSize(env)..][..ReadHeader(env, data).argsSize];
      var args, cuts := DecodeAllSound(OneArg(env), body);
      AlwaysReturnsOn64(env, body[cuts[|args|]..]);
    }
  }

  // ---- Records -------------------------------------------------------------------

  datatype LogCall = LogCall(timestamp: nat, metadata: nat, logger: nat, args: seq<Arg>)

  /** What Rust's types guarantee, for a record whose size fits the supported 4 GiB and `usize`. */
  predicate ValidCall(env: Env, call: LogCall) {
    && ValidArgs(env, call.args) && HeaderSize(env) + ArgsSize(env, call.args) < Pow256(env.ptrWidth)
    && ValidHeader(env, Header(call.timestamp, call.metadata, call.logger, ArgsSize(env, call.args)))
  }

  function EncodeRecord(env: Env, call: LogCall): (bs: seq<byte>)
    requires ValidCall(env, call)
    ensures |bs| == HeaderSize(env) + ArgsSize(env, call.args)
  {
    EncodeHeader(env, Header(call.timestamp, call.metadata, call.logger, ArgsSize(env, call.args)))
    + EncodeArgs(env, call.args)
  }

  datatype RawRecord = RawRecord(timestamp: nat, logger: nat, metadata: nat, args: seq<DecodedArg>)

  function Assembled(h: Header, args: Decoded<seq<DecodedArg>>): Decoded<RawRecord> {
    if args.Err? then Err(args.error) else Ok(RawRecord(h.timestamp, h.logger, h.metadata, args.value))
  }

  function DecodeRecord(env: Env, data: seq<byte>): Decoded<RawRecord> {
    if |data| < HeaderSize(env) then Err(BufferTooShort)
    else
      var h := ReadHeader(env, data);
      var args := data[HeaderSize(env)..];
      if |args| < h.argsSize then Err(BufferTooShort)
      else Assembled(h, DecodeArgs(env, args[..h.argsSize]))
  }

  /** A header whose size field is right lets the arguments through untouched. */
  lemma DecodeParts(env: Env, header: seq<byte>, body: seq<byte>, h: Header)
    requires |header| == HeaderSize(env) && ReadHeader(env, header + body) == h && h.argsSize == |body|
    ensures DecodeRecord(env, header + body) == Assembled(h, DecodeArgs(env, body))
  {
    assert (header + body)[HeaderSize(env)..] == body && body[..h.argsSize] == body;
  }

  /** Whole-record round trip, for every argument list: same timestamp, metadata
      and logger, the arguments in order and as many as were logged, or the
      failure of a custom decoder and nothing else. */
  lemma RecordRoundTrip(env: Env, call: LogCall)
    requires ValidCall(env, call)
    ensures DecodeRecord(env, EncodeRecord(env, call)) ==
            match Meanings(env, call.args)
            case Err(e) => Err(e)
            case Ok(ds) => Ok(RawRecord(call.timestamp, call.logger, call.metadata, ds))
  {
    var h := Header(call.timestamp, call.metadata, call.logger, ArgsSize(env, call.args));
    var body := EncodeArgs(env, call.args);
    HeaderRoundTrip(env, h, body);
    DecodeParts(env, EncodeHeader(env, h), body, h);
    ArgsRoundTrip(env, call.args);
  }

  /** `RecordHeader::SIZE + header.encoded_args_size` in `usize`, from the peeked header bytes. */
  function FrameLength(env: Env, header: seq<byte>): nat {
    if |header| < HeaderSize(env) then 0
    else (HeaderSize(env) + ReadHeader(env, header).argsSize) % Pow256(env.ptrWidth)
  }

  lemma ModSmall(n: nat, m: nat)
    requires n < m
    ensures n % m == n
  {
  }

  lemma HeaderAlone(env: Env, h: Header)
    requires ValidHeader(env, h)
    ensures ReadHeader(env, EncodeHeader(env, h)) == h
  {
    HeaderRoundTrip(env, h, []);
    assert EncodeHeader(env, h) + [] == EncodeHeader(env, h);
  }

  lemma FrameOfHeader(env: Env, h: Header)
    requires ValidHeader(env, h) && HeaderSize(env) + h.argsSize < Pow256(env.ptrWidth)
    ensures FrameLength(env, EncodeHeader(env, h)) == HeaderSize(env) + h.argsSize
  {
    HeaderAlone(env, h);
    ModSmall(HeaderSize(env) + h.argsSize, Pow256(env.ptrWidth));
  }

  /** A record announces its own length in its header: the only framing the ring has. */
  lemma RecordFramesItself(env: Env, call: LogCall)
    requires ValidCall(env, call)
    ensures |EncodeRecord(env, call)| >= HeaderSize(env) >= 16
    ensures FrameLength(env, EncodeRecord(env, call)[..HeaderSize(env)]) == |EncodeRecord(env, call)|
  {
    var h := Header(call.timestamp, call.metadata, call.logger, ArgsSize(env, call.args));
    FrameOfHeader(env, h);
    assert EncodeRecord(env, call)[..HeaderSize(env)] == EncodeHeader(env, h);
  }

  // ---- As the code runs ------------------------------------------------------------

  /** `ptr::copy_nonoverlapping(src, dst.add(at), src.len())`. */
  method CopyBytes(src: seq<byte>, dst: array<byte>, at: nat)
    requires at + |src| <= dst.Length
    modifies dst
    ensures dst[at..at + |src|] == src
    ensures forall i :: 0 <= i < dst.Length && !(at <= i < at + |src|) ==> dst[i] == old(dst[i])
  {
    var j := 0;
    while j < |src|
      invariant 0 <= j <= |src|
      invariant forall i :: 0 <= i < j ==> dst[at + i] == src[i]
      invariant forall i :: 0 <= i < dst.Length && !(at <= i < at + j) ==> dst[i] == old(dst[i])
    {
      dst[at + j] := src[j];
      j := j + 1;
    }
  }

  /** Copies the piece that comes next in `want`. */
  method CopyNext(src: seq<byte>, dst: array<byte>, at: nat, ghost want: seq<byte>, ghost base: nat)
    requires base <= at && at + |src| <= base + |want| <= dst.Length
    requires want[at - base..at - base + |src|] == src
    requires forall i :: base <= i < at ==> dst[i] == want[i - base]
    modifies dst
    ensures forall i :: base <= i < at + |src| ==> dst[i] == want[i - base]
    ensures forall i :: 0 <= i < dst.Length && !(at <= i < at + |src|) ==> dst[i] == old(dst[i])
  {
    CopyBytes(src, dst, at);
    forall i | at <= i < at + |src| ensures dst[i] == want[i - base] {
      assert dst[i] == dst[at..at + |src|][i - at];
    }
  }

  /** The macro's run of `encode_to` calls: each argument's bytes at a running offset. */
  method WritePieces(pieces: seq<seq<byte>>, dst: array<byte>, base: nat)
    requires base + |Flatten(pieces)| <= dst.Length
    modifies dst
    ensures dst[base..base + |Flatten(pieces)|] == Flatten(pieces)
    ensures forall i :: 0 <= i < dst.Length && !(base <= i < base + |Flatten(pieces)|) ==> dst[i] == old(dst[i])
  {
    ghost var want := Flatten(pieces);
    FlattenSize(pieces);
    var offset := base;
    var k := 0;
    while k < |pieces|
      invariant 0 <= k <= |pieces|
      invariant offset == base + Pos(pieces, k) <= base + |want|
      invariant forall i :: base <= i < offset ==> dst[i] == want[i - base]
      invariant forall i :: 0 <= i < dst.Length && !(base <= i < offset) ==> dst[i] == old(dst[i])
    {
      FlattenPlace(pieces, k);
      CopyNext(pieces[k], dst, offset, want, base);
      offset := offset + |pieces[k]|;
      k := k + 1;
    }
    assert dst[base..offset] == want;
  }

  /** A header, then the pieces behind it. */
  method WriteSlice(header: seq<byte>, pieces: seq<seq<byte>>, dst: array<byte>, start: nat)
    requires start + |header| + |Flatten(pieces)| <= dst.Length
    modifies dst
    ensures dst[start..start + |header + Flatten(pieces)|] == header + Flatten(pieces)
    ensures forall i :: 0 <= i < dst.Length && !(start <= i < start + |header + Flatten(pieces)|) ==> dst[i] == old(dst[i])
  {
    CopyBytes(header, dst, start);
    var base := start + |header|;
    ghost var before := dst[..];
    WritePieces(pieces, dst, base);
    assert dst[start..base] == before[start..base] == header;
    ghost var end := base + |Flatten(pieces)|;
    assert dst[start..end] == dst[start..base] + dst[base..end];
  }

  /** The closure of the log macro: header first, then the arguments, filling
      exactly the reserved slice and nothing else. */
  method WriteRecord(env: Env, call: LogCall, dst: array<byte>, start: nat)
    requires ValidCall(env, call)
    requires start + HeaderSize(env) + ArgsSize(env, call.args) <= dst.Length
    modifies dst
    ensures dst[start..start + |EncodeRecord(env, call)|] == EncodeRecord(env, call)
    ensures forall i :: 0 <= i < dst.Length && !(start <= i < start + |EncodeRecord(env, call)|) ==> dst[i] == old(dst[i])
  {
    EncodeArgsFlatten(env, call.args);
    var header := EncodeHeader(env, Header(call.timestamp, call.metadata, call.logger, ArgsSize(env, call.args)));
    WriteSlice(header, Pieces(env, call.args), dst, start);
  }

  /** One round of the argument loop, from `rest` with `args` already decoded. */
  lemma DecodeAllStep(one: Step, rest: seq<byte>, args: seq<DecodedArg>)
    requires Advances(one)
    ensures rest == [] ==> Prepend(args, DecodeAll(one, rest)) == Ok(args)
    ensures rest != [] && one(rest).Err? ==> Prepend(args, DecodeAll(one, rest)) == Err(one(rest).error)
    ensures rest != [] && one(rest).Ok? ==>
              Prepend(args, DecodeAll(one, rest)) ==
              Prepend(args + [one(rest).value.0], DecodeAll(one, rest[one(rest).value.1..]))
  {
    assert args + [] == args;
    if rest != [] && one(rest).Ok? {
      var (d, n) := one(rest).value;
      var tail := DecodeAll(one, rest[n..]);
      if tail.Ok? {
        assert args + ([d] + tail.value) == args + [d] + tail.value;
      }
    }
  }

  /** What the argument loop keeps: the arguments so far, then those of the rest. */
  ghost predicate Continues(all: Decoded<seq<DecodedArg>>, args: seq<DecodedArg>, one: Step, data: seq<byte>, offset: nat) {
    offset <= |data| && Advances(one) && all == Prepend(args, DecodeAll(one, data[offset..]))
  }

  lemma ContinuesAtStart(one: Step, data: seq<byte>)
    requires Advances(one)
    ensures Continues(DecodeAll(one, data), [], one, data, 0)
  {
    var all := DecodeAll(one, data);
    assert data[0..] == data && (all.Ok? ==> [] + all.value == all.value);
  }

  lemma ContinuesAfterOne(all: Decoded<seq<DecodedArg>>, args: seq<DecodedArg>, one: Step, data: seq<byte>, offset: nat)
    requires Continues(all, args, one, data, offset)
    ensures offset == |data| ==> all == Ok(args)
    ensures offset < |data| ==>
      var next := one(data[offset..]);
      if next.Err? then all == Err(next.error)
      else 0 < next.value.1 <= |data| - offset && Continues(all, args + [next.value.0], one, data, offset + next.value.1)
  {
    var rest := data[offset..];
    DecodeAllStep(one, rest, args);
    if offset < |data| && one(rest).Ok? {
      assert rest[one(rest).value.1..] == data[offset + one(rest).value.1..];
    }
  }

  /** The argument loop of `decode_record`: never looks past the announced bytes
      and, when it succeeds, has used exactly all of them. */
  method DecodeArgsLoop(one: Step, argsData: seq<byte>, argsEnd: nat) returns (r: Decoded<seq<DecodedArg>>)
    requires Advances(one) && argsEnd <= |argsData|
    ensures r == DecodeAll(one, argsData[..argsEnd])
  {
    var args: seq<DecodedArg> := [];
    var offset := 0;
    ghost var data := argsData[..argsEnd];
    ghost var all := DecodeAll(one, data);
    ContinuesAtStart(one, data);
    while offset < argsEnd
      invariant 0 <= offset <= argsEnd
      invariant Continues(all, args, one, data, offset)
      decreases argsEnd - offset
    {
      ContinuesAfterOne(all, args, one, data, offset);
      assert argsData[offset..argsEnd] == data[offset..];
      var next := one(argsData[offset..argsEnd]);
      if next.Err? {
        return Err(next.error);
      }
      var (arg, consumed) := next.value;
      args := args + [arg];
      offset := offset + consumed;
    }
    ContinuesAfterOne(all, args, one, data, offset);
    return Ok(args);
  }

  /** `decode_record`. */
  method DecodeRecordBytes(env: Env, data: seq<byte>) returns (r: Decoded<RawRecord>)
    ensures r == DecodeRecord(env, data)
  {
    if |data| < HeaderSize(env) {
      return Err(BufferTooShort);
    }
    var header := ReadHeader(env, data);
    var argsData := data[HeaderSize(env)..];
    if |argsData| < header.argsSize {
      return Err(BufferTooShort);
    }
    var args := DecodeArgsLoop(OneArg(env), argsData, header.argsSize);
    return match args
      case Err(e) => Err(e)
      case Ok(ds) => Ok(RawRecord(header.timestamp, header.logger, header.metadata, ds));
  }
}
