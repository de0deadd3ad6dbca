/** Rendering a record with a parsed pattern: padding, fields, the default line and
    its timestamps. */
module Formatting {
  import opened Wrappers
  import opened Decimal
  import opened Pattern
  import opened PatternProofs
  import Message

  /** What the formatter sees of a record; `args` as their `Display` text. */
  datatype View = View(
    timestamp: nat, level: string, file: string, line: nat, modulePath: string, logger: string,
    fmt: string, args: seq<string>)

  // ---- Padding ----------------------------------------------------------------------

  function Repeat(c: char, n: nat): string {
    seq(n, _ => c)
  }

  function FillOf(spec: FormatSpec): char {
    if spec.zeroPad then '0' else spec.fill
  }

  function AlignOf(spec: FormatSpec, numeric: bool): Align {
    if spec.zeroPad then Right
    else if spec.align.Some? then spec.align.value
    else if numeric then Right else Left
  }

  function LeftPad(padding: nat, align: Align): nat {
    match align case Left => 0 case Right => padding case Center => padding / 2
  }

  function Padded(value: string, spec: FormatSpec, numeric: bool): string {
    if spec.width <= |value| then value
    else
      var padding := spec.width - |value|;
      var left := LeftPad(padding, AlignOf(spec, numeric));
      Repeat(FillOf(spec), left) + value + Repeat(FillOf(spec), padding - left)
  }

  /** Never truncated, never wider than asked: the value stands whole between fill
      characters, flush as aligned, and an odd one out goes to the right. The zero
      flag means zeros and flush right, whatever fill and alignment say. */
  lemma PaddedShape(value: string, spec: FormatSpec, numeric: bool) returns (left: nat, right: nat)
    ensures var r, fill := Padded(value, spec, numeric), if spec.zeroPad then '0' else spec.fill;
      && |r| == (if spec.width > |value| then spec.width else |value|)
      && left + |value| + right == |r| && r[left..left + |value|] == value
      && (forall i :: 0 <= i < left || left + |value| <= i < |r| ==> r[i] == fill)
    ensures spec.zeroPad ==> right == 0
    ensures !spec.zeroPad && spec.align == None ==> if numeric then right == 0 else left == 0
    ensures !spec.zeroPad && spec.align == Some(Left) ==> left == 0
    ensures !spec.zeroPad && spec.align == Some(Right) ==> right == 0
    ensures !spec.zeroPad && spec.align == Some(Center) ==> left <= right <= left + 1
  {
    var padding := if spec.width > |value| then spec.width - |value| else 0;
    left := LeftPad(padding, AlignOf(spec, numeric));
    right := padding - left;
    assert Padded(value, spec, numeric)[left..left + |value|] == value;
  }

  /** Appends `n` copies of `fill`. */
  method Fill(buf: string, fill: char, n: nat) returns (out: string)
    ensures out == buf + Repeat(fill, n)
  {
    out := buf;
    for i := 0 to n
      invariant out == buf + Repeat(fill, i)
    {
      out := out + [fill];
    }
  }

  /** `apply_format_spec`, appending to the buffer as it goes. */
  method ApplyFormatSpec(buf: string, value: string, spec: FormatSpec, numeric: bool) returns (out: string)
    ensures out == buf + Padded(value, spec, numeric)
  {
    if spec.width == 0 || |value| >= spec.width {
      return buf + value;
    }
    var padding := spec.width - |value|;
    match AlignOf(spec, numeric)
    case Left =>
      out := Fill(buf + value, FillOf(spec), padding);
    case Right =>
      out := Fill(buf, FillOf(spec), padding);
      out := out + value;
    case Center =>
      out := Fill(buf, FillOf(spec), padding / 2);
      out := Fill(out + value, FillOf(spec), padding - padding / 2);
  }

  // ---- Fields -----------------------------------------------------------------------

  const NANOS_PER_SEC := 1_000_000_000
  const NANOS_PER_MILLI := 1_000_000

  function SecsOf(timestamp: nat): nat {
    timestamp / NANOS_PER_SEC
  }

  function MillisOf(timestamp: nat): nat {
    timestamp % NANOS_PER_SEC / NANOS_PER_MILLI
  }

  predicate IsNumeric(kind: FieldKind) {
    kind.Secs? || kind.Millis? || kind.Line?
  }

  /** `render_field`. */
  function FieldText(kind: FieldKind, v: View): string {
    match kind
    case Level => v.level
    case Secs => Print(SecsOf(v.timestamp))
    case Millis => Print(MillisOf(v.timestamp))
    case File => v.file
    case Line => Print(v.line)
    case Module => v.modulePath
    case LoggerName => v.logger
    case Message => Message.Text(v.fmt, v.args)
  }

  method RenderField(kind: FieldKind, v: View) returns (s: string)
    ensures s == FieldText(kind, v)
  {
    match kind
    case Level => s := v.level;
    case Secs => s := Print(SecsOf(v.timestamp));
    case Millis => s := Print(MillisOf(v.timestamp));
    case File => s := v.file;
    case Line => s := Print(v.line);
    case Module => s := v.modulePath;
    case LoggerName => s := v.logger;
    case Message => s := Message.FormatMessage("", v.fmt, v.args);
  }

  function ElementText(e: Element, v: View): string {
    match e
    case Literal(text) => text
    case Field(kind, spec) => Padded(FieldText(kind, v), spec, IsNumeric(kind))
  }

  function Rendered(es: seq<Element>, v: View): string {
    if es == [] then "" else ElementText(es[0], v) + Rendered(es[1..], v)
  }

  lemma {:induction false} RenderedAppend(es: seq<Element>, e: Element, v: View)
    ensures Rendered(es + [e], v) == Rendered(es, v) + ElementText(e, v)
  {
    if es == [] {
      assert (es + [e])[1..] == [] && Rendered([], v) == "";
    } else {
      assert (es + [e])[1..] == es[1..] + [e];
      RenderedAppend(es[1..], e, v);
    }
  }

  /** The field that is called `name` shows `text`. */
  predicate Shows(name: string, text: string, v: View) {
    ParseKind(name).Ok? && FieldText(ParseKind(name).value, v) == text
  }

  /** What each of the eight fields shows. */
  lemma FieldsShow(v: View)
    ensures Shows("level", v.level, v) && Shows("file", v.file, v)
    ensures Shows("module", v.modulePath, v) && Shows("logger", v.logger, v)
    ensures Shows("line", Print(v.line), v) && Shows("secs", Print(v.timestamp / 1_000_000_000), v)
    ensures Shows("millis", Print(v.timestamp % 1_000_000_000 / 1_000_000), v)
    ensures Shows("message", Message.Text(v.fmt, v.args), v)
  {
    KnownFields("");
  }

  /** Without alignment the three numbers stand on the right of their field and the
      five texts on the left. */
  lemma DefaultSides(k: FieldKind, v: View, fill: char, width: nat)
    ensures var text := FieldText(k, v);
      var pad := Repeat(fill, if width > |text| then width - |text| else 0);
      var shown := ElementText(Field(k, FormatSpec(fill, None, false, width)), v);
      match k
      case Secs => shown == pad + text
      case Millis => shown == pad + text
      case Line => shown == pad + text
      case Level => shown == text + pad
      case File => shown == text + pad
      case Module => shown == text + pad
      case LoggerName => shown == text + pad
      case Message => shown == text + pad
  {
    var text := FieldText(k, v);
    assert Repeat(fill, 0) == "" && "" + text == text == text + "";
  }

  method RenderElement(e: Element, v: View, buf: string) returns (out: string)
    ensures out == buf + ElementText(e, v)
  {
    match e
    case Literal(text) =>
      out := buf + text;
    case Field(kind, spec) =>
      var value := RenderField(kind, v);
      out := ApplyFormatSpec(buf, value, spec, IsNumeric(kind));
  }

  /** `PatternFormatter::format`: appends to `out` without clearing it. */
  method Format(es: seq<Element>, v: View, buf: string) returns (out: string)
    ensures out == buf + Rendered(es, v)
  {
    out := buf;
    for i := 0 to |es|
      invariant out == buf + Rendered(es[..i], v)
    {
      assert es[..i + 1] == es[..i] + [es[i]];
      RenderedAppend(es[..i], es[i], v);
      out := RenderElement(es[i], v, out);
    }
    assert es[..|es|] == es;
  }

  // ---- The default line ---------------------------------------------------------------

  const DEFAULT_PATTERN := "[{level} {secs}.{millis:03}] {file}:{line} {message}"

  const MILLIS := Field(Millis, FormatSpec(' ', None, true, 3))

  const DEFAULT_ELEMENTS := [
    Literal("["), Plain(Level), Literal(" "), Plain(Secs), Literal("."), MILLIS, Literal("] "),
    Plain(File), Literal(":"), Plain(Line), Literal(" "), Plain(Message)]

  function Plain(kind: FieldKind): Element {
    Field(kind, DEFAULT_SPEC)
  }

  function Concat(ss: seq<string>): string {
    if ss == [] then "" else ss[0] + Concat(ss[1..])
  }

  /** Printing and rendering go element by element. */
  lemma {:induction false} ElementWise(es: seq<Element>, printed: seq<string>, rendered: seq<string>, v: View)
    requires |es| == |printed| == |rendered|
    requires forall i :: 0 <= i < |es| ==> printed[i] == PrintElement(es[i]) && rendered[i] == ElementText(es[i], v)
    ensures PrintAll(es) == Concat(printed) && Rendered(es, v) == Concat(rendered)
    decreases |es|
  {
    if es != [] {
      ElementWise(es[1..], printed[1..], rendered[1..], v);
    }
  }

  lemma {:induction false} ConcatAppend(ss: seq<string>, ts: seq<string>)
    ensures Concat(ss + ts) == Concat(ss) + Concat(ts)
    decreases |ss|
  {
    if ss == [] {
      assert ss + ts == ts;
    } else {
      assert (ss + ts)[1..] == ss[1..] + ts;
      ConcatAppend(ss[1..], ts);
    }
  }

  lemma ConcatFour(a: string, b: string, c: string, d: string)
    ensures Concat([a, b, c, d]) == a + b + c + d
  {
    assert [a, b, c, d][1..] == [b, c, d] && [b, c, d][1..] == [c, d] && [c, d][1..] == [d] && [d][1..] == [];
    assert Concat([d]) == d;
    assert Concat([b, c, d]) == b + Concat([c, d]);
  }

  lemma PrintPlain(k: FieldKind)
    ensures PrintElement(Plain(k)) == "{" + FieldName(k) + "}"
  {
    assert PrintSpec(DEFAULT_SPEC) == "";
  }

  lemma PrintMillis()
    ensures PrintElement(MILLIS) == "{millis:03}"
  {
    assert Print(3) == "3";
    assert PrintSpec(MILLIS.spec) == "03";
  }

  lemma Braces()
    ensures "{" + "level" + "}" == "{level}" && "{" + "secs" + "}" == "{secs}" && "{" + "file" + "}" == "{file}"
    ensures "{" + "line" + "}" == "{line}" && "{" + "message" + "}" == "{message}"
  {
  }

  lemma PrintPlains()
    ensures PrintElement(Plain(Level)) == "{level}" && PrintElement(Plain(Secs)) == "{secs}"
    ensures PrintElement(Plain(File)) == "{file}" && PrintElement(Plain(Line)) == "{line}"
    ensures PrintElement(Plain(Message)) == "{message}"
  {
    Braces();
    PrintPlain(Level);
    PrintPlain(Secs);
    PrintPlain(File);
    PrintPlain(Line);
    PrintPlain(Message);
  }

  const DEFAULT_PARTS :=
    ["[", "{level}", " ", "{secs}", ".", "{millis:03}", "] ", "{file}", ":", "{line}", " ", "{message}"]

  lemma DefaultFirst()
    ensures Concat(["[", "{level}", " ", "{secs}"]) == "[{level} {secs}"
  {
    ConcatFour("[", "{level}", " ", "{secs}");
  }

  lemma DefaultSecond()
    ensures Concat([".", "{millis:03}", "] ", "{file}"]) == ".{millis:03}] {file}"
  {
    ConcatFour(".", "{millis:03}", "] ", "{file}");
  }

  lemma DefaultThird()
    ensures Concat([":", "{line}", " ", "{message}"]) == ":{line} {message}"
  {
    ConcatFour(":", "{line}", " ", "{message}");
  }

  lemma DefaultFront()
    ensures "[{level} {secs}" + ".{millis:03}] {file}" == "[{level} {secs}.{millis:03}] {file}"
  {
  }

  lemma DefaultJoin()
    ensures "[{level} {secs}.{millis:03}] {file}" + ":{line} {message}" == DEFAULT_PATTERN
  {
  }

  lemma DefaultParts()
    ensures Concat(DEFAULT_PARTS) == DEFAULT_PATTERN
  {
    var a, b, c := ["[", "{level}", " ", "{secs}"], [".", "{millis:03}", "] ", "{file}"], [":", "{line}", " ", "{message}"];
    assert DEFAULT_PARTS == a + b + c;
    ConcatAppend(a + b, c);
    ConcatAppend(a, b);
    DefaultFirst();
    DefaultSecond();
    DefaultThird();
    DefaultFront();
    DefaultJoin();
  }

  function MillisText(timestamp: nat): string {
    Padded(Print(MillisOf(timestamp)), MILLIS.spec, true)
  }

  /** The texts of the default line, in order. */
  function DefaultTexts(v: View): seq<string> {
    ["[", v.level, " ", Print(SecsOf(v.timestamp)), ".", MillisText(v.timestamp), "] ",
     v.file, ":", Print(v.line), " ", Message.Text(v.fmt, v.args)]
  }

  lemma DefaultPrints()
    ensures forall i :: 0 <= i < 12 ==> DEFAULT_PARTS[i] == PrintElement(DEFAULT_ELEMENTS[i])
  {
    PrintMillis();
    PrintPlains();
  }

  lemma DefaultRenders(v: View)
    ensures forall i :: 0 <= i < 12 ==> DefaultTexts(v)[i] == ElementText(DEFAULT_ELEMENTS[i], v)
  {
  }

  lemma DefaultNormal(limit: nat)
    requires limit > 3
    ensures Normal(DEFAULT_ELEMENTS, limit)
  {
  }

  /** The default pattern is accepted, means these elements, and renders this line. */
  lemma DefaultLine(v: View, limit: nat)
    requires limit > 3
    ensures ParseAll(DEFAULT_PATTERN, limit) == Ok(DEFAULT_ELEMENTS)
    ensures Rendered(DEFAULT_ELEMENTS, v) == Concat(DefaultTexts(v))
  {
    DefaultPrints();
    DefaultRenders(v);
    ElementWise(DEFAULT_ELEMENTS, DEFAULT_PARTS, DefaultTexts(v), v);
    DefaultParts();
    DefaultNormal(limit);
    PatternRoundTrip(DEFAULT_ELEMENTS, limit);
  }

  // ---- Timestamps -----------------------------------------------------------------------

  /** What `{secs}.{millis:03}` shows. */
  function Time(timestamp: nat): string {
    Print(SecsOf(timestamp)) + "." + MillisText(timestamp)
  }

  lemma PrintLength(m: nat)
    requires m < 1000
    ensures 1 <= |Print(m)| <= 3
  {
    assert m >= 10 ==> |Print(m)| == |Print(m / 10)| + 1;
    assert m >= 100 ==> |Print(m / 10)| == |Print(m / 10 / 10)| + 1;
  }

  lemma ThreeDigits(timestamp: nat)
    ensures var ms := MillisText(timestamp); |ms| == 3 && AllDigits(ms) && Number(ms) == MillisOf(timestamp)
  {
    var m := MillisOf(timestamp);
    var n := |Print(m)|;
    PrintLength(m);
    ZerosInFront(Print(m), 3 - n);
    assert MillisText(timestamp) == seq(3 - n, _ => '0') + Print(m);
  }

  lemma NumberAppendThree(s: string, t: string)
    requires AllDigits(s) && AllDigits(t) && |t| == 3
    ensures AllDigits(s + t) && Number(s + t) == 1000 * Number(s) + Number(t)
  {
    NumberPush(s, t[0]);
    NumberPush(s + [t[0]], t[1]);
    NumberPush(s + [t[0]] + [t[1]], t[2]);
    assert s + t == s + [t[0]] + [t[1]] + [t[2]];
    NumberPush("", t[0]);
    NumberPush("" + [t[0]], t[1]);
    NumberPush("" + [t[0]] + [t[1]], t[2]);
    assert t == "" + [t[0]] + [t[1]] + [t[2]];
  }

  /** Three digits after the point, and with the point taken out the text is the
      timestamp in whole milliseconds. */
  lemma TimestampExact(timestamp: nat)
    ensures var s := Time(timestamp); var dot := |s| - 4;
      && dot > 0 && s[dot] == '.' && AllDigits(s[..dot]) && AllDigits(s[dot + 1..])
      && AllDigits(s[..dot] + s[dot + 1..])
      && Number(s[..dot] + s[dot + 1..]) == timestamp / 1_000_000
  {
    var secs, ms := Print(SecsOf(timestamp)), MillisText(timestamp);
    ThreeDigits(timestamp);
    NumberAppendThree(secs, ms);
    var s := Time(timestamp);
    var dot := |s| - 4;
    assert s[..dot] == secs && s[dot + 1..] == ms;
  }

  lemma MillisDetermine(a: nat, b: nat)
    requires a / NANOS_PER_MILLI == b / NANOS_PER_MILLI
    ensures SecsOf(a) == SecsOf(b) && MillisOf(a) == MillisOf(b)
  {
    assert SecsOf(a) == a / NANOS_PER_MILLI / 1000 && SecsOf(b) == b / NANOS_PER_MILLI / 1000;
    assert MillisOf(a) == a / NANOS_PER_MILLI % 1000 && MillisOf(b) == b / NANOS_PER_MILLI % 1000;
  }

  /** Two timestamps read alike exactly when they fall in the same millisecond. */
  lemma SameTextSameMillisecond(a: nat, b: nat)
    ensures Time(a) == Time(b) <==> a / 1_000_000 == b / 1_000_000
  {
    TimestampExact(a);
    TimestampExact(b);
    if a / NANOS_PER_MILLI == b / NANOS_PER_MILLI {
      MillisDetermine(a, b);
    }
  }

  lemma ConcatThree(a: string, b: string, c: string)
    ensures Concat([a, b, c]) == a + b + c
  {
    assert [a, b, c][1..] == [b, c] && [b, c][1..] == [c] && [c][1..] == [];
    assert Concat([c]) == c;
  }

  lemma ConcatSixAndRest(a: string, b: string, c: string, d: string, e: string, f: string, rest: seq<string>)
    ensures Concat([a, b, c, d, e, f] + rest) == a + b + c + (d + e + f) + Concat(rest)
  {
    assert [a, b, c, d, e, f] + rest == [a, b, c] + ([d, e, f] + rest);
    ConcatAppend([a, b, c], [d, e, f] + rest);
    ConcatAppend([d, e, f], rest);
    ConcatThree(a, b, c);
    ConcatThree(d, e, f);
  }

  lemma DefaultTextsSplit(v: View)
    ensures DefaultTexts(v) ==
            ["[", v.level, " ", Print(SecsOf(v.timestamp)), ".", MillisText(v.timestamp)] + DefaultTexts(v)[6..]
  {
  }

  /** A default line shows that text between its level and its file. */
  lemma DefaultLineShowsTime(v: View)
    ensures Rendered(DEFAULT_ELEMENTS, v) ==
            "[" + v.level + " " + Time(v.timestamp) + Concat(DefaultTexts(v)[6..])
  {
    DefaultLine(v, 4);
    DefaultTextsSplit(v);
    ConcatSixAndRest("[", v.level, " ", Print(SecsOf(v.timestamp)), ".", MillisText(v.timestamp), DefaultTexts(v)[6..]);
  }
}
