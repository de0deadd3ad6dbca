/** The pattern language of the formatter: parsing with its look-ahead, printing,
    and the normal form on which the two undo each other. */
module Pattern {
  import opened Wrappers
  import opened Decimal

  datatype PatternError = UnknownField(name: string) | UnclosedBrace | InvalidFormatSpec(spec: string)

  type Parsed<T> = Result<T, PatternError>

  datatype Align = Left | Right | Center

  datatype FormatSpec = FormatSpec(fill: char, align: Option<Align>, zeroPad: bool, width: nat)

  const DEFAULT_SPEC := FormatSpec(' ', None, false, 0)

  datatype FieldKind = Level | Secs | Millis | File | Line | Module | LoggerName | Message

  datatype Element = Literal(text: string) | Field(kind: FieldKind, spec: FormatSpec)

  // ---- Format specs ---------------------------------------------------------------

  function ToAlign(c: char): Option<Align> {
    if c == '<' then Some(Left) else if c == '>' then Some(Right) else if c == '^' then Some(Center) else None
  }

  function AlignChar(a: Align): char {
    match a case Left => '<' case Right => '>' case Center => '^'
  }

  /** `str::parse::<usize>` with words below `limit`: an optional `+`, then digits. */
  function ParseUsize(s: string, limit: nat): Option<nat> {
    var digits := if s != "" && s[0] == '+' then s[1..] else s;
    if digits == "" || !AllDigits(digits) then None
    else if Number(digits) < limit then Some(Number(digits)) else None
  }

  /** The optional fill and alignment at the front of a spec, and what follows. */
  function ParseAlign(spec: string): (char, Option<Align>, string)
    requires spec != ""
  {
    if |spec| >= 2 && ToAlign(spec[1]).Some? then (spec[0], ToAlign(spec[1]), spec[2..])
    else if ToAlign(spec[0]).Some? then (' ', ToAlign(spec[0]), spec[1..])
    else (' ', None, spec)
  }

  /** The optional zero flag and width. */
  function ParseWidth(rest: string, limit: nat): Option<(bool, nat)> {
    var zero := rest != "" && rest[0] == '0';
    var digits := if zero then rest[1..] else rest;
    if digits == "" then Some((zero, 0))
    else
      match ParseUsize(digits, limit)
      case None => None
      case Some(w) => Some((zero, w))
  }

  /** `parse_format_spec`. */
  function ParseSpec(spec: string, limit: nat): Parsed<FormatSpec> {
    if spec == "" then Ok(DEFAULT_SPEC)
    else
      var (fill, align, rest) := ParseAlign(spec);
      match ParseWidth(rest, limit)
      case None => Err(InvalidFormatSpec(spec))
      case Some((zero, width)) => Ok(FormatSpec(fill, align, zero, width))
  }

  predicate NormalSpec(s: FormatSpec, limit: nat) {
    (s.align.None? ==> s.fill == ' ') && s.fill != '}' && s.width < limit
  }

  function PrintAlign(s: FormatSpec): string {
    match s.align case Some(a) => [s.fill, AlignChar(a)] case None => ""
  }

  function PrintWidth(zero: bool, width: nat): string {
    (if zero then "0" else "") + if width > 0 then Print(width) else ""
  }

  function PrintSpec(s: FormatSpec): string {
    PrintAlign(s) + PrintWidth(s.zeroPad, s.width)
  }

  // The grammar `[[fill] align] ['0'] [width]`, stated apart from the parser.

  ghost predicate SpellsAlign(a: string, fill: char, align: Option<Align>) {
    match align
    case None => a == "" && fill == ' '
    case Some(Left) => a == [fill, '<'] || (a == "<" && fill == ' ')
    case Some(Right) => a == [fill, '>'] || (a == ">" && fill == ' ')
    case Some(Center) => a == [fill, '^'] || (a == "^" && fill == ' ')
  }

  ghost predicate SpellsNumber(s: string, digits: string, width: nat, limit: nat) {
    && (s == digits || s == "+" + digits)
    && digits != "" && AllDigits(digits) && Number(digits) == width < limit
  }

  /** A zero in front is always the flag, never part of the width. */
  ghost predicate SpellsWidth(w: string, number: string, digits: string, zero: bool, width: nat, limit: nat) {
    && w == (if zero then "0" else "") + number
    && (!zero && number != "" ==> number[0] != '0')
    && ((number == "" && width == 0) || SpellsNumber(number, digits, width, limit))
  }

  ghost predicate Spells(spec: string, s: FormatSpec, limit: nat) {
    exists a, w, number, digits :: spec == a + w && SpellsAlign(a, s.fill, s.align)
      && SpellsWidth(w, number, digits, s.zeroPad, s.width, limit)
  }

  predicate NoAlign(w: string) {
    forall i :: 0 <= i < |w| ==> ToAlign(w[i]).None?
  }

  lemma ReadsAlign(a: string, w: string, fill: char, align: Option<Align>)
    requires SpellsAlign(a, fill, align) && NoAlign(w) && a + w != ""
    ensures ParseAlign(a + w) == (fill, align, w)
  {
    var p := a + w;
    assert p[|a|..] == w && forall i :: |a| <= i < |p| ==> p[i] == w[i - |a|];
    if align.Some? {
      assert p[0] == a[0] && (|a| == 2 ==> p[1] == a[1]);
    }
  }

  lemma ReadsWidth(w: string, number: string, digits: string, zero: bool, width: nat, limit: nat)
    requires SpellsWidth(w, number, digits, zero, width, limit)
    ensures NoAlign(w) && ParseWidth(w, limit) == Some((zero, width))
  {
    if zero {
      assert w[1..] == number;
    } else {
      assert w == number;
    }
    if number != "" {
      assert number == "+" + digits ==> number[1..] == digits;
      assert number == digits ==> IsDigit(number[0]);
    }
  }

  lemma SpelledParses(spec: string, s: FormatSpec, limit: nat)
    requires Spells(spec, s, limit)
    ensures ParseSpec(spec, limit) == Ok(s)
  {
    var a, w, number, digits :| spec == a + w && SpellsAlign(a, s.fill, s.align)
      && SpellsWidth(w, number, digits, s.zeroPad, s.width, limit);
    ReadsWidth(w, number, digits, s.zeroPad, s.width, limit);
    if spec != "" {
      ReadsAlign(a, w, s.fill, s.align);
    } else {
      assert |a| + |w| == 0;
    }
  }

  lemma ParsedAlign(spec: string) returns (a: string)
    requires spec != ""
    ensures var (fill, align, rest) := ParseAlign(spec); spec == a + rest && SpellsAlign(a, fill, align)
  {
    var (fill, align, rest) := ParseAlign(spec);
    a := spec[..|spec| - |rest|];
  }

  lemma ParsedWidth(w: string, limit: nat) returns (number: string, digits: string)
    requires ParseWidth(w, limit).Some?
    ensures var (zero, width) := ParseWidth(w, limit).value; SpellsWidth(w, number, digits, zero, width, limit)
  {
    number := if w != "" && w[0] == '0' then w[1..] else w;
    digits := if number != "" && number[0] == '+' then number[1..] else number;
  }

  lemma ParsedIsSpelled(spec: string, s: FormatSpec, limit: nat)
    requires limit > 0 && ParseSpec(spec, limit) == Ok(s)
    ensures Spells(spec, s, limit)
  {
    if spec == "" {
      assert spec == "" + "" && SpellsAlign("", s.fill, s.align) && SpellsWidth("", "", "", s.zeroPad, s.width, limit);
    } else {
      var a := ParsedAlign(spec);
      var w := ParseAlign(spec).2;
      var number, digits := ParsedWidth(w, limit);
      assert spec == a + w && SpellsAlign(a, s.fill, s.align) && SpellsWidth(w, number, digits, s.zeroPad, s.width, limit);
    }
  }

  /** The spec parser decides the grammar, and the grammar is unambiguous. */
  lemma SpecGrammar(spec: string, s: FormatSpec, limit: nat)
    requires limit > 0
    ensures ParseSpec(spec, limit) == Ok(s) <==> Spells(spec, s, limit)
  {
    if Spells(spec, s, limit) {
      SpelledParses(spec, s, limit);
    }
    if ParseSpec(spec, limit) == Ok(s) {
      ParsedIsSpelled(spec, s, limit);
    }
  }

  lemma PrintedIsSpelled(s: FormatSpec, limit: nat)
    requires NormalSpec(s, limit)
    ensures Spells(PrintSpec(s), s, limit)
  {
    var number := if s.width > 0 then Print(s.width) else "";
    assert SpellsAlign(PrintAlign(s), s.fill, s.align);
    assert SpellsWidth(PrintWidth(s.zeroPad, s.width), number, number, s.zeroPad, s.width, limit);
  }

  lemma SpecRoundTrip(s: FormatSpec, limit: nat)
    requires NormalSpec(s, limit)
    ensures ParseSpec(PrintSpec(s), limit) == Ok(s)
  {
    PrintedIsSpelled(s, limit);
    SpelledParses(PrintSpec(s), s, limit);
  }

  /** Every accepted spec without a closing brace is in normal form. */
  lemma ParsedSpecNormal(spec: string, limit: nat)
    requires '}' !in spec && limit > 0 && ParseSpec(spec, limit).Ok?
    ensures NormalSpec(ParseSpec(spec, limit).value, limit)
  {
  }

  // ---- Fields ---------------------------------------------------------------------

  function FieldName(k: FieldKind): string {
    match k
    case Level => "level"
    case Secs => "secs"
    case Millis => "millis"
    case File => "file"
    case Line => "line"
    case Module => "module"
    case LoggerName => "logger"
    case Message => "message"
  }

  /** `parse_field_kind`. */
  function ParseKind(name: string): Parsed<FieldKind> {
    if name == "level" then Ok(Level)
    else if name == "secs" then Ok(Secs)
    else if name == "millis" then Ok(Millis)
    else if name == "file" then Ok(File)
    else if name == "line" then Ok(Line)
    else if name == "module" then Ok(Module)
    else if name == "logger" then Ok(LoggerName)
    else if name == "message" then Ok(Message)
    else Err(UnknownField(name))
  }

  /** The eight names, each for its field; any other is refused by name. */
  lemma KnownFields(name: string)
    ensures ParseKind("level") == Ok(Level) && ParseKind("secs") == Ok(Secs) && ParseKind("millis") == Ok(Millis)
    ensures ParseKind("file") == Ok(File) && ParseKind("line") == Ok(Line) && ParseKind("module") == Ok(Module)
    ensures ParseKind("logger") == Ok(LoggerName) && ParseKind("message") == Ok(Message)
    ensures name !in {"level", "secs", "millis", "file", "line", "module", "logger", "message"} ==>
              ParseKind(name) == Err(UnknownField(name))
  {
    KindRoundTrip(Level);
    KindRoundTrip(Secs);
    KindRoundTrip(Millis);
    KindRoundTrip(File);
    KindRoundTrip(Line);
    KindRoundTrip(Module);
    KindRoundTrip(LoggerName);
    KindRoundTrip(Message);
  }

  lemma KindRoundTrip(k: FieldKind)
    ensures ParseKind(FieldName(k)) == Ok(k)
  {
    match k
    case Level => assert |"level"| == 5 && |"millis"| == 6;
    case Secs =>
    case Millis => assert "millis"[1] == 'i';
    case File => assert "file"[0] == 'f';
    case Line => assert "line"[0] == 'l' && "file"[0] == 'f' && "secs"[0] == 's';
    case Module => assert "module"[1] == 'o' && "millis"[1] == 'i';
    case LoggerName => assert "logger"[0] == 'l' && "millis"[0] == 'm' && "module"[0] == 'm';
    case Message => assert |"message"| == 7;
  }

  lemma NamesArePlain(k: FieldKind)
    ensures ':' !in FieldName(k) && '}' !in FieldName(k)
  {
  }

  /** A name is accepted exactly if it is a field's, and then as that field. */
  lemma KindIff(name: string)
    ensures match ParseKind(name)
      case Ok(k) => name == FieldName(k)
      case Err(e) => e == UnknownField(name) && forall k :: name != FieldName(k)
  {
    if ParseKind(name).Err? {
      forall k ensures name != FieldName(k) {
        KindRoundTrip(k);
      }
    }
  }

  /** First index of `c`, or the length if there is none. */
  function IndexOf(s: string, c: char): (k: nat)
    ensures k <= |s| && (k < |s| ==> s[k] == c) && forall i :: 0 <= i < k ==> s[i] != c
  {
    if s == "" || s[0] == c then 0 else 1 + IndexOf(s[1..], c)
  }

  lemma IndexOfUnique(s: string, c: char, k: nat)
    requires k <= |s| && (k < |s| ==> s[k] == c) && forall i :: 0 <= i < k ==> s[i] != c
    ensures IndexOf(s, c) == k
  {
  }

  /** The inside of a placeholder: a field name, and a spec after the first colon. */
  function ParseToken(token: string, limit: nat): Parsed<Element> {
    var pos := IndexOf(token, ':');
    var spec := if pos < |token| then token[pos + 1..] else "";
    match ParseKind(token[..pos])
    case Err(e) => Err(e)
    case Ok(kind) =>
      match ParseSpec(spec, limit)
      case Err(e) => Err(e)
      case Ok(s) => Ok(Field(kind, s))
  }

  function PrintToken(kind: FieldKind, spec: FormatSpec): string {
    var p := PrintSpec(spec);
    FieldName(kind) + if p == "" then "" else ":" + p
  }

  // The inside of a placeholder, stated apart from the parser.

  /** A name without colon, and a spec behind a colon or none at all. */
  ghost predicate NameAndSpec(token: string, name: string, q: string) {
    ':' !in name && (token == name + ":" + q || (token == name && q == ""))
  }

  ghost predicate SpellsToken(token: string, e: Element, limit: nat) {
    e.Field? && exists q :: NameAndSpec(token, FieldName(e.kind), q) && Spells(q, e.spec, limit)
  }

  /** An unknown name is the first thing reported, then a spec that spells nothing. */
  ghost predicate FaultyToken(token: string, e: PatternError, limit: nat) {
    exists name, q :: NameAndSpec(token, name, q) && Faulty(name, q, e, limit)
  }

  ghost predicate Faulty(name: string, q: string, e: PatternError, limit: nat) {
    if forall k :: name != FieldName(k) then e == UnknownField(name)
    else e == InvalidFormatSpec(q) && forall s :: !Spells(q, s, limit)
  }

  lemma TokenSplit(token: string, name: string, q: string)
    requires NameAndSpec(token, name, q)
    ensures var pos := IndexOf(token, ':');
      pos == |name| && token[..pos] == name && q == if pos < |token| then token[pos + 1..] else ""
  {
    forall i | 0 <= i < |name| ensures token[i] != ':' {
      assert token[i] in name;
    }
    IndexOfUnique(token, ':', |name|);
  }

  lemma SplitToken(token: string) returns (name: string, q: string)
    ensures NameAndSpec(token, name, q)
  {
    var pos := IndexOf(token, ':');
    name, q := token[..pos], if pos < |token| then token[pos + 1..] else "";
    if pos < |token| {
      assert token == token[..pos] + [token[pos]] + token[pos + 1..];
    }
  }

  lemma ParseSplitToken(token: string, name: string, q: string, limit: nat)
    requires NameAndSpec(token, name, q)
    ensures ParseToken(token, limit) ==
            match ParseKind(name)
            case Err(e) => Err(e)
            case Ok(kind) =>
              match ParseSpec(q, limit)
              case Err(e) => Err(e)
              case Ok(s) => Ok(Field(kind, s))
  {
    TokenSplit(token, name, q);
  }

  lemma SpecError(q: string, limit: nat)
    requires limit > 0 && ParseSpec(q, limit).Err?
    ensures ParseSpec(q, limit) == Err(InvalidFormatSpec(q)) && forall s :: !Spells(q, s, limit)
  {
    forall s ensures !Spells(q, s, limit) {
      SpecGrammar(q, s, limit);
    }
  }

  /** Every token is one or the other, and is read as such. */
  lemma TokenIs(token: string, limit: nat)
    requires limit > 0
    ensures match ParseToken(token, limit)
      case Ok(e) => SpellsToken(token, e, limit)
      case Err(e) => FaultyToken(token, e, limit)
  {
    var name, q := SplitToken(token);
    ParseSplitToken(token, name, q, limit);
    KindIff(name);
    if ParseKind(name).Ok? {
      if ParseSpec(q, limit).Ok? {
        SpecGrammar(q, ParseSpec(q, limit).value, limit);
      } else {
        SpecError(q, limit);
      }
    }
    assert ParseToken(token, limit).Err? ==> Faulty(name, q, ParseToken(token, limit).error, limit);
  }

  lemma SpelledToken(token: string, e: Element, limit: nat)
    requires SpellsToken(token, e, limit)
    ensures ParseToken(token, limit) == Ok(e)
  {
    var q :| NameAndSpec(token, FieldName(e.kind), q) && Spells(q, e.spec, limit);
    KindRoundTrip(e.kind);
    SpelledParses(q, e.spec, limit);
    ParseSplitToken(token, FieldName(e.kind), q, limit);
  }

  lemma FaultyTokenFails(token: string, e: PatternError, limit: nat)
    requires limit > 0 && FaultyToken(token, e, limit)
    ensures ParseToken(token, limit) == Err(e)
  {
    var name, q :| NameAndSpec(token, name, q) && Faulty(name, q, e, limit);
    ParseSplitToken(token, name, q, limit);
    KindIff(name);
    if ParseKind(name).Ok? {
      if ParseSpec(q, limit).Ok? {
        SpecGrammar(q, ParseSpec(q, limit).value, limit);
      } else {
        SpecError(q, limit);
      }
    }
  }

  /** The inside of a placeholder is accepted exactly if it is one of the eight names,
      alone or with a colon and a spec that the grammar spells. */
  lemma TokenGrammar(token: string, e: Element, limit: nat)
    requires limit > 0
    ensures ParseToken(token, limit) == Ok(e) <==> SpellsToken(token, e, limit)
  {
    TokenIs(token, limit);
    if SpellsToken(token, e, limit) {
      SpelledToken(token, e, limit);
    }
  }

  /** Otherwise the name is reported if it is unknown, and the spec if not. */
  lemma TokenErrors(token: string, e: PatternError, limit: nat)
    requires limit > 0
    ensures ParseToken(token, limit) == Err(e) <==> FaultyToken(token, e, limit)
  {
    TokenIs(token, limit);
    if FaultyToken(token, e, limit) {
      FaultyTokenFails(token, e, limit);
    }
  }

  lemma SpecHasNoBrace(spec: FormatSpec, limit: nat)
    requires NormalSpec(spec, limit)
    ensures '}' !in PrintSpec(spec)
  {
    assert AllDigits(PrintWidth(spec.zeroPad, spec.width));
    assert '}' !in PrintAlign(spec);
  }

  lemma TokenRoundTrip(kind: FieldKind, spec: FormatSpec, limit: nat)
    requires NormalSpec(spec, limit)
    ensures ParseToken(PrintToken(kind, spec), limit) == Ok(Field(kind, spec))
    ensures '}' !in PrintToken(kind, spec)
  {
    NamesArePlain(kind);
    PrintedIsSpelled(spec, limit);
    SpecHasNoBrace(spec, limit);
    assert NameAndSpec(PrintToken(kind, spec), FieldName(kind), PrintSpec(spec));
    SpelledToken(PrintToken(kind, spec), Field(kind, spec), limit);
  }

  // ---- Patterns --------------------------------------------------------------------

  function Flush(literal: string): seq<Element> {
    if literal == "" then [] else [Literal(literal)]
  }

  /** How the inside of a placeholder is read. */
  type Reader = string -> Parsed<Element>

  /** Elements collected so far, in front of a field and the rest of the pattern. */
  function Then(es: seq<Element>, field: Parsed<Element>, rest: Parsed<seq<Element>>): Parsed<seq<Element>> {
    if field.Err? then Err(field.error)
    else if rest.Err? then rest
    else Ok(es + [field.value] + rest.value)
  }

  /** `parse_pattern`, from the rest of the pattern and the literal collected so far. */
  function Parse(s: string, literal: string, read: Reader): Parsed<seq<Element>>
    decreases |s|
  {
    if s == "" then Ok(Flush(literal))
    else if s[0] != '{' then Parse(s[1..], literal + [s[0]], read)
    else
      var close := IndexOf(s[1..], '}');
      if close == |s| - 1 then Err(UnclosedBrace)
      else Then(Flush(literal), read(s[1..][..close]), Parse(s[close + 2..], "", read))
  }

  function Tokens(limit: nat): Reader {
    token => ParseToken(token, limit)
  }

  /** The whole of `parse_pattern` with words below `limit`. */
  function ParseAll(pattern: string, limit: nat): Parsed<seq<Element>> {
    Parse(pattern, "", Tokens(limit))
  }

  function PrintElement(e: Element): string {
    match e
    case Literal(text) => text
    case Field(kind, spec) => "{" + PrintToken(kind, spec) + "}"
  }

  function PrintAll(es: seq<Element>): string {
    if es == [] then "" else PrintElement(es[0]) + PrintAll(es[1..])
  }

  ghost predicate NormalElement(e: Element, limit: nat) {
    match e
    case Literal(text) => text != "" && '{' !in text
    case Field(_, spec) => NormalSpec(spec, limit)
  }

  /** No empty or adjacent literals, no opening brace in a literal, default fill
      without alignment. */
  ghost predicate Normal(es: seq<Element>, limit: nat) {
    && (forall i :: 0 <= i < |es| ==> NormalElement(es[i], limit))
    && (forall i :: 0 <= i < |es| - 1 ==> !(es[i].Literal? && es[i + 1].Literal?))
  }

  lemma {:induction false} ParseLiteral(text: string, rest: string, literal: string, read: Reader)
    requires '{' !in text
    ensures Parse(text + rest, literal, read) == Parse(rest, literal + text, read)
    decreases |text|
  {
    if text == "" {
      assert text + rest == rest && literal + text == literal;
    } else {
      assert text[0] in text;
      assert (text + rest)[1..] == text[1..] + rest;
      assert literal + [text[0]] + text[1..] == literal + text;
      ParseLiteral(text[1..], rest, literal + [text[0]], read);
    }
  }

  lemma ParseField(token: string, text: string, literal: string, read: Reader)
    requires '}' !in token
    ensures Parse("{" + token + "}" + text, literal, read) == Then(Flush(literal), read(token), Parse(text, "", read))
  {
    var s := "{" + token + "}" + text;
    assert s[1..] == token + "}" + text;
    forall i | 0 <= i < |token| ensures s[1..][i] != '}' {
      assert s[1..][i] == token[i] && token[i] in token;
    }
    assert s[1..][|token|] == '}';
    IndexOfUnique(s[1..], '}', |token|);
    assert s[1..][..|token|] == token && s[|token| + 2..] == text;
  }

  // ---- The parser as it runs ---------------------------------------------------------

  /** The inner loop: collects a placeholder up to its closing brace. */
  method ReadToken(s: string, start: nat) returns (token: string, next: nat, closed: bool)
    requires start <= |s|
    ensures var k := IndexOf(s[start..], '}');
      && token == s[start..][..k] && closed == (k < |s| - start)
      && (closed ==> next == start + k + 1)
  {
    token, next, closed := "", start, false;
    ghost var tail := s[start..];
    while next < |s|
      invariant start <= next <= |s| && !closed
      invariant token == s[start..next] && forall i :: start <= i < next ==> s[i] != '}'
    {
      if s[next] == '}' {
        closed := true;
        IndexOfUnique(tail, '}', next - start);
        assert tail[..next - start] == s[start..next];
        next := next + 1;
        return;
      }
      token := token + [s[next]];
      next := next + 1;
    }
    IndexOfUnique(tail, '}', |tail|);
    assert tail[..|tail|] == s[start..next];
  }

  /** What the outer loop keeps: the elements so far in front of the parse of the rest. */
  ghost predicate Resumes(all: Parsed<seq<Element>>, elements: seq<Element>, pattern: string, i: nat, literal: string, read: Reader) {
    i <= |pattern| && all == Prepend(elements, Parse(pattern[i..], literal, read))
  }

  lemma ResumesAtStart(pattern: string, read: Reader)
    ensures Resumes(Parse(pattern, "", read), [], pattern, 0, "", read)
  {
    var all := Parse(pattern, "", read);
    assert pattern[0..] == pattern && (all.Ok? ==> [] + all.value == all.value);
  }

  lemma ResumesAfterChar(all: Parsed<seq<Element>>, elements: seq<Element>, pattern: string, i: nat, literal: string, read: Reader)
    requires Resumes(all, elements, pattern, i, literal, read) && i < |pattern| && pattern[i] != '{'
    ensures Resumes(all, elements, pattern, i + 1, literal + [pattern[i]], read)
  {
    assert pattern[i..][1..] == pattern[i + 1..];
  }

  lemma PrependThen(before: seq<Element>, es: seq<Element>, field: Parsed<Element>, rest: Parsed<seq<Element>>)
    ensures Prepend(before, Then(es, field, rest)) ==
            if field.Err? then Err(field.error) else Prepend(before + es + [field.value], rest)
  {
    if field.Ok? && rest.Ok? {
      assert before + (es + [field.value] + rest.value) == before + es + [field.value] + rest.value;
    }
  }

  /** One round of the outer loop on a placeholder: unclosed, refused or taken. */
  lemma ResumesAfterField(all: Parsed<seq<Element>>, elements: seq<Element>, pattern: string, i: nat, literal: string, read: Reader)
    requires Resumes(all, elements, pattern, i, literal, read) && i < |pattern| && pattern[i] == '{'
    ensures var tail := pattern[i + 1..]; var close := IndexOf(tail, '}');
      if close == |tail| then all == Err(UnclosedBrace)
      else
        var field := read(tail[..close]);
        if field.Err? then all == Err(field.error)
        else Resumes(all, elements + Flush(literal) + [field.value], pattern, i + close + 2, "", read)
  {
    var s, tail := pattern[i..], pattern[i + 1..];
    assert s[1..] == tail;
    var close := IndexOf(tail, '}');
    if close < |tail| {
      assert s[close + 2..] == pattern[i + close + 2..];
      PrependThen(elements, Flush(literal), read(tail[..close]), Parse(s[close + 2..], "", read));
    }
  }

  /** The two nested loops, for any way to read a placeholder. */
  method ScanPattern(pattern: string, read: Reader) returns (r: Parsed<seq<Element>>)
    ensures r == Parse(pattern, "", read)
  {
    var elements: seq<Element> := [];
    var literal := "";
    var i := 0;
    ghost var all := Parse(pattern, "", read);
    ResumesAtStart(pattern, read);
    while i < |pattern|
      invariant 0 <= i <= |pattern|
      invariant Resumes(all, elements, pattern, i, literal, read)
    {
      if pattern[i] == '{' {
        ResumesAfterField(all, elements, pattern, i, literal, read);
        var token, next, closed := ReadToken(pattern, i + 1);
        if !closed {
          return Err(UnclosedBrace);
        }
        var field := read(token);
        if field.Err? {
          return Err(field.error);
        }
        elements := elements + Flush(literal) + [field.value];
        literal, i := "", next;
      } else {
        ResumesAfterChar(all, elements, pattern, i, literal, read);
        literal, i := literal + [pattern[i]], i + 1;
      }
    }
    return Ok(elements + Flush(literal));
  }

  method ParsePattern(pattern: string, limit: nat) returns (r: Parsed<seq<Element>>)
    ensures r == ParseAll(pattern, limit)
  {
    r := ScanPattern(pattern, Tokens(limit));
  }
}
