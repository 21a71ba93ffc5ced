/** Status line and header fields: the hand-written parsers of the HTTP client and its printer.
    Iterators become positions in a string. */
module HttpParsers {
  import opened Wrappers
  import opened Sequences
  import opened Text
  import opened Numbers

  // ---- Character classes

  predicate IsWhiteSpace(c: char) { c == ' ' || c == '\t' }

  predicate IsAlpha(c: char) { 'a' <= c <= 'z' || 'A' <= c <= 'Z' }

  predicate IsTokenChar(c: char) {
    || IsAlpha(c) || IsDigit(c)
    || c == '!' || '#' <= c <= '\'' || c == '*' || c == '+' || c == '-' || c == '.'
    || '^' <= c <= '`' || c == '|' || c == '~'
  }

  predicate IsVisible(c: char) { '!' <= c <= '~' }

  predicate IsObsoleteText(c: char) { 0x80 <= c as int <= 0xFF }

  predicate IsFieldChar(c: char) { IsWhiteSpace(c) || IsVisible(c) || IsObsoleteText(c) }

  /** The four classes the scanning loops run over. */
  datatype CharClass = BLANKS | DIGITS | TOKEN | FIELD {
    predicate Has(c: char) {
      match this
      case BLANKS => IsWhiteSpace(c)
      case DIGITS => IsDigit(c)
      case TOKEN => IsTokenChar(c)
      case FIELD => IsFieldChar(c)
    }
  }

  function LowerChar(c: char): char {
    if 'A' <= c <= 'Z' then (c as int - 'A' as int + 'a' as int) as char else c
  }

  function Lower(s: string): (r: string)
    ensures |r| == |s|
  {
    if s == "" then "" else [LowerChar(s[0])] + Lower(s[1..])
  }

  lemma {:induction false} LowerAt(s: string, i: nat)
    requires i < |s|
    ensures Lower(s)[i] == LowerChar(s[i])
  {
    if i > 0 { LowerAt(s[1..], i - 1); }
  }

  // ---- What the parsers compute: functions of a string and a position in it

  /** A parsed value and the position behind it, or a thrown `ResponseError`. */
  datatype Parsed<+T> = Ok(value: T, end: nat) | Thrown

  /** Where the longest run of such characters from `i` ends. */
  function Span(s: string, i: nat, p: CharClass): (e: nat)
    requires i <= |s|
    ensures i <= e <= |s|
    decreases |s| - i
  {
    if i == |s| || !p.Has(s[i]) then i else Span(s, i + 1, p)
  }

  ghost predicate IsRun(s: string, i: nat, p: CharClass, e: nat) {
    && i <= e <= |s|
    && (forall j :: i <= j < e ==> p.Has(s[j]))
    && (e < |s| ==> !p.Has(s[e]))
  }

  /** The scan stops at the first other character, and nowhere else. */
  lemma {:induction false} SpanIs(s: string, i: nat, p: CharClass, e: nat)
    requires i <= |s|
    ensures Span(s, i, p) == e <==> IsRun(s, i, p, e)
    decreases |s| - i
  {
    if i < |s| && p.Has(s[i]) { SpanIs(s, i + 1, p, e); }
  }

  function TrimRight(s: string): string {
    if s != "" && IsWhiteSpace(s[|s| - 1]) then TrimRight(s[..|s| - 1]) else s
  }

  lemma {:induction false} TrimRightKeeps(s: string)
    ensures TrimRight(s) <= s
    ensures TrimRight(s) != "" ==> !IsWhiteSpace(TrimRight(s)[|TrimRight(s)| - 1])
    ensures forall i :: |TrimRight(s)| <= i < |s| ==> IsWhiteSpace(s[i])
  {
    if s != "" && IsWhiteSpace(s[|s| - 1]) { TrimRightKeeps(s[..|s| - 1]); }
  }

  function TrimLeft(s: string): string { s[Span(s, 0, BLANKS)..] }

  function Strip(s: string): string { TrimRight(TrimLeft(s)) }

  predicate CrlfAt(s: string, i: nat) { i + 1 < |s| && s[i] == '\r' && s[i + 1] == '\n' }

  function Token(s: string, i: nat): Parsed<string>
    requires i <= |s|
  {
    var e := Span(s, i, TOKEN);
    if e == i then Thrown else Ok(s[i..e], e)
  }

  /** CR LF and a blank: the obsolete line folding of section 3.2.4 of RFC 7230. */
  predicate FoldAt(s: string, e: nat) { CrlfAt(s, e) && e + 2 < |s| && IsWhiteSpace(s[e + 2]) }

  function ContentEnd(s: string, i: nat): (e: nat)
    requires i <= |s|
    ensures i <= e <= |s|
    decreases |s| - i
  {
    var e := Span(s, i, FIELD);
    if FoldAt(s, e) then ContentEnd(s, e + 3) else e
  }

  /** A value may be folded over lines; every fold becomes one space. */
  function Content(s: string, i: nat): string
    requires i <= |s|
    decreases |s| - i
  {
    var e := Span(s, i, FIELD);
    if FoldAt(s, e) then TrimRight(s[i..e]) + (" " + Content(s, e + 3)) else TrimRight(s[i..e])
  }

  datatype Field = Field(name: string, value: string)

  function HeaderField(s: string, i: nat): (r: Parsed<Field>)
    requires i <= |s|
    ensures r.Ok? ==> i < r.end <= |s|
  {
    match Token(s, i)
    case Thrown => Thrown
    case Ok(name, n) =>
      if n == |s| || s[n] != ':' then Thrown
      else
        var v := Span(s, n + 1, BLANKS);
        var e := ContentEnd(s, v);
        if CrlfAt(s, e) then Ok(Field(Lower(name), Content(s, v)), e + 2) else Thrown
  }

  datatype Status = Status(major: nat, minor: nat, code: nat, reason: string)

  /** The prefix "HTTP/", a digit, a dot, a digit. */
  function Version(s: string): Option<(nat, nat)> {
    if |s| >= 8 && s[..5] == "HTTP/" && IsDigit(s[5]) && s[6] == '.' && IsDigit(s[7])
    then Some((DigitValue(s[5]), DigitValue(s[7])))
    else None
  }

  /** Version, blank, exactly three digits, blank, reason phrase, line end. */
  ghost function StatusLine(s: string): (r: Parsed<Status>)
    ensures r.Ok? ==> r.end <= |s|
  {
    if Version(s).None? || |s| == 8 || s[8] != ' ' then Thrown
    else
      var c := Span(s, 9, DIGITS);
      if c != 12 || |s| == 12 || s[12] != ' ' then Thrown
      else
        var e := Span(s, 13, FIELD);
        var (major, minor) := Version(s).value;
        if CrlfAt(s, e) then Ok(Status(major, minor, Value(10, s[9..12]), s[13..e]), e + 2) else Thrown
  }

  /** The header section as `send` reads it: fields up to the end of the range, at least one. */
  function HeaderSection(s: string, i: nat): (r: Option<seq<Field>>)
    requires i <= |s|
    ensures r.Some? ==> r.value != []
    decreases |s| - i
  {
    match HeaderField(s, i)
    case Thrown => None
    case Ok(f, n) =>
      if n == |s| then Some([f])
      else match HeaderSection(s, n)
        case None => None
        case Some(fs) => Some([f] + fs)
  }

  // ---- The loops

  /** `skipWhiteSpaces` and the scanning loops of the other parsers. */
  method Scan(s: string, begin: nat, p: CharClass) returns (i: nat, result: string)
    requires begin <= |s|
    ensures i == Span(s, begin, p) && result == s[begin..i]
  {
    i, result := begin, "";
    while i < |s| && p.Has(s[i])
      invariant begin <= i <= |s| && result == s[begin..i]
      invariant Span(s, begin, p) == Span(s, i, p)
    {
      result := result + [s[i]];
      i := i + 1;
    }
  }

  method ParseToken(s: string, begin: nat) returns (r: Parsed<string>)
    requires begin <= |s|
    ensures r == Token(s, begin)
  {
    var i, result := Scan(s, begin, TOKEN);
    if result == "" { return Thrown; }
    return Ok(result, i);
  }

  method ParseFieldValue(s: string, begin: nat) returns (i: nat, result: string)
    requires begin <= |s|
    ensures i == Span(s, begin, FIELD)
    ensures result == TrimRight(s[begin..i])
  {
    i, result := Scan(s, begin, FIELD);
    while result != "" && IsWhiteSpace(result[|result| - 1])
      invariant TrimRight(result) == TrimRight(s[begin..i])
      decreases |result|
    {
      result := result[..|result| - 1];
    }
  }

  method ParseFieldContent(s: string, begin: nat) returns (i: nat, result: string)
    requires begin <= |s|
    ensures result == Content(s, begin) && i == ContentEnd(s, begin)
  {
    i, result := begin, "";
    while true
      invariant begin <= i <= |s|
      invariant Content(s, begin) == result + Content(s, i)
      invariant ContentEnd(s, begin) == ContentEnd(s, i)
      decreases |s| - i
    {
      ghost var sofar := result;
      var value;
      i, value := ParseFieldValue(s, i);
      result := result + value;
      var fold := i;
      if fold == |s| || s[fold] != '\r' { return; }
      fold := fold + 1;
      if fold == |s| || s[fold] != '\n' { return; }
      fold := fold + 1;
      if fold == |s| || !IsWhiteSpace(s[fold]) { return; }
      fold := fold + 1;
      Assoc(sofar, value, " " + Content(s, fold));
      Assoc(sofar + value, " ", Content(s, fold));
      result := result + " ";
      i := fold;
    }
  }

  method ParseHeaderField(s: string, begin: nat) returns (r: Parsed<Field>)
    requires begin <= |s|
    ensures r == HeaderField(s, begin)
  {
    var token := ParseToken(s, begin);
    if token.Thrown? { return Thrown; }
    var i := token.end;
    if i == |s| || s[i] != ':' { return Thrown; }
    var v, blanks := Scan(s, i + 1, BLANKS);
    var e, value := ParseFieldContent(s, v);
    if e == |s| || s[e] != '\r' { return Thrown; }
    if e + 1 == |s| || s[e + 1] != '\n' { return Thrown; }
    return Ok(Field(Lower(token.value), value), e + 2);
  }

  method ParseVersion(s: string) returns (r: Parsed<(nat, nat)>)
    ensures r == if Version(s).None? then Thrown else Ok(Version(s).value, 8)
  {
    var i, name := 0, "HTTP/";
    while i < 5
      invariant 0 <= i <= 5 && i <= |s| && s[..i] == name[..i]
    {
      if i == |s| || s[i] != name[i] {
        assert |s| >= 5 ==> s[..5][i] == s[i];
        return Thrown;
      }
      i := i + 1;
    }
    if i == |s| || !IsDigit(s[i]) { return Thrown; }
    var major := DigitValue(s[i]);
    if i + 1 == |s| || s[i + 1] != '.' { return Thrown; }
    if i + 2 == |s| || !IsDigit(s[i + 2]) { return Thrown; }
    return Ok((major, DigitValue(s[i + 2])), 8);
  }

  /** The status code is a `uint16_t` that wraps at every digit; only three digits are accepted, so
      the wrapping never shows. */
  method ParseStatusCode(s: string, begin: nat) returns (r: Parsed<nat>)
    requires begin <= |s|
    ensures Span(s, begin, DIGITS) != begin + 3 ==> r == Thrown
    ensures Span(s, begin, DIGITS) == begin + 3 ==> r == Ok(Value(10, s[begin..begin + 3]), begin + 3)
  {
    var i := begin;
    var result: nat := 0;
    while i < |s| && IsDigit(s[i])
      invariant begin <= i <= |s|
      invariant Span(s, begin, DIGITS) == Span(s, i, DIGITS)
      invariant AllDigits(s[begin..i]) && result == Value(10, s[begin..i]) % 0x10000
    {
      NextDigit(s, begin, i);
      WrapStep16(Value(10, s[begin..i]), DigitValue(s[i]));
      result := (10 * result % 0x10000 + DigitValue(s[i])) % 0x10000;
      i := i + 1;
    }
    if i - begin != 3 { return Thrown; }
    SmallValue(s[begin..i]);
    return Ok(result, i);
  }

  lemma NextDigit(s: string, begin: nat, i: nat)
    requires begin <= i < |s|
    ensures Value(10, s[begin..i + 1]) == 10 * Value(10, s[begin..i]) + DigitValue(s[i])
    ensures AllDigits(s[begin..i]) && IsDigit(s[i]) ==> AllDigits(s[begin..i + 1])
  {
    assert s[begin..i + 1][..i - begin] == s[begin..i];
  }

  lemma WrapStep16(v: nat, d: nat)
    ensures (10 * (v % 0x10000) % 0x10000 + d) % 0x10000 == (10 * v + d) % 0x10000
  {
    var q, r := v / 0x10000, v % 0x10000;
    assert 10 * v == 10 * r + 0x10000 * (10 * q);
    ModShift(10 * r + d, 10 * q);
    ModShift(10 * r % 0x10000 + d, 10 * r / 0x10000);
  }

  lemma ModShift(x: nat, k: nat)
    ensures (x + 0x10000 * k) % 0x10000 == x % 0x10000
  {
  }

  lemma SmallValue(s: string)
    requires |s| == 3 && AllDigits(s)
    ensures Value(10, s) < 1000
  {
    assert s[..2][..1] == s[..1] && s[..1][..0] == [];
    assert Value(10, s[..1]) < 10;
    assert Value(10, s[..2]) < 100;
  }

  method ParseStatusLine(s: string) returns (r: Parsed<Status>)
    ensures r == StatusLine(s)
  {
    var version := ParseVersion(s);
    if version.Thrown? || version.end == |s| || s[version.end] != ' ' { return Thrown; }
    var code := ParseStatusCode(s, 9);
    if code.Thrown? || code.end == |s| || s[code.end] != ' ' { return Thrown; }
    var e, reason := Scan(s, 13, FIELD);
    if e == |s| || s[e] != '\r' { return Thrown; }
    if e + 1 == |s| || s[e + 1] != '\n' { return Thrown; }
    return Ok(Status(version.value.0, version.value.1, code.value, reason), e + 2);
  }

  // ---- The printer

  ghost predicate TokenChars(s: string) { forall i :: 0 <= i < |s| ==> IsTokenChar(s[i]) }

  ghost predicate FieldChars(s: string) { forall i :: 0 <= i < |s| ==> IsFieldChar(s[i]) }

  ghost predicate ValidField(f: Field) { f.name != "" && TokenChars(f.name) && FieldChars(f.value) }

  ghost predicate AllValid(fields: seq<Field>) {
    forall k :: 0 <= k < |fields| ==> ValidField(fields[k])
  }

  function FieldLine(f: Field): string { f.name + (": " + (f.value + CRLF)) }

  function FieldLines(fields: seq<Field>): string {
    if fields == [] then "" else FieldLine(fields[0]) + FieldLines(fields[1..])
  }

  lemma {:induction false} FieldLinesAppend(fields: seq<Field>, f: Field)
    ensures FieldLines(fields + [f]) == FieldLines(fields) + FieldLine(f)
  {
    if fields == [] {
      assert FieldLines([f][1..]) == "";
    } else {
      assert (fields + [f])[1..] == fields[1..] + [f];
      FieldLinesAppend(fields[1..], f);
      Assoc(FieldLine(fields[0]), FieldLines(fields[1..]), FieldLine(f));
    }
  }

  /** `encodeHeaderFields`: `None` is the thrown `RequestError`. */
  method EncodeHeaderFields(fields: seq<Field>) returns (r: Option<string>)
    ensures r == if AllValid(fields) then Some(FieldLines(fields)) else None
  {
    var result, k := "", 0;
    while k < |fields|
      invariant 0 <= k <= |fields|
      invariant AllValid(fields[..k]) && result == FieldLines(fields[..k])
    {
      var f := fields[k];
      if f.name == "" { return None; }
      for i := 0 to |f.name|
        invariant forall j :: 0 <= j < i ==> IsTokenChar(f.name[j])
      {
        if !IsTokenChar(f.name[i]) { return None; }
      }
      for i := 0 to |f.value|
        invariant forall j :: 0 <= j < i ==> IsFieldChar(f.value[j])
      {
        if !IsFieldChar(f.value[i]) { return None; }
      }
      assert fields[..k + 1] == fields[..k] + [f];
      FieldLinesAppend(fields[..k], f);
      result := result + f.name + ": " + f.value + CRLF;
      k := k + 1;
    }
    assert fields[..k] == fields;
    return Some(result);
  }

  // ---- Round trip

  /** What the client makes of a field: name in lower case, value without surrounding blanks. */
  function Canonical(f: Field): Field { Field(Lower(f.name), Strip(f.value)) }

  function AllCanonical(fields: seq<Field>): seq<Field> {
    if fields == [] then [] else [Canonical(fields[0])] + AllCanonical(fields[1..])
  }

  /** A value on its line: blanks in front are skipped, blanks behind are trimmed, and the line end
      is not mistaken for a fold because no field line starts with a blank. */
  lemma ValueOnItsLine(s: string, i: nat, value: string)
    requires FieldChars(value)
    requires Occurs(s, value, i) && CrlfAt(s, i + |value|) && !FoldAt(s, i + |value|)
    ensures var v := Span(s, i, BLANKS);
            Content(s, v) == Strip(value) && ContentEnd(s, v) == i + |value|
  {
    var k, e := Span(value, 0, BLANKS), i + |value|;
    forall j | i <= j < e ensures s[j] == value[j - i] { OccursAt(s, value, i, j - i); }
    SpanIs(value, 0, BLANKS, k);
    SpanIs(s, i, BLANKS, i + k);
    SpanIs(s, i + k, FIELD, e);
    LineContent(s, i + k, e);
    assert s[i + k..e] == TrimLeft(value);
  }

  lemma LineContent(s: string, v: nat, e: nat)
    requires v <= |s| && e == Span(s, v, FIELD) && !FoldAt(s, e)
    ensures Content(s, v) == TrimRight(s[v..e]) && ContentEnd(s, v) == e
  {
  }

  lemma LinePartsOf(s: string, i: nat, line: string, name: string, value: string)
    requires line == name + ([':', ' '] + (value + ['\r', '\n'])) && Occurs(s, line, i)
    ensures var n, e := i + |name|, i + |name| + 2 + |value|;
            && e + 2 == i + |line| && e + 2 <= |s|
            && Occurs(s, name, i) && s[n] == ':' && s[n + 1] == ' '
            && Occurs(s, value, n + 2) && CrlfAt(s, e)
  {
    var n := |name|;
    OccursInside(s, line, i, name, 0);
    OccursInside(s, line, i, value, n + 2);
    OccursAt(s, line, i, n);
    OccursAt(s, line, i, n + 1);
    OccursAt(s, line, i, n + 2 + |value|);
    OccursAt(s, line, i, n + 2 + |value| + 1);
  }

  lemma FieldLineParts(s: string, i: nat, f: Field)
    requires Occurs(s, FieldLine(f), i)
    ensures var n, e := i + |f.name|, i + |f.name| + 2 + |f.value|;
            && Occurs(s, f.name, i) && s[n] == ':' && s[n + 1] == ' '
            && Occurs(s, f.value, n + 2) && CrlfAt(s, e) && e + 2 == i + |FieldLine(f)|
  {
    LinePartsOf(s, i, FieldLine(f), f.name, f.value);
  }

  lemma FieldLineParses(s: string, i: nat, f: Field)
    requires ValidField(f) && Occurs(s, FieldLine(f), i)
    requires !FoldAt(s, i + |FieldLine(f)| - 2)
    ensures HeaderField(s, i) == Ok(Canonical(f), i + |FieldLine(f)|)
  {
    FieldLineParts(s, i, f);
    FieldAt(s, i, f.name, f.value, i + |f.name|, i + |f.name| + 2 + |f.value|);
  }

  lemma FieldAt(s: string, i: nat, name: string, value: string, n: nat, e: nat)
    requires name != "" && TokenChars(name) && FieldChars(value)
    requires n == i + |name| && e == n + 2 + |value| && e < |s|
    requires Occurs(s, name, i) && s[n] == ':' && s[n + 1] == ' ' && Occurs(s, value, n + 2)
    requires CrlfAt(s, e) && !FoldAt(s, e)
    ensures HeaderField(s, i) == Ok(Field(Lower(name), Strip(value)), e + 2)
  {
    NameEnds(s, i, name);
    ValueOnItsLine(s, n + 2, value);
    HeaderFieldIs(s, i, name, n, Span(s, n + 2, BLANKS), e, Strip(value));
  }

  lemma HeaderFieldIs(s: string, i: nat, name: string, n: nat, v: nat, e: nat, value: string)
    requires i <= |s| && Token(s, i) == Ok(name, n) && n < |s| && s[n] == ':' && Span(s, n + 1, BLANKS) == v
    requires Content(s, v) == value && ContentEnd(s, v) == e && CrlfAt(s, e)
    ensures HeaderField(s, i) == Ok(Field(Lower(name), value), e + 2)
  {
  }

  lemma NameEnds(s: string, i: nat, name: string)
    requires Occurs(s, name, i) && i + |name| < |s| && s[i + |name|] == ':'
    requires name != "" && TokenChars(name)
    ensures Token(s, i) == Ok(name, i + |name|)
  {
    var n := i + |name|;
    forall j | i <= j < n ensures IsTokenChar(s[j]) { OccursAt(s, name, i, j - i); }
    SpanIs(s, i, TOKEN, n);
  }

  /** Parsing what `encodeHeaderFields` prints consumes it exactly and gives the list back, with
      names lower-cased and values stripped (RFC 7230, sections 3.2 and 3.2.4). The range may start
      anywhere, as it does behind a status line. */
  lemma {:induction false} HeaderRoundTrip(s: string, i: nat, fields: seq<Field>)
    requires fields != [] && AllValid(fields)
    requires i <= |s| && s[i..] == FieldLines(fields)
    ensures HeaderSection(s, i) == Some(AllCanonical(fields))
    decreases |fields|
  {
    var line := FieldLine(fields[0]);
    var e := i + |line|;
    assert ValidField(fields[0]);
    FirstFieldLine(s, i, fields);
    FieldLineParses(s, i, fields[0]);
    if |fields| > 1 { HeaderRoundTrip(s, e, fields[1..]); }
    SectionStep(s, i, Canonical(fields[0]), e, AllCanonical(fields[1..]));
  }

  /** The first line stands in front of the others and is not folded into the next. */
  lemma FirstFieldLine(s: string, i: nat, fields: seq<Field>)
    requires fields != [] && AllValid(fields)
    requires i <= |s| && s[i..] == FieldLines(fields)
    ensures var e := i + |FieldLine(fields[0])|;
            && Occurs(s, FieldLine(fields[0]), i) && s[e..] == FieldLines(fields[1..])
            && !FoldAt(s, e - 2) && (e == |s| <==> |fields| == 1)
  {
    var line, rest := FieldLine(fields[0]), FieldLines(fields[1..]);
    SuffixOfSuffix(s, i, line, rest);
    var e := i + |line|;
    assert s[i..e] == line by { assert s[i..e] == s[i..][..|line|]; TakeDrop(line, rest); }
    if |fields| > 1 {
      StartsWithToken(fields[1..]);
      assert s[e] == s[e..][0];
    }
  }

  lemma SectionStep(s: string, i: nat, f: Field, e: nat, rest: seq<Field>)
    requires i <= |s| && HeaderField(s, i) == Ok(f, e)
    requires if e == |s| then rest == [] else HeaderSection(s, e) == Some(rest)
    ensures HeaderSection(s, i) == Some([f] + rest)
  {
    assert [f] + [] == [f];
  }

  lemma SuffixOfSuffix(s: string, i: nat, a: string, b: string)
    requires i <= |s| && s[i..] == a + b
    ensures i + |a| <= |s| && s[i + |a|..] == b
  {
    assert s[i + |a|..] == s[i..][|a|..];
  }

  lemma StartsWithToken(fields: seq<Field>)
    requires fields != [] && AllValid(fields)
    ensures FieldLines(fields) != "" && IsTokenChar(FieldLines(fields)[0])
  {
    assert ValidField(fields[0]);
    assert FieldLines(fields)[0] == FieldLine(fields[0])[0] == fields[0].name[0];
  }

  /** Printing what was parsed and parsing it again changes nothing. */
  lemma CanonicalIsStable(f: Field)
    requires ValidField(f)
    ensures ValidField(Canonical(f)) && Canonical(Canonical(f)) == Canonical(f)
  {
    LowerIsStable(f.name);
    StripIsStable(f.value);
  }

  lemma LowerIsStable(s: string)
    requires TokenChars(s)
    ensures Lower(Lower(s)) == Lower(s) && TokenChars(Lower(s))
  {
    forall i | 0 <= i < |s| ensures IsTokenChar(Lower(s)[i]) && Lower(Lower(s))[i] == Lower(s)[i] {
      LowerAt(s, i);
      LowerAt(Lower(s), i);
    }
  }

  lemma StripIsStable(value: string)
    requires FieldChars(value)
    ensures Strip(Strip(value)) == Strip(value) && FieldChars(Strip(value))
  {
    var k := Span(value, 0, BLANKS);
    SpanIs(value, 0, BLANKS, k);
    var v := TrimLeft(value);
    var w := TrimRight(v);
    TrimRightKeeps(v);
    assert w != "" ==> w[0] == v[0] == value[k];
    SpanIs(w, 0, BLANKS, 0);
    assert w[0..] == w;
  }

  // ---- The character classes and the case of names, written out

  const UPPER_CASE: string := "ABCDEFGHIJKLMNOPQRSTUVWXYZ"
  const LOWER_CASE: string := "abcdefghijklmnopqrstuvwxyz"

  /** The token characters of section 3.2.6 of RFC 7230, and the octets a field value may hold. */
  lemma ClassesExactly(c: char)
    ensures IsTokenChar(c) <==> 48 <= c as int <= 57 || 65 <= c as int <= 90 || 97 <= c as int <= 122
                                || c in "!#$%&'*+-.^_`|~"
    ensures IsFieldChar(c) <==> c as int == 9 || 32 <= c as int <= 126 || 128 <= c as int <= 255
    ensures IsWhiteSpace(c) <==> c as int == 9 || c as int == 32
  {
  }

  lemma AlphabetAt(i: nat)
    requires i < 26
    ensures |UPPER_CASE| == |LOWER_CASE| == 26
    ensures UPPER_CASE[i] as int == 65 + i && LOWER_CASE[i] as int == 97 + i
  {
  }

  /** A capital letter becomes the small one, and nothing else changes. */
  lemma LetterLowers(c: char, k: nat)
    requires k < 26
    ensures |UPPER_CASE| == |LOWER_CASE| == 26
    ensures c == UPPER_CASE[k] ==> LowerChar(c) == LOWER_CASE[k]
  {
    AlphabetAt(k);
  }

  lemma OthersStay(c: char)
    ensures c in UPPER_CASE || LowerChar(c) == c
  {
    if 'A' <= c <= 'Z' {
      AlphabetAt(c as int - 65);
      assert c == UPPER_CASE[c as int - 65];
    }
  }

  /** A name in lower case, character by character. */
  lemma LowerExactly(s: string, i: nat, k: nat)
    requires i < |s| && k < 26
    ensures |UPPER_CASE| == |LOWER_CASE| == 26
    ensures s[i] == UPPER_CASE[k] ==> Lower(s)[i] == LOWER_CASE[k]
    ensures s[i] !in UPPER_CASE ==> Lower(s)[i] == s[i]
  {
    LowerAt(s, i);
    LetterLowers(s[i], k);
    OthersStay(s[i]);
  }

  ghost predicate AllBlank(s: string) { forall i :: 0 <= i < |s| ==> IsWhiteSpace(s[i]) }

  /** Stripping takes the blanks at both ends off and nothing else. */
  lemma StripExactly(s: string) returns (left: string, right: string)
    ensures s == left + Strip(s) + right && AllBlank(left) && AllBlank(right)
    ensures Strip(s) != "" ==> !IsWhiteSpace(Strip(s)[0]) && !IsWhiteSpace(Strip(s)[|Strip(s)| - 1])
  {
    var k := Span(s, 0, BLANKS);
    SpanIs(s, 0, BLANKS, k);
    var v := TrimLeft(s);
    TrimRightKeeps(v);
    left, right := s[..k], v[|TrimRight(v)|..];
    assert v == TrimRight(v) + right;
  }

  // ---- A value that is folded over lines

  /** A further line of a value: the blank that makes it a fold, and its text. */
  datatype Fold = Fold(blank: char, text: string)

  ghost function FoldedText(first: string, more: seq<Fold>): string
    decreases |more|
  {
    if more == [] then first else first + (CRLF + ([more[0].blank] + FoldedText(more[0].text, more[1..])))
  }

  /** The lines without the blanks behind them, with one space between. */
  ghost function Unfolded(first: string, more: seq<Fold>): string
    decreases |more|
  {
    if more == [] then TrimRight(first) else TrimRight(first) + (" " + Unfolded(more[0].text, more[1..]))
  }

  ghost predicate FoldedChars(first: string, more: seq<Fold>) {
    FieldChars(first) && forall k :: 0 <= k < |more| ==> IsWhiteSpace(more[k].blank) && FieldChars(more[k].text)
  }

  lemma FoldParts(s: string, i: nat, first: string, blank: char, rest: string)
    requires Occurs(s, first + (CRLF + ([blank] + rest)), i)
    ensures var e := i + |first|;
            && e + 3 + |rest| <= |s| && Occurs(s, first, i) && CrlfAt(s, e) && s[e + 2] == blank
            && Occurs(s, rest, e + 3)
  {
    var t, n := first + (CRLF + ([blank] + rest)), |first|;
    OccursInside(s, t, i, first, 0);
    OccursInside(s, t, i, rest, n + 3);
    OccursAt(s, t, i, n);
    OccursAt(s, t, i, n + 1);
    OccursAt(s, t, i, n + 2);
  }

  lemma LineEndsAt(s: string, i: nat, line: string)
    requires FieldChars(line) && Occurs(s, line, i) && CrlfAt(s, i + |line|)
    ensures Span(s, i, FIELD) == i + |line|
  {
    forall j | i <= j < i + |line| ensures IsFieldChar(s[j]) { OccursAt(s, line, i, j - i); }
    SpanIs(s, i, FIELD, i + |line|);
  }

  /** A value folded over lines reads as its lines, blanks behind them trimmed, joined by one space. */
  lemma {:induction false} FoldsAreJoined(s: string, i: nat, first: string, more: seq<Fold>)
    requires FoldedChars(first, more) && Occurs(s, FoldedText(first, more), i)
    requires var e := i + |FoldedText(first, more)|; CrlfAt(s, e) && !FoldAt(s, e)
    ensures i <= |s| && Content(s, i) == Unfolded(first, more) && ContentEnd(s, i) == i + |FoldedText(first, more)|
    decreases |more|
  {
    if more == [] {
      LastLine(s, i, first);
    } else {
      var rest := FoldedText(more[0].text, more[1..]);
      FoldParts(s, i, first, more[0].blank, rest);
      FoldsAreJoined(s, i + |first| + 3, more[0].text, more[1..]);
      FoldJoined(s, i, first, more[0].blank, rest, Unfolded(more[0].text, more[1..]));
    }
  }

  lemma FoldJoined(s: string, i: nat, first: string, blank: char, rest: string, value: string)
    requires FieldChars(first) && IsWhiteSpace(blank) && Occurs(s, first + (CRLF + ([blank] + rest)), i)
    requires var j := i + |first| + 3; j <= |s| && Content(s, j) == value && ContentEnd(s, j) == j + |rest|
    ensures i <= |s| && Content(s, i) == TrimRight(first) + (" " + value)
    ensures ContentEnd(s, i) == i + |first + (CRLF + ([blank] + rest))|
  {
    FoldParts(s, i, first, blank, rest);
    FoldedLine(s, i, first);
  }

  lemma LastLine(s: string, i: nat, line: string)
    requires FieldChars(line) && Occurs(s, line, i) && CrlfAt(s, i + |line|) && !FoldAt(s, i + |line|)
    ensures Content(s, i) == TrimRight(line) && ContentEnd(s, i) == i + |line|
  {
    LineEndsAt(s, i, line);
    assert s[i..i + |line|] == line;
  }

  lemma FoldedLine(s: string, i: nat, line: string)
    requires FieldChars(line) && Occurs(s, line, i) && FoldAt(s, i + |line|)
    ensures var j := i + |line| + 3;
            Content(s, i) == TrimRight(line) + (" " + Content(s, j)) && ContentEnd(s, i) == ContentEnd(s, j)
  {
    LineEndsAt(s, i, line);
    assert s[i..i + |line|] == line;
  }

  /** The field with such a value, any blanks in front of it: what the client reads, folds included. */
  lemma {:induction false} FoldedFieldReads(s: string, i: nat, name: string, blanks: string, first: string,
                                           more: seq<Fold>, text: string, e: nat)
    requires name != "" && TokenChars(name) && AllBlank(blanks) && FoldedChars(first, more)
    requires first != "" ==> !IsWhiteSpace(first[0])
    requires text == FoldedText(first, more) && Occurs(s, name + ([':'] + (blanks + (text + CRLF))), i)
    requires e == i + |name| + 1 + |blanks| + |text| && !FoldAt(s, e)
    ensures i <= |s| && HeaderField(s, i) == Ok(Field(Lower(name), Unfolded(first, more)), e + 2)
  {
    var n, v := i + |name|, i + |name| + 1 + |blanks|;
    StartsFolded(first, more);
    ColonParts(s, i, name, blanks, text, n, v, e);
    FoldsAreJoined(s, v, first, more);
    PartsRead(s, i, name, blanks, text, Unfolded(first, more), n, v, e);
  }

  lemma PartsRead(s: string, i: nat, name: string, blanks: string, text: string, value: string, n: nat, v: nat, e: nat)
    requires n == i + |name| && v == n + 1 + |blanks| && e == v + |text| && e < |s|
    requires name != "" && TokenChars(name) && AllBlank(blanks) && (text != "" ==> !IsWhiteSpace(text[0]))
    requires Occurs(s, name, i) && s[n] == ':' && Occurs(s, blanks, n + 1) && Occurs(s, text, v) && CrlfAt(s, e)
    requires Content(s, v) == value && ContentEnd(s, v) == e
    ensures HeaderField(s, i) == Ok(Field(Lower(name), value), e + 2)
  {
    NameEnds(s, i, name);
    BlanksEnd(s, n + 1, blanks, text);
    HeaderFieldIs(s, i, name, n, v, e, value);
  }

  lemma BlanksEnd(s: string, i: nat, blanks: string, text: string)
    requires AllBlank(blanks) && Occurs(s, blanks, i) && Occurs(s, text, i + |blanks|)
    requires text != "" ==> !IsWhiteSpace(text[0])
    requires CrlfAt(s, i + |blanks| + |text|)
    ensures Span(s, i, BLANKS) == i + |blanks|
  {
    forall j | i <= j < i + |blanks| ensures IsWhiteSpace(s[j]) { OccursAt(s, blanks, i, j - i); }
    if text != "" { OccursAt(s, text, i + |blanks|, 0); }
    SpanIs(s, i, BLANKS, i + |blanks|);
  }

  lemma StartsFolded(first: string, more: seq<Fold>)
    requires first != "" ==> !IsWhiteSpace(first[0])
    ensures var t := FoldedText(first, more); t != "" ==> !IsWhiteSpace(t[0])
  {
    if more != [] && first == "" {
      assert FoldedText(first, more)[0] == '\r';
    } else if first != "" {
      assert FoldedText(first, more)[0] == first[0];
    }
  }

  lemma ColonParts(s: string, i: nat, name: string, blanks: string, text: string, n: nat, v: nat, e: nat)
    requires Occurs(s, name + ([':'] + (blanks + (text + CRLF))), i)
    requires n == i + |name| && v == n + 1 + |blanks| && e == v + |text|
    ensures e + 2 <= |s| && Occurs(s, name, i) && s[n] == ':'
    ensures Occurs(s, blanks, n + 1) && Occurs(s, text, v) && CrlfAt(s, e)
  {
    OccursPair(s, i, name, [':'] + (blanks + (text + CRLF)));
    OccursPair(s, n, [':'], blanks + (text + CRLF));
    OccursAt(s, [':'], n, 0);
    OccursPair(s, n + 1, blanks, text + CRLF);
    OccursPair(s, v, text, CRLF);
    OccursAt(s, CRLF, e, 0);
    OccursAt(s, CRLF, e, 1);
  }

  lemma OccursPair(s: string, i: nat, a: string, b: string)
    requires Occurs(s, a + b, i)
    ensures Occurs(s, a, i) && Occurs(s, b, i + |a|)
  {
    assert (a + b)[..|a|] == a && (a + b)[|a|..] == b;
    OccursInside(s, a + b, i, a, 0);
    OccursInside(s, a + b, i, b, |a|);
  }

  // ---- Status lines, character by character

  /** `HTTP/`, a digit, a dot, a digit, a blank, three digits, a blank, the reason, CR LF. */
  ghost predicate IsStatusLine(s: string, st: Status, e: nat) {
    && e == 15 + |st.reason| <= |s|
    && s[..5] == "HTTP/" && IsDigit(s[5]) && s[6] == '.' && IsDigit(s[7]) && s[8] == ' '
    && AllDigits(s[9..12]) && s[12] == ' '
    && FieldChars(st.reason) && s[13..e - 2] == st.reason && s[e - 2] == '\r' && s[e - 1] == '\n'
    && st.major == DigitValue(s[5]) && st.minor == DigitValue(s[7]) && st.code == Value(10, s[9..12])
  }

  lemma ThreeDigits(s: string)
    requires |s| > 12
    ensures Span(s, 9, DIGITS) == 12 <==> AllDigits(s[9..12]) && !IsDigit(s[12])
  {
    SpanIs(s, 9, DIGITS, 12);
    forall j | 9 <= j < 12 ensures s[j] == s[9..12][j - 9] {}
  }

  lemma ReasonSpan(s: string, reason: string, e: nat)
    requires e == 13 + |reason| < |s| && !IsFieldChar(s[e])
    ensures Span(s, 13, FIELD) == e && s[13..e] == reason <==> FieldChars(reason) && s[13..e] == reason
  {
    SpanIs(s, 13, FIELD, e);
    forall j | 13 <= j < e ensures s[j] == s[13..e][j - 13] {}
  }

  /** The client reads a status line exactly where there is one, and each number from its place. */
  lemma StatusLineExactly(s: string, st: Status, e: nat)
    ensures StatusLine(s) == Ok(st, e) <==> IsStatusLine(s, st, e)
  {
    if |s| > 12 { ThreeDigits(s); }
    if IsStatusLine(s, st, e) {
      ReasonSpan(s, st.reason, e - 2);
    }
    if StatusLine(s) == Ok(st, e) {
      ReasonSpan(s, st.reason, e - 2);
    }
  }
}
