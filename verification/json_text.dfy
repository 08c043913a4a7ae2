/** The texts JSON.parse accepts (RFC 8259, sections 2 to 7), as printed syntax
    trees, and the one fact torn-write repair rests on: a proper prefix of an
    object text is never itself a JSON text. */
module JsonText {
  import opened Common
  import opened Lines

  const QUOTE: byte := 34
  const BACKSLASH: byte := 92
  const OPEN_BRACKET: byte := 91
  const CLOSE_BRACKET: byte := 93
  const OPEN_BRACE: byte := 123
  const CLOSE_BRACE: byte := 125
  const COMMA: byte := 44
  const COLON: byte := 58
  const MINUS: byte := 45
  const DOT: byte := 46
  const TRUE: bytes := [116, 114, 117, 101]
  const FALSE: bytes := [102, 97, 108, 115, 101]
  const NULL: bytes := [110, 117, 108, 108]

  /** One character of a string literal: itself, or a two-character escape.
      The four hex digits of a \u escape follow it as plain characters. */
  datatype StringPart = Plain(c: byte) | Escape(e: byte)

  datatype Exponent = NoExponent | Exponent(mark: byte, sign: bytes, digits: bytes)

  /** A value with the white space that surrounds it inside its container. */
  datatype Value =
    | Word(text: bytes)
    | Number(minus: bool, whole: bytes, fraction: bytes, exponent: Exponent)
    | Str(parts: seq<StringPart>)
    | EmptyArray(gap: bytes)
    | Array(elements: Elements)
    | EmptyObject(gap: bytes)
    | Object(members: Members)
  datatype Element = Element(before: bytes, value: Value, after: bytes)
  datatype Elements = OneElement(element: Element) | MoreElements(element: Element, rest: Elements)
  datatype Member = Member(before: bytes, key: seq<StringPart>, after: bytes, element: Element)
  datatype Members = OneMember(member: Member) | MoreMembers(member: Member, rest: Members)

  predicate IsSpace(b: bytes) { forall c :: c in b ==> c == 32 || c == 9 || c == 10 || c == 13 }

  predicate IsDigits(b: bytes) { forall c :: c in b ==> 48 <= c <= 57 }

  predicate IsHex(c: byte) { 48 <= c <= 57 || 65 <= c <= 70 || 97 <= c <= 102 }

  predicate ValidExponent(e: Exponent) {
    e.Exponent? ==>
      && (e.mark == 101 || e.mark == 69)
      && (e.sign == [] || e.sign == [43] || e.sign == [MINUS])
      && e.digits != [] && IsDigits(e.digits)
  }

  predicate ValidParts(parts: seq<StringPart>) {
    parts == [] ||
    match parts[0]
    case Plain(c) => c >= 32 && c != QUOTE && c != BACKSLASH && ValidParts(parts[1..])
    case Escape(e) =>
      && e in [QUOTE, BACKSLASH, 47, 98, 102, 110, 114, 116, 117]
      && (e == 117 ==> |parts| > 4 && forall i :: 1 <= i <= 4 ==> parts[i].Plain? && IsHex(parts[i].c))
      && ValidParts(parts[1..])
  }

  predicate ValidValue(v: Value) {
    match v
    case Word(text) => text == TRUE || text == FALSE || text == NULL
    case Number(_, whole, fraction, exponent) =>
      && whole != [] && IsDigits(whole) && (|whole| > 1 ==> whole[0] != 48)
      && IsDigits(fraction) && ValidExponent(exponent)
    case Str(parts) => ValidParts(parts)
    case EmptyArray(gap) => IsSpace(gap)
    case Array(elements) => ValidElements(elements)
    case EmptyObject(gap) => IsSpace(gap)
    case Object(members) => ValidMembers(members)
  }

  predicate ValidElement(e: Element) { IsSpace(e.before) && ValidValue(e.value) && IsSpace(e.after) }

  predicate ValidElements(es: Elements) {
    ValidElement(es.element) && (es.MoreElements? ==> ValidElements(es.rest))
  }

  predicate ValidMember(m: Member) {
    IsSpace(m.before) && ValidParts(m.key) && IsSpace(m.after) && ValidElement(m.element)
  }

  predicate ValidMembers(ms: Members) {
    ValidMember(ms.member) && (ms.MoreMembers? ==> ValidMembers(ms.rest))
  }

  function PartsText(parts: seq<StringPart>): bytes {
    if parts == [] then []
    else (match parts[0] case Plain(c) => [c] case Escape(e) => [BACKSLASH, e]) + PartsText(parts[1..])
  }

  function StringText(parts: seq<StringPart>): bytes { [QUOTE] + PartsText(parts) + [QUOTE] }

  function ExponentText(e: Exponent): bytes {
    if e.NoExponent? then [] else [e.mark] + e.sign + e.digits
  }

  function NumberText(minus: bool, whole: bytes, fraction: bytes, exponent: Exponent): bytes {
    (if minus then [MINUS] else []) + whole
    + (if fraction == [] then [] else [DOT] + fraction) + ExponentText(exponent)
  }

  function ValueText(v: Value): bytes {
    match v
    case Word(text) => text
    case Number(minus, whole, fraction, exponent) => NumberText(minus, whole, fraction, exponent)
    case Str(parts) => StringText(parts)
    case EmptyArray(gap) => [OPEN_BRACKET] + gap + [CLOSE_BRACKET]
    case Array(elements) => [OPEN_BRACKET] + ElementsText(elements) + [CLOSE_BRACKET]
    case EmptyObject(gap) => [OPEN_BRACE] + gap + [CLOSE_BRACE]
    case Object(members) => [OPEN_BRACE] + MembersText(members) + [CLOSE_BRACE]
  }

  function ElementText(e: Element): bytes { e.before + ValueText(e.value) + e.after }

  function ElementsText(es: Elements): bytes {
    match es
    case OneElement(e) => ElementText(e)
    case MoreElements(e, rest) => ElementText(e) + [COMMA] + ElementsText(rest)
  }

  function MemberText(m: Member): bytes {
    m.before + StringText(m.key) + m.after + [COLON] + ElementText(m.element)
  }

  function MembersText(ms: Members): bytes {
    match ms
    case OneMember(m) => MemberText(m)
    case MoreMembers(m, rest) => MemberText(m) + [COMMA] + MembersText(rest)
  }

  /** What JSON.parse accepts: one value, white space around it. */
  ghost predicate IsJson(text: bytes) {
    exists e: Element :: ValidElement(e) && ElementText(e) == text
  }

  /** A record text as JSON.stringify writes it: an object, nothing around it. */
  ghost predicate IsObjectText(text: bytes) {
    exists v: Value :: (v.Object? || v.EmptyObject?) && ValidValue(v) && ValueText(v) == text
  }

  // ---- The lexical scan: nesting depth outside string literals ----

  datatype Mode = Code | InString | AfterBackslash
  datatype Lex = Lex(depth: int, mode: Mode)

  function Step(st: Lex, c: byte): Lex {
    match st.mode
    case Code =>
      if c == QUOTE then st.(mode := InString)
      else if c == OPEN_BRACE || c == OPEN_BRACKET then st.(depth := st.depth + 1)
      else if c == CLOSE_BRACE || c == CLOSE_BRACKET then st.(depth := st.depth - 1)
      else st
    case InString =>
      if c == QUOTE then st.(mode := Code)
      else if c == BACKSLASH then st.(mode := AfterBackslash)
      else st
    case AfterBackslash => st.(mode := InString)
  }

  function Scan(st: Lex, s: bytes): Lex
    decreases |s|
  {
    if s == [] then st else Scan(Step(st, s[0]), s[1..])
  }

  /** The nesting depth never drops below `floor` anywhere inside `s`. */
  predicate StaysAbove(st: Lex, s: bytes, floor: int)
    decreases |s|
  {
    st.depth >= floor && (s != [] ==> StaysAbove(Step(st, s[0]), s[1..], floor))
  }

  /** Scanning `s` at depth `d` comes back to depth `d` and never goes below it. */
  predicate Balanced(s: bytes, d: int) {
    Scan(Lex(d, Code), s) == Lex(d, Code) && StaysAbove(Lex(d, Code), s, d)
  }

  lemma {:induction false} ScanAppend(st: Lex, a: bytes, b: bytes, floor: int)
    ensures Scan(st, a + b) == Scan(Scan(st, a), b)
    ensures StaysAbove(st, a + b, floor) <==> StaysAbove(st, a, floor) && StaysAbove(Scan(st, a), b, floor)
    decreases |a|
  {
    if a == [] {
      assert a + b == b;
    } else {
      assert (a + b)[1..] == a[1..] + b;
      ScanAppend(Step(st, a[0]), a[1..], b, floor);
    }
  }

  lemma {:induction false} BalancedAppend(a: bytes, b: bytes, d: int)
    requires Balanced(a, d) && Balanced(b, d)
    ensures Balanced(a + b, d)
  {
    ScanAppend(Lex(d, Code), a, b, d);
  }

  /** Wrapping balanced text in a pair of brackets keeps it balanced one level out. */
  lemma {:induction false} BalancedWrap(open: byte, inner: bytes, close: byte, d: int)
    requires open == OPEN_BRACE || open == OPEN_BRACKET
    requires close == CLOSE_BRACE || close == CLOSE_BRACKET
    requires Balanced(inner, d + 1)
    ensures Balanced([open] + inner + [close], d)
  {
    var st := Lex(d, Code);
    var deeper := Lex(d + 1, Code);
    assert Scan(st, [open]) == deeper;
    StaysAboveWeaker(deeper, inner, d + 1, d);
    ScanAppend(st, [open], inner, d);
    ScanAppend(st, [open] + inner, [close], d);
    assert Step(deeper, close) == st;
    assert [close][1..] == [];
  }

  lemma {:induction false} StaysAboveWeaker(st: Lex, s: bytes, floor: int, lower: int)
    requires StaysAbove(st, s, floor) && lower <= floor
    ensures StaysAbove(st, s, lower)
    decreases |s|
  {
    if s != [] {
      StaysAboveWeaker(Step(st, s[0]), s[1..], floor, lower);
    }
  }

  predicate Inert(s: bytes) {
    forall c :: c in s ==> c != QUOTE && c != OPEN_BRACE && c != OPEN_BRACKET && c != CLOSE_BRACE && c != CLOSE_BRACKET
  }

  lemma {:induction false} InertBalanced(s: bytes, d: int)
    requires Inert(s)
    ensures Balanced(s, d)
    decreases |s|
  {
    if s != [] {
      assert s[0] in s;
      assert forall c :: c in s[1..] ==> c in s;
      assert Step(Lex(d, Code), s[0]) == Lex(d, Code);
      InertBalanced(s[1..], d);
    }
  }

  lemma {:induction false} PartsStayInString(parts: seq<StringPart>, d: int)
    requires ValidParts(parts)
    ensures Scan(Lex(d, InString), PartsText(parts)) == Lex(d, InString)
    ensures StaysAbove(Lex(d, InString), PartsText(parts), d)
  {
    if parts != [] {
      var st := Lex(d, InString);
      var head := match parts[0] case Plain(c) => [c] case Escape(e) => [BACKSLASH, e];
      var rest := PartsText(parts[1..]);
      PartsStayInString(parts[1..], d);
      if parts[0].Escape? {
        assert head[1..] == [parts[0].e] && head[1..][1..] == [];
        assert Step(Step(st, BACKSLASH), parts[0].e) == st;
        assert Scan(Step(st, BACKSLASH), head[1..]) == st;
      } else {
        assert head[1..] == [] && Step(st, parts[0].c) == st;
      }
      assert Scan(st, head) == st;
      ScanAppend(st, head, rest, d);
    }
  }

  lemma {:induction false} StringBalanced(parts: seq<StringPart>, d: int)
    requires ValidParts(parts)
    ensures Balanced(StringText(parts), d)
  {
    var st, inside := Lex(d, Code), Lex(d, InString);
    PartsStayInString(parts, d);
    assert Scan(st, [QUOTE]) == inside;
    ScanAppend(st, [QUOTE], PartsText(parts), d);
    ScanAppend(st, [QUOTE] + PartsText(parts), [QUOTE], d);
    assert [QUOTE][1..] == [];
    assert Step(inside, QUOTE) == st;
  }

  lemma {:induction false} NumberBalanced(minus: bool, whole: bytes, fraction: bytes, exponent: Exponent, d: int)
    requires IsDigits(whole) && IsDigits(fraction) && ValidExponent(exponent)
    ensures Balanced(NumberText(minus, whole, fraction, exponent), d)
  {
    var sign := if minus then [MINUS] else [];
    var frac := if fraction == [] then [] else [DOT] + fraction;
    assert Inert(sign) && Inert(whole) && Inert(frac) && Inert(ExponentText(exponent));
    InertBalanced(sign + whole + frac + ExponentText(exponent), d);
  }

  lemma {:induction false} WordBalanced(text: bytes, d: int)
    requires text == TRUE || text == FALSE || text == NULL
    ensures Balanced(text, d)
  {
    InertBalanced(text, d);
  }

  lemma {:induction false} ValueBalanced(v: Value, d: int)
    requires ValidValue(v)
    ensures Balanced(ValueText(v), d)
    decreases v
  {
    match v {
      case Word(text) => WordBalanced(text, d);
      case Number(minus, whole, fraction, exponent) => NumberBalanced(minus, whole, fraction, exponent, d);
      case Str(parts) => StringBalanced(parts, d);
      case EmptyArray(gap) => InertBalanced(gap, d + 1); BalancedWrap(OPEN_BRACKET, gap, CLOSE_BRACKET, d);
      case EmptyObject(gap) => InertBalanced(gap, d + 1); BalancedWrap(OPEN_BRACE, gap, CLOSE_BRACE, d);
      case Array(es) => ElementsBalanced(es, d + 1); BalancedWrap(OPEN_BRACKET, ElementsText(es), CLOSE_BRACKET, d);
      case Object(ms) => MembersBalanced(ms, d + 1); BalancedWrap(OPEN_BRACE, MembersText(ms), CLOSE_BRACE, d);
    }
  }

  lemma {:induction false} ElementBalanced(e: Element, d: int)
    requires ValidElement(e)
    ensures Balanced(ElementText(e), d)
    decreases e
  {
    ValueBalanced(e.value, d);
    InertBalanced(e.before, d);
    InertBalanced(e.after, d);
    BalancedAppend(e.before, ValueText(e.value), d);
    BalancedAppend(e.before + ValueText(e.value), e.after, d);
  }

  lemma {:induction false} ElementsBalanced(es: Elements, d: int)
    requires ValidElements(es)
    ensures Balanced(ElementsText(es), d)
    decreases es
  {
    ElementBalanced(es.element, d);
    if es.MoreElements? {
      ElementsBalanced(es.rest, d);
      InertBalanced([COMMA], d);
      BalancedAppend(ElementText(es.element), [COMMA], d);
      BalancedAppend(ElementText(es.element) + [COMMA], ElementsText(es.rest), d);
    }
  }

  lemma {:induction false} MemberBalanced(m: Member, d: int)
    requires ValidMember(m)
    ensures Balanced(MemberText(m), d)
    decreases m
  {
    StringBalanced(m.key, d);
    InertBalanced(m.before, d);
    InertBalanced(m.after, d);
    InertBalanced([COLON], d);
    ElementBalanced(m.element, d);
    var a := m.before + StringText(m.key);
    BalancedAppend(m.before, StringText(m.key), d);
    BalancedAppend(a, m.after, d);
    BalancedAppend(a + m.after, [COLON], d);
    BalancedAppend(a + m.after + [COLON], ElementText(m.element), d);
  }

  lemma {:induction false} MembersBalanced(ms: Members, d: int)
    requires ValidMembers(ms)
    ensures Balanced(MembersText(ms), d)
    decreases ms
  {
    MemberBalanced(ms.member, d);
    if ms.MoreMembers? {
      MembersBalanced(ms.rest, d);
      InertBalanced([COMMA], d);
      BalancedAppend(MemberText(ms.member), [COMMA], d);
      BalancedAppend(MemberText(ms.member) + [COMMA], MembersText(ms.rest), d);
    }
  }

  /** An object text is `{`, balanced text, `}`. */
  lemma {:induction false} ObjectShape(text: bytes) returns (inner: bytes)
    requires IsObjectText(text)
    ensures text == [OPEN_BRACE] + inner + [CLOSE_BRACE]
    ensures Balanced(inner, 1)
  {
    var v: Value :| (v.Object? || v.EmptyObject?) && ValidValue(v) && ValueText(v) == text;
    if v.Object? {
      inner := MembersText(v.members);
      MembersBalanced(v.members, 1);
    } else {
      inner := v.gap;
      InertBalanced(v.gap, 1);
    }
  }

  lemma {:induction false} ValueNotEmpty(v: Value)
    requires ValidValue(v)
    ensures ValueText(v) != []
  {
  }

  /** A torn object text never parses, so repair drops it. */
  lemma {:induction false} ProperPrefixIsNotJson(text: bytes, k: nat)
    requires IsObjectText(text) && k < |text|
    ensures !IsJson(text[..k])
  {
    var inner := ObjectShape(text);
    var cut := text[..k];
    forall e: Element | ValidElement(e)
      ensures ElementText(e) != cut
    {
      ElementBalanced(e, 0);
      ValueNotEmpty(e.value);
      if k > 0 {
        var part := inner[..k - 1];
        assert cut == [OPEN_BRACE] + part;
        assert inner == part + inner[k - 1..];
        ScanAppend(Lex(1, Code), part, inner[k - 1..], 1);
        ScanAppend(Lex(0, Code), [OPEN_BRACE], part, 1);
        assert Scan(Lex(0, Code), [OPEN_BRACE]) == Lex(1, Code);
        StaysAboveEnd(Lex(1, Code), part, 1);
      }
    }
  }

  lemma {:induction false} StaysAboveEnd(st: Lex, s: bytes, floor: int)
    requires StaysAbove(st, s, floor)
    ensures Scan(st, s).depth >= floor
    decreases |s|
  {
    if s != [] {
      StaysAboveEnd(Step(st, s[0]), s[1..], floor);
    }
  }

  /** A whole object text does parse. */
  lemma {:induction false} ObjectIsJson(text: bytes)
    requires IsObjectText(text)
    ensures IsJson(text)
  {
    var v: Value :| (v.Object? || v.EmptyObject?) && ValidValue(v) && ValueText(v) == text;
    var e := Element([], v, []);
    assert ElementText(e) == text;
  }
}
