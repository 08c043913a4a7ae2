/** What JSON.stringify writes for plain data, and why each such record can stand on one line of a log. */
module JsonStringify {
  import opened Common
  import opened Lines
  import opened JsonText
  import JsonlRecovery

  /** Strings are bytes; the program's numbers are written here for integers. */
  datatype Data =
    | Null
    | Bool(b: bool)
    | Num(n: int)
    | Text(s: bytes)
    | List(items: Items)
    | Dict(fields: Fields)
  datatype Items = NoItems | Item(head: Data, tail: Items)
  datatype Fields = NoFields | Field(key: bytes, value: Data, more: Fields)

  // ---- The printer ----

  function Digits(n: nat): (d: bytes)
    ensures d != [] && IsDigits(d) && (|d| > 1 ==> d[0] != 48)
    ensures n > 0 ==> d[0] != 48
  {
    if n < 10 then [48 + n] else Digits(n / 10) + [48 + n % 10]
  }

  function HexDigit(n: nat): (c: byte)
    requires n < 16
    ensures IsHex(c)
  {
    if n < 10 then 48 + n else 87 + n
  }

  /** The letter of the short escapes, for \b, \t, \n, \f and \r. */
  function ShortEscape(c: byte): Option<byte> {
    if c == 8 then Some(98) else if c == 9 then Some(116) else if c == 10 then Some(110)
    else if c == 12 then Some(102) else if c == 13 then Some(114) else None
  }

  function Escaped(c: byte): bytes {
    if c == 34 || c == 92 then [92, c]
    else if c >= 32 then [c]
    else if ShortEscape(c).Some? then [92, ShortEscape(c).value]
    else [92, 117, 48, 48, HexDigit(c / 16), HexDigit(c % 16)]
  }

  function EscapedAll(s: bytes): bytes { if s == [] then [] else Escaped(s[0]) + EscapedAll(s[1..]) }

  function Quoted(s: bytes): bytes { [34] + EscapedAll(s) + [34] }

  function Stringify(d: Data): bytes
    decreases d, 0
  {
    match d
    case Null => [110, 117, 108, 108]
    case Bool(b) => if b then [116, 114, 117, 101] else [102, 97, 108, 115, 101]
    case Num(n) => if n < 0 then [45] + Digits(-n) else Digits(n)
    case Text(s) => Quoted(s)
    case List(items) => [91] + ItemsText(items) + [93]
    case Dict(fields) => [123] + FieldsText(fields) + [125]
  }

  function ItemsText(items: Items): bytes
    decreases items, 0
  {
    match items
    case NoItems => []
    case Item(head, tail) => Stringify(head) + (if tail.NoItems? then [] else [44] + ItemsText(tail))
  }

  function FieldText(key: bytes, value: Data): bytes
    decreases value, 1
  {
    Quoted(key) + [58] + Stringify(value)
  }

  function FieldsText(fields: Fields): bytes
    decreases fields, 0
  {
    match fields
    case NoFields => []
    case Field(key, value, more) =>
      FieldText(key, value) + (if more.NoFields? then [] else [44] + FieldsText(more))
  }

  // ---- Its output is in the grammar ----

  function PartsOf(c: byte): seq<StringPart> {
    if c == 34 || c == 92 then [Escape(c)]
    else if c >= 32 then [Plain(c)]
    else if ShortEscape(c).Some? then [Escape(ShortEscape(c).value)]
    else Unicode(HexDigit(c / 16), HexDigit(c % 16))
  }

  function AllParts(s: bytes): seq<StringPart> { if s == [] then [] else PartsOf(s[0]) + AllParts(s[1..]) }

  lemma {:induction false} PartsTextAppend(a: seq<StringPart>, b: seq<StringPart>)
    ensures PartsText(a + b) == PartsText(a) + PartsText(b)
    decreases |a|
  {
    if a == [] {
      assert a + b == b;
    } else {
      assert (a + b)[1..] == a[1..] + b;
      PartsTextAppend(a[1..], b);
    }
  }

  lemma PlainPart(c: byte, rest: seq<StringPart>)
    requires c >= 32 && c != QUOTE && c != BACKSLASH
    ensures ValidParts([Plain(c)] + rest) <==> ValidParts(rest)
  {
    assert ([Plain(c)] + rest)[1..] == rest;
  }

  /** A \u escape and its four digits. */
  function Unicode(h: byte, l: byte): seq<StringPart> { [Escape(117), Plain(48), Plain(48), Plain(h), Plain(l)] }

  lemma UnicodePart(h: byte, l: byte, rest: seq<StringPart>)
    requires IsHex(h) && IsHex(l) && ValidParts(rest)
    ensures ValidParts(Unicode(h, l) + rest)
  {
    var r1 := [Plain(l)] + rest;
    var r2 := [Plain(h)] + r1;
    var r3 := [Plain(48)] + r2;
    PlainPart(l, rest);
    PlainPart(h, r1);
    PlainPart(48, r2);
    PlainPart(48, r3);
    UnicodeHead(h, l, rest, [Plain(48)] + r3);
  }

  lemma UnicodeHead(h: byte, l: byte, rest: seq<StringPart>, tail: seq<StringPart>)
    requires IsHex(h) && IsHex(l) && ValidParts(tail)
    requires tail == [Plain(48)] + ([Plain(48)] + ([Plain(h)] + ([Plain(l)] + rest)))
    ensures ValidParts(Unicode(h, l) + rest)
  {
    var all := Unicode(h, l) + rest;
    assert all == [Escape(117)] + tail && all[1..] == tail;
  }

  lemma OnePart(c: byte, rest: seq<StringPart>)
    requires ValidParts(rest)
    ensures ValidParts(PartsOf(c) + rest) && PartsText(PartsOf(c)) == Escaped(c)
  {
    if c < 32 && ShortEscape(c).None? {
      UnicodePart(HexDigit(c / 16), HexDigit(c % 16), rest);
      UnicodeText(HexDigit(c / 16), HexDigit(c % 16));
    } else {
      var one := PartsOf(c);
      assert |one| == 1 && one[1..] == [] && (one + rest)[1..] == rest;
    }
  }

  lemma PartsTextHead(part: StringPart, rest: seq<StringPart>)
    ensures PartsText([part] + rest)
         == (match part case Plain(c) => [c] case Escape(e) => [BACKSLASH, e]) + PartsText(rest)
  {
    assert ([part] + rest)[1..] == rest;
  }

  lemma UnicodeText(h: byte, l: byte)
    ensures PartsText(Unicode(h, l)) == [92, 117, 48, 48, h, l]
  {
    var p4: seq<StringPart> := [Plain(l)] + [];
    var p3 := [Plain(h)] + p4;
    var p2 := [Plain(48)] + p3;
    var p1 := [Plain(48)] + p2;
    PartsTextHead(Plain(l), []);
    PartsTextHead(Plain(h), p4);
    PartsTextHead(Plain(48), p3);
    PartsTextHead(Plain(48), p2);
    PartsTextHead(Escape(117), p1);
    assert Unicode(h, l) == [Escape(117)] + p1;
  }

  lemma {:induction false} StringFits(s: bytes)
    ensures ValidParts(AllParts(s)) && PartsText(AllParts(s)) == EscapedAll(s) && StringText(AllParts(s)) == Quoted(s)
  {
    if s != [] {
      StringFits(s[1..]);
      OnePart(s[0], AllParts(s[1..]));
      PartsTextAppend(PartsOf(s[0]), AllParts(s[1..]));
    }
  }

  function ValueOf(d: Data): Value {
    match d
    case Null => Word(NULL)
    case Bool(b) => Word(if b then TRUE else FALSE)
    case Num(n) => Number(n < 0, Digits(if n < 0 then -n else n), [], NoExponent)
    case Text(s) => Str(AllParts(s))
    case List(items) => if items.NoItems? then EmptyArray([]) else Array(ElementsOf(items))
    case Dict(fields) => if fields.NoFields? then EmptyObject([]) else Object(MembersOf(fields))
  }

  function ElementsOf(items: Items): Elements
    requires items.Item?
  {
    var e := Element([], ValueOf(items.head), []);
    if items.tail.NoItems? then OneElement(e) else MoreElements(e, ElementsOf(items.tail))
  }

  function MembersOf(fields: Fields): Members
    requires fields.Field?
  {
    var m := Member([], AllParts(fields.key), [], Element([], ValueOf(fields.value), []));
    if fields.more.NoFields? then OneMember(m) else MoreMembers(m, MembersOf(fields.more))
  }

  lemma BareElement(v: Value)
    ensures ElementText(Element([], v, [])) == ValueText(v)
    ensures ValidElement(Element([], v, [])) <==> ValidValue(v)
  {
  }

  lemma {:induction false} ValueFits(d: Data)
    ensures ValidValue(ValueOf(d)) && ValueText(ValueOf(d)) == Stringify(d)
    decreases d
  {
    match d {
      case Null =>
      case Bool(b) =>
      case Num(n) => NumberFits(n);
      case Text(s) => StringFits(s);
      case List(items) =>
        if items.Item? {
          ElementsFit(items);
        }
      case Dict(fields) =>
        if fields.Field? {
          MembersFit(fields);
        }
    }
  }

  lemma NumberFits(n: int)
    ensures ValidValue(ValueOf(Num(n))) && ValueText(ValueOf(Num(n))) == Stringify(Num(n))
  {
    var d := Digits(if n < 0 then -n else n);
    assert [] + d == d && d + [] + [] == d;
    assert [MINUS] + d + [] + [] == [45] + d;
  }

  lemma {:induction false} ElementsFit(items: Items)
    requires items.Item?
    ensures ValidElements(ElementsOf(items)) && ElementsText(ElementsOf(items)) == ItemsText(items)
    decreases items
  {
    ValueFits(items.head);
    BareElement(ValueOf(items.head));
    if items.tail.Item? {
      ElementsFit(items.tail);
      Regroup(Stringify(items.head), [44], ItemsText(items.tail));
    } else {
      assert Stringify(items.head) + [] == Stringify(items.head);
    }
  }

  lemma MemberFits(key: bytes, value: Data)
    requires ValidValue(ValueOf(value)) && ValueText(ValueOf(value)) == Stringify(value)
    ensures var m := Member([], AllParts(key), [], Element([], ValueOf(value), []));
      ValidMember(m) && MemberText(m) == FieldText(key, value)
  {
    StringFits(key);
    BareElement(ValueOf(value));
    BareMember(AllParts(key), Element([], ValueOf(value), []));
  }

  lemma BareMember(key: seq<StringPart>, e: Element)
    ensures MemberText(Member([], key, [], e)) == StringText(key) + [COLON] + ElementText(e)
    ensures ValidMember(Member([], key, [], e)) <==> ValidParts(key) && ValidElement(e)
  {
    assert [] + StringText(key) + [] == StringText(key);
  }

  lemma {:induction false} MembersFit(fields: Fields)
    requires fields.Field?
    ensures ValidMembers(MembersOf(fields)) && MembersText(MembersOf(fields)) == FieldsText(fields)
    decreases fields
  {
    ValueFits(fields.value);
    MemberFits(fields.key, fields.value);
    var one := FieldText(fields.key, fields.value);
    if fields.more.Field? {
      MembersFit(fields.more);
      Regroup(one, [44], FieldsText(fields.more));
    } else {
      assert one + [] == one;
    }
  }

  // ---- It says what the data are ----

  function NumberOf(d: bytes): int { if d == [] then 0 else NumberOf(d[..|d| - 1]) * 10 + d[|d| - 1] - 48 }

  function HexOf(c: byte): int { if c < 58 then c - 48 else if c < 71 then c - 55 else c - 87 }

  /** The character of a two-character escape. */
  function Unescaped(e: byte): Option<byte> {
    if e == 34 || e == 92 || e == 47 then Some(e)
    else if e == 98 then Some(8) else if e == 116 then Some(9) else if e == 110 then Some(10)
    else if e == 102 then Some(12) else if e == 114 then Some(13) else None
  }

  predicate IsByteEscape(parts: seq<StringPart>) {
    && |parts| >= 5 && parts[0] == Escape(117) && parts[1] == Plain(48) && parts[2] == Plain(48)
    && parts[3].Plain? && parts[4].Plain? && 0 <= HexOf(parts[3].c) < 16 && 0 <= HexOf(parts[4].c) < 16
  }

  /** What a string literal stands for, as far as it is written in bytes. */
  function TextOf(parts: seq<StringPart>): Option<bytes> {
    if parts == [] then Some([])
    else if IsByteEscape(parts) then
      var c: int := HexOf(parts[3].c) * 16 + HexOf(parts[4].c);
      Preceded([c], TextOf(parts[5..]))
    else
      match parts[0]
      case Plain(c) => Preceded([c], TextOf(parts[1..]))
      case Escape(e) => if Unescaped(e).None? then None else Preceded([Unescaped(e).value], TextOf(parts[1..]))
  }

  function Preceded(a: bytes, b: Option<bytes>): Option<bytes> { if b.None? then None else Some(a + b.value) }

  /** The data a syntax tree stands for; None for numbers that are no integers and characters that are no bytes. */
  function Read(v: Value): Option<Data>
    decreases v
  {
    match v
    case Word(text) =>
      if text == NULL then Some(Null) else if text == TRUE then Some(Bool(true))
      else if text == FALSE then Some(Bool(false)) else None
    case Number(minus, whole, fraction, exponent) =>
      if fraction != [] || exponent.Exponent? then None
      else Some(Num(if minus then -NumberOf(whole) else NumberOf(whole)))
    case Str(parts) => if TextOf(parts).None? then None else Some(Text(TextOf(parts).value))
    case EmptyArray(_) => Some(List(NoItems))
    case Array(es) => var items := ReadElements(es); if items.None? then None else Some(List(items.value))
    case EmptyObject(_) => Some(Dict(NoFields))
    case Object(ms) => var fields := ReadMembers(ms); if fields.None? then None else Some(Dict(fields.value))
  }

  function ReadElements(es: Elements): Option<Items>
    decreases es
  {
    var head := Read(es.element.value);
    var tail := if es.OneElement? then Some(NoItems) else ReadElements(es.rest);
    if head.None? || tail.None? then None else Some(Item(head.value, tail.value))
  }

  function ReadMembers(ms: Members): Option<Fields>
    decreases ms
  {
    var key, value := TextOf(ms.member.key), Read(ms.member.element.value);
    var more := if ms.OneMember? then Some(NoFields) else ReadMembers(ms.rest);
    if key.None? || value.None? || more.None? then None else Some(Field(key.value, value.value, more.value))
  }

  lemma {:induction false} DigitsBack(n: nat)
    ensures NumberOf(Digits(n)) == n
  {
    if n >= 10 {
      var front := Digits(n / 10);
      DigitsBack(n / 10);
      assert Digits(n)[..|Digits(n)| - 1] == front;
    } else {
      assert Digits(n)[..0] == [];
    }
  }

  lemma PartBack(c: byte, rest: seq<StringPart>)
    ensures TextOf(PartsOf(c) + rest) == Preceded([c], TextOf(rest))
  {
    var all := PartsOf(c) + rest;
    if c < 32 && ShortEscape(c).None? {
      assert all[5..] == rest && IsByteEscape(all);
      assert HexOf(HexDigit(c / 16)) == c / 16 && HexOf(HexDigit(c % 16)) == c % 16;
    } else {
      assert |PartsOf(c)| == 1 && all[1..] == rest && all[0] == PartsOf(c)[0];
    }
  }

  lemma {:induction false} TextBack(s: bytes)
    ensures TextOf(AllParts(s)) == Some(s)
  {
    if s != [] {
      TextBack(s[1..]);
      PartBack(s[0], AllParts(s[1..]));
      assert [s[0]] + s[1..] == s;
    }
  }

  lemma WordsReadBack(b: bool)
    ensures Read(ValueOf(Null)) == Some(Null) && Read(ValueOf(Bool(b))) == Some(Bool(b))
  {
    assert |NULL| == 4 && |FALSE| == 5 && NULL[0] != TRUE[0];
  }

  lemma NumberReadsBack(n: int)
    ensures Read(ValueOf(Num(n))) == Some(Num(n))
  {
    DigitsBack(if n < 0 then -n else n);
  }

  lemma TextReadsBack(s: bytes)
    ensures Read(ValueOf(Text(s))) == Some(Text(s))
  {
    TextBack(s);
  }

  /** The syntax tree of what is written stands for the data. */
  lemma {:induction false} ReadsBack(d: Data)
    ensures Read(ValueOf(d)) == Some(d)
    decreases d
  {
    match d {
      case Null => WordsReadBack(true);
      case Bool(b) => WordsReadBack(b);
      case Num(n) => NumberReadsBack(n);
      case Text(s) => TextReadsBack(s);
      case List(items) =>
        if items.Item? {
          ElementsReadBack(items);
        }
      case Dict(fields) =>
        if fields.Field? {
          MembersReadBack(fields);
        }
    }
  }

  lemma {:induction false} ElementsReadBack(items: Items)
    requires items.Item?
    ensures ReadElements(ElementsOf(items)) == Some(items)
    decreases items
  {
    ReadsBack(items.head);
    if items.tail.Item? {
      ElementsReadBack(items.tail);
    }
  }

  lemma {:induction false} MembersReadBack(fields: Fields)
    requires fields.Field?
    ensures ReadMembers(MembersOf(fields)) == Some(fields)
    decreases fields
  {
    TextBack(fields.key);
    ReadsBack(fields.value);
    if fields.more.Field? {
      MembersReadBack(fields.more);
    }
  }

  // ---- It never spans lines ----

  lemma NoNewlineAppend(a: bytes, b: bytes)
    ensures NoNewline(a + b) <==> NoNewline(a) && NoNewline(b)
  {
  }

  lemma {:induction false} DigitsOnOneLine(n: nat)
    ensures NoNewline(Digits(n))
  {
    if n >= 10 {
      DigitsOnOneLine(n / 10);
    }
  }

  lemma {:induction false} QuotedOnOneLine(s: bytes)
    ensures NoNewline(EscapedAll(s)) && NoNewline(Quoted(s))
  {
    if s != [] {
      QuotedOnOneLine(s[1..]);
      assert NoNewline(Escaped(s[0]));
      NoNewlineAppend(Escaped(s[0]), EscapedAll(s[1..]));
    }
  }

  lemma {:induction false} OnOneLine(d: Data)
    ensures NoNewline(Stringify(d))
    decreases d
  {
    match d {
      case Null =>
      case Bool(b) =>
      case Num(n) => DigitsOnOneLine(if n < 0 then -n else n);
      case Text(s) => QuotedOnOneLine(s);
      case List(items) => ItemsOnOneLine(items);
      case Dict(fields) => FieldsOnOneLine(fields);
    }
  }

  lemma {:induction false} ItemsOnOneLine(items: Items)
    ensures NoNewline(ItemsText(items))
    decreases items
  {
    if items.Item? {
      OnOneLine(items.head);
      ItemsOnOneLine(items.tail);
    }
  }

  lemma {:induction false} FieldsOnOneLine(fields: Fields)
    ensures NoNewline(FieldsText(fields))
    decreases fields
  {
    if fields.Field? {
      QuotedOnOneLine(fields.key);
      OnOneLine(fields.value);
      FieldsOnOneLine(fields.more);
    }
  }

  /** Main result: what is written for any data is a JSON text on one line that stands for the data, and for a record an
      object text: all that repair and replay ask of an appended line. */
  lemma StringifiedIsRecord(d: Data)
    ensures NoNewline(Stringify(d)) && Stringify(d) != []
    ensures exists v :: ValidValue(v) && ValueText(v) == Stringify(d) && Read(v) == Some(d)
    ensures IsJson(Stringify(d)) && (d.Dict? ==> IsObjectText(Stringify(d)))
  {
    ValueFits(d);
    ReadsBack(d);
    BareElement(ValueOf(d));
    assert ElementText(Element([], ValueOf(d), [])) == Stringify(d);
    OnOneLine(d);
    ValueNotEmpty(ValueOf(d));
    if d.Dict? {
      assert ValueOf(d).Object? || ValueOf(d).EmptyObject?;
    }
  }

  // ---- A log of records ----

  /** Appends of records, each cut after so many bytes. */
  function Appends(records: seq<Fields>, landed: seq<nat>): (attempts: seq<JsonlRecovery.Attempt>)
    requires |landed| == |records|
    ensures |attempts| == |records|
  {
    seq(|records|, i requires 0 <= i < |records| => JsonlRecovery.Attempt(Stringify(Dict(records[i])), landed[i]))
  }

  /** Main result: whatever records are appended to a log, and wherever each append is cut off, the repaired log is the
      repaired old one and the records that landed whole, in order. */
  lemma RecordsReplay(parses: bytes -> bool, c: bytes, records: seq<Fields>, landed: seq<nat>)
    requires JsonlRecovery.DecidesJson(parses) && |landed| == |records|
    requires forall i :: 0 <= i < |records| ==> landed[i] <= |Stringify(Dict(records[i]))| + 1
    ensures var attempts := Appends(records, landed);
      JsonlRecovery.ValidAttempts(attempts) && JsonlRecovery.Repaired(parses, JsonlRecovery.Replay(parses, c, attempts))
        == JsonlRecovery.Repaired(parses, c) + Join(JsonlRecovery.Landed(attempts))
  {
    var attempts := Appends(records, landed);
    forall i | 0 <= i < |attempts|
      ensures JsonlRecovery.ValidAttempt(attempts[i]) && IsObjectText(attempts[i].record)
    {
      StringifiedIsRecord(Dict(records[i]));
    }
    JsonlRecovery.RepairedReplay(parses, c, attempts);
  }
}
