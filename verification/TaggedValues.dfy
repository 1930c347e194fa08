/**
  The tagged JSON that the playground shows. Bytes of the response are written as
  characters. Every encoder takes what follows in the response, so that its text
  can be read back from the front.
 */
module TaggedValues {

  /** Values shown through `to_string`, by type tag. */
  datatype Kind = Int64 | Float64 | Decimal128 | Uuid | Date | LocalTime | LocalDateTime | DateTime | Duration

  datatype Value =
    | Null
    | Bool(flag: bool)
    | Scalar(kind: Kind, payload: int)
    | Text(text: string)
    | Binary(bytes: seq<nat>)
    | Vector(coordinates: seq<int>)
    | List(items: seq<Value>)
    | Map(entries: seq<Entry>)
  datatype Entry = Entry(key: string, value: Value)

  datatype Output = Output(columns: seq<string>, rows: seq<seq<Value>>)

  /** `to_string` of each scalar type, and the number text of a vector coordinate. */
  datatype Printers = Printers(scalar: (Kind, int) -> string, coordinate: int -> string)

  ghost predicate IsNumber(text: string) {
    text != "" && ',' !in text && ']' !in text
  }

  ghost predicate Faithful(p: Printers) {
    && (forall kind, a, b :: p.scalar(kind, a) == p.scalar(kind, b) ==> a == b)
    && (forall a, b :: p.coordinate(a) == p.coordinate(b) ==> a == b)
    && (forall a :: IsNumber(p.coordinate(a)))
  }

  // ----- cutting equal texts -----

  lemma PrefixCancels(p: string, x: string, y: string)
    requires p + x == p + y
    ensures x == y
  {
    assert x == (p + x)[|p|..] && y == (p + y)[|p|..];
  }

  /** Texts that run up to the first of some stop characters can be told apart from what follows. */
  lemma StopCancels(stops: set<char>, a: string, x: string, b: string, y: string)
    requires a + x == b + y && x != "" && y != "" && x[0] in stops && y[0] in stops
    requires forall c :: c in stops ==> c !in a && c !in b
    ensures a == b && x == y
  {
    var whole := a + x;
    assert whole[|a|] == x[0] && whole[|b|] == y[0];
    assert a == whole[..|a|] && b == whole[..|b|];
    PrefixCancels(a, x, y);
  }

  // ----- strings -----

  function HexDigit(d: nat): char
    requires d < 16
  {
    "0123456789abcdef"[d]
  }

  /** The characters with a two character escape. */
  predicate IsShort(c: char) {
    c == '\"' || c == '\\' || 8 <= c as int <= 10 || 12 <= c as int <= 13
  }

  function Letter(c: char): char {
    match c as int
    case 8 => 'b'
    case 9 => 't'
    case 10 => 'n'
    case 12 => 'f'
    case 13 => 'r'
    case _ => c
  }

  function Escape(c: char): string {
    if IsShort(c) then ['\\', Letter(c)]
    else if c as int < 32 then ['\\', 'u', '0', '0', HexDigit(c as int / 16), HexDigit(c as int % 16)]
    else [c]
  }

  /** The escapes, one by one. */
  lemma EscapeTable(c: char)
    ensures Escape('\"') == "\\\"" && Escape('\\') == "\\\\"
    ensures Escape('\n') == "\\n" && Escape('\r') == "\\r" && Escape('\t') == "\\t"
    ensures Escape(8 as char) == "\\b" && Escape(12 as char) == "\\f"
    ensures Escape(0 as char) == "\\u0000" && Escape(11 as char) == "\\u000b" && Escape(31 as char) == "\\u001f"
    ensures c as int >= 32 && c != '\"' && c != '\\' ==> Escape(c) == [c]
  {
  }

  lemma HexDigitIsInjective(a: nat, b: nat)
    requires a < 16 && b < 16 && HexDigit(a) == HexDigit(b)
    ensures a == b
  {
  }

  lemma EscapeCancels(c: char, x: string, d: char, y: string)
    requires Escape(c) + x == Escape(d) + y
    ensures c == d && x == y
  {
    var left, right := Escape(c) + x, Escape(d) + y;
    assert left[0] == right[0];
    assert |Escape(c)| > 1 ==> left[1] == Escape(c)[1];
    assert |Escape(d)| > 1 ==> right[1] == Escape(d)[1];
    if |Escape(c)| == 6 && |Escape(d)| == 6 {
      assert left[4] == Escape(c)[4] && left[5] == Escape(c)[5];
      assert right[4] == Escape(d)[4] && right[5] == Escape(d)[5];
      HexDigitIsInjective(c as int / 16, d as int / 16);
      HexDigitIsInjective(c as int % 16, d as int % 16);
    }
    PrefixCancels(Escape(c), x, y);
  }

  function Escaped(text: string, rest: string): string {
    if text == "" then rest else Escape(text[0]) + Escaped(text[1..], rest)
  }

  function Quoted(text: string, rest: string): string {
    "\"" + Escaped(text, "\"" + rest)
  }

  lemma NoEscapeIsAQuote(c: char, x: string)
    ensures (Escape(c) + x)[0] != '\"'
  {
  }

  lemma {:induction false} EscapedCancels(a: string, x: string, b: string, y: string)
    requires Escaped(a, "\"" + x) == Escaped(b, "\"" + y)
    ensures a == b && x == y
    decreases |a| + |b|
  {
    if a != "" {
      NoEscapeIsAQuote(a[0], Escaped(a[1..], "\"" + x));
    }
    if b != "" {
      NoEscapeIsAQuote(b[0], Escaped(b[1..], "\"" + y));
    }
    if a != "" && b != "" {
      EscapeCancels(a[0], Escaped(a[1..], "\"" + x), b[0], Escaped(b[1..], "\"" + y));
      EscapedCancels(a[1..], x, b[1..], y);
      assert a == [a[0]] + a[1..] && b == [b[0]] + b[1..];
    } else {
      assert a == "" && b == "";
      PrefixCancels("\"", x, y);
    }
  }

  lemma QuotedCancels(a: string, x: string, b: string, y: string)
    requires Quoted(a, x) == Quoted(b, y)
    ensures a == b && x == y
  {
    PrefixCancels("\"", Escaped(a, "\"" + x), Escaped(b, "\"" + y));
    EscapedCancels(a, x, b, y);
  }

  // ----- lists of numbers -----

  function DecimalText(n: nat): (text: string)
    ensures IsNumber(text) && forall i :: 0 <= i < |text| ==> '0' <= text[i] <= '9'
    ensures n > 0 ==> text[0] != '0'
    ensures n < 10 ==> |text| == 1
  {
    if n < 10 then ['0' + n as char] else DecimalText(n / 10) + ['0' + (n % 10) as char]
  }

  lemma {:induction false} DecimalTextIsInjective(a: nat, b: nat)
    requires DecimalText(a) == DecimalText(b)
    ensures a == b
  {
    var s, t := DecimalText(a), DecimalText(b);
    assert s[|s| - 1] == '0' + (a % 10) as char && t[|t| - 1] == '0' + (b % 10) as char;
    if a >= 10 && b >= 10 {
      assert s[..|s| - 1] == DecimalText(a / 10) && t[..|t| - 1] == DecimalText(b / 10);
      DecimalTextIsInjective(a / 10, b / 10);
    }
  }

  /** The numbers behind the first one, and the closing bracket. */
  function MoreNumbers(texts: seq<string>, rest: string): string {
    if texts == [] then "]" + rest else "," + (texts[0] + MoreNumbers(texts[1..], rest))
  }

  function Numbers(texts: seq<string>, rest: string): string {
    if texts == [] then "[]" + rest else "[" + (texts[0] + MoreNumbers(texts[1..], rest))
  }

  ghost predicate AreNumbers(texts: seq<string>) {
    forall i :: 0 <= i < |texts| ==> IsNumber(texts[i])
  }

  lemma NumberCancels(s: string, more: seq<string>, x: string, t: string, more': seq<string>, y: string)
    requires IsNumber(s) && IsNumber(t)
    requires s + MoreNumbers(more, x) == t + MoreNumbers(more', y)
    ensures s == t && MoreNumbers(more, x) == MoreNumbers(more', y)
  {
    StopCancels({',', ']'}, s, MoreNumbers(more, x), t, MoreNumbers(more', y));
  }

  lemma {:induction false} MoreNumbersCancel(a: seq<string>, x: string, b: seq<string>, y: string)
    requires AreNumbers(a) && AreNumbers(b) && MoreNumbers(a, x) == MoreNumbers(b, y)
    ensures a == b && x == y
    decreases |a|
  {
    assert MoreNumbers(a, x)[0] == MoreNumbers(b, y)[0];
    if a == [] {
      PrefixCancels("]", x, y);
    } else {
      PrefixCancels(",", a[0] + MoreNumbers(a[1..], x), b[0] + MoreNumbers(b[1..], y));
      NumberCancels(a[0], a[1..], x, b[0], b[1..], y);
      MoreNumbersCancel(a[1..], x, b[1..], y);
      assert a == [a[0]] + a[1..] && b == [b[0]] + b[1..];
    }
  }

  lemma NumbersCancel(a: seq<string>, x: string, b: seq<string>, y: string)
    requires AreNumbers(a) && AreNumbers(b) && Numbers(a, x) == Numbers(b, y)
    ensures a == b && x == y
  {
    assert a == [] ==> Numbers(a, x)[1] == ']';
    assert b == [] ==> Numbers(b, y)[1] == ']';
    assert a != [] ==> Numbers(a, x)[1] == a[0][0] && a[0][0] in a[0];
    assert b != [] ==> Numbers(b, y)[1] == b[0][0] && b[0][0] in b[0];
    if a == [] {
      PrefixCancels("[]", x, y);
    } else {
      PrefixCancels("[", a[0] + MoreNumbers(a[1..], x), b[0] + MoreNumbers(b[1..], y));
      NumberCancels(a[0], a[1..], x, b[0], b[1..], y);
      MoreNumbersCancel(a[1..], x, b[1..], y);
      assert a == [a[0]] + a[1..] && b == [b[0]] + b[1..];
    }
  }

  function ByteTexts(bytes: seq<nat>): seq<string> {
    seq(|bytes|, i requires 0 <= i < |bytes| => DecimalText(bytes[i]))
  }

  lemma ByteTextsCancel(a: seq<nat>, b: seq<nat>)
    ensures AreNumbers(ByteTexts(a))
    ensures ByteTexts(a) == ByteTexts(b) ==> a == b
  {
    if ByteTexts(a) == ByteTexts(b) {
      assert |a| == |ByteTexts(a)| == |b|;
      forall i | 0 <= i < |a| ensures a[i] == b[i] {
        assert ByteTexts(a)[i] == ByteTexts(b)[i];
        DecimalTextIsInjective(a[i], b[i]);
      }
    }
  }

  function CoordinateTexts(p: Printers, coordinates: seq<int>): seq<string> {
    seq(|coordinates|, i requires 0 <= i < |coordinates| => p.coordinate(coordinates[i]))
  }

  lemma CoordinateIsNumber(p: Printers, c: int)
    requires Faithful(p)
    ensures IsNumber(p.coordinate(c))
  {
  }

  lemma CoordinateTextsCancel(p: Printers, a: seq<int>, b: seq<int>)
    requires Faithful(p)
    ensures AreNumbers(CoordinateTexts(p, a))
    ensures CoordinateTexts(p, a) == CoordinateTexts(p, b) ==> a == b
  {
    forall i | 0 <= i < |a| ensures IsNumber(CoordinateTexts(p, a)[i]) {
      CoordinateIsNumber(p, a[i]);
    }
    if CoordinateTexts(p, a) == CoordinateTexts(p, b) {
      assert |a| == |CoordinateTexts(p, a)| == |b|;
      forall i | 0 <= i < |a| ensures a[i] == b[i] {
        assert CoordinateTexts(p, a)[i] == CoordinateTexts(p, b)[i];
      }
    }
  }

  // ----- values -----

  function KindTag(kind: Kind): string {
    match kind
    case Int64 => "int64"
    case Float64 => "float64"
    case Decimal128 => "decimal"
    case Uuid => "uuid"
    case Date => "date"
    case LocalTime => "localtime"
    case LocalDateTime => "localdatetime"
    case DateTime => "datetime"
    case Duration => "duration"
  }

  function Tag(v: Value): string {
    match v
    case Null => "null"
    case Bool(_) => "bool"
    case Scalar(kind, _) => KindTag(kind)
    case Text(_) => "string"
    case Binary(_) => "binary"
    case Vector(_) => "vector"
    case List(_) => "list"
    case Map(_) => "map"
  }

  ghost predicate SameType(a: Value, b: Value) {
    match a
    case Null => b.Null?
    case Bool(_) => b.Bool?
    case Scalar(kind, _) => b.Scalar? && b.kind == kind
    case Text(_) => b.Text?
    case Binary(_) => b.Binary?
    case Vector(_) => b.Vector?
    case List(_) => b.List?
    case Map(_) => b.Map?
  }

  lemma TagHasNoQuote(v: Value)
    ensures '\"' !in Tag(v)
  {
  }

  /** Length and first two characters tell all tags apart. */
  function Fingerprint(text: string): (nat, char, char)
    requires |text| >= 2
  {
    (|text|, text[0], text[1])
  }

  lemma TagDetermines(a: Value, b: Value)
    requires Tag(a) == Tag(b)
    ensures SameType(a, b)
  {
    assert Fingerprint(Tag(a)) == Fingerprint(Tag(b));
  }

  const OPEN: string := "{\"type\":\""
  const MIDDLE: string := "\",\"value\":"

  function Show(p: Printers, v: Value, rest: string): string
    decreases v, 1
  {
    OPEN + (Tag(v) + (MIDDLE + Payload(p, v, "}" + rest)))
  }

  function Payload(p: Printers, v: Value, rest: string): string
    decreases v, 0
  {
    match v
    case Null => "null" + rest
    case Bool(flag) => (if flag then "true" else "false") + rest
    case Scalar(kind, payload) => Quoted(p.scalar(kind, payload), rest)
    case Text(text) => Quoted(text, rest)
    case Binary(bytes) => Numbers(ByteTexts(bytes), rest)
    case Vector(coordinates) => Numbers(CoordinateTexts(p, coordinates), rest)
    case List(items) => Items(p, items, rest)
    case Map(entries) => Entries(p, entries, rest)
  }

  function Items(p: Printers, items: seq<Value>, rest: string): string
    decreases items, 1
  {
    if items == [] then "[]" + rest else "[" + Show(p, items[0], MoreItems(p, items[1..], rest))
  }

  function MoreItems(p: Printers, items: seq<Value>, rest: string): string
    decreases items, 0
  {
    if items == [] then "]" + rest else "," + Show(p, items[0], MoreItems(p, items[1..], rest))
  }

  function Entries(p: Printers, entries: seq<Entry>, rest: string): string
    decreases entries, 1
  {
    if entries == [] then "{}" + rest
    else "{" + Quoted(entries[0].key, ":" + Show(p, entries[0].value, MoreEntries(p, entries[1..], rest)))
  }

  function MoreEntries(p: Printers, entries: seq<Entry>, rest: string): string
    decreases entries, 0
  {
    if entries == [] then "}" + rest
    else "," + Quoted(entries[0].key, ":" + Show(p, entries[0].value, MoreEntries(p, entries[1..], rest)))
  }

  // ----- unique decoding -----

  /** The frame around a payload gives away the type and the payload's text. */
  lemma FrameCancels(p: Printers, a: Value, x: string, b: Value, y: string)
    requires Show(p, a, x) == Show(p, b, y)
    ensures SameType(a, b) && Payload(p, a, "}" + x) == Payload(p, b, "}" + y)
  {
    CutFrame(Tag(a), Payload(p, a, "}" + x), Tag(b), Payload(p, b, "}" + y)) by {
      TagHasNoQuote(a);
      TagHasNoQuote(b);
    }
    TagDetermines(a, b);
  }

  lemma CutFrame(a: string, x: string, b: string, y: string)
    requires '\"' !in a && '\"' !in b
    requires OPEN + (a + (MIDDLE + x)) == OPEN + (b + (MIDDLE + y))
    ensures a == b && x == y
  {
    PrefixCancels(OPEN, a + (MIDDLE + x), b + (MIDDLE + y));
    StopCancels({'\"'}, a, MIDDLE + x, b, MIDDLE + y);
    PrefixCancels(MIDDLE, x, y);
  }

  lemma BoolCancels(a: bool, x: string, b: bool, y: string)
    requires (if a then "true" else "false") + x == (if b then "true" else "false") + y
    ensures a == b && x == y
  {
    assert ((if a then "true" else "false") + x)[0] == (if a then 't' else 'f');
    assert ((if b then "true" else "false") + y)[0] == (if b then 't' else 'f');
    PrefixCancels(if a then "true" else "false", x, y);
  }

  /** The text of a value can be cut off the front of any response in only one way. */
  lemma {:induction false} ShowCancels(p: Printers, a: Value, x: string, b: Value, y: string)
    requires Faithful(p) && Show(p, a, x) == Show(p, b, y)
    ensures a == b && x == y
    decreases a, 1
  {
    FrameCancels(p, a, x, b, y);
    PayloadCancels(p, a, "}" + x, b, "}" + y);
    PrefixCancels("}", x, y);
  }

  lemma {:induction false} PayloadCancels(p: Printers, a: Value, x: string, b: Value, y: string)
    requires Faithful(p) && SameType(a, b) && Payload(p, a, x) == Payload(p, b, y)
    ensures a == b && x == y
    decreases a, 0
  {
    match a
    case Null => PrefixCancels("null", x, y);
    case Bool(flag) => BoolCancels(flag, x, b.flag, y);
    case Scalar(kind, payload) => QuotedCancels(p.scalar(kind, payload), x, p.scalar(kind, b.payload), y);
    case Text(text) => QuotedCancels(text, x, b.text, y);
    case Binary(bytes) =>
      ByteTextsCancel(bytes, b.bytes);
      ByteTextsCancel(b.bytes, bytes);
      NumbersCancel(ByteTexts(bytes), x, ByteTexts(b.bytes), y);
    case Vector(coordinates) =>
      CoordinateTextsCancel(p, coordinates, b.coordinates);
      CoordinateTextsCancel(p, b.coordinates, coordinates);
      NumbersCancel(CoordinateTexts(p, coordinates), x, CoordinateTexts(p, b.coordinates), y);
    case List(items) => ItemsCancel(p, items, x, b.items, y);
    case Map(entries) => EntriesCancel(p, entries, x, b.entries, y);
  }

  lemma ShowStarts(p: Printers, v: Value, rest: string)
    ensures Show(p, v, rest) != "" && Show(p, v, rest)[0] == '{'
  {
  }

  lemma {:induction false} ItemsCancel(p: Printers, a: seq<Value>, x: string, b: seq<Value>, y: string)
    requires Faithful(p) && Items(p, a, x) == Items(p, b, y)
    ensures a == b && x == y
    decreases a, 1
  {
    assert a != [] ==> Items(p, a, x)[1] == '{' by {
      if a != [] { ShowStarts(p, a[0], MoreItems(p, a[1..], x)); }
    }
    assert b != [] ==> Items(p, b, y)[1] == '{' by {
      if b != [] { ShowStarts(p, b[0], MoreItems(p, b[1..], y)); }
    }
    assert a == [] ==> Items(p, a, x)[1] == ']';
    assert b == [] ==> Items(p, b, y)[1] == ']';
    if a == [] {
      PrefixCancels("[]", x, y);
    } else {
      PrefixCancels("[", Show(p, a[0], MoreItems(p, a[1..], x)), Show(p, b[0], MoreItems(p, b[1..], y)));
      ShowCancels(p, a[0], MoreItems(p, a[1..], x), b[0], MoreItems(p, b[1..], y));
      MoreItemsCancel(p, a[1..], x, b[1..], y);
      assert a == [a[0]] + a[1..] && b == [b[0]] + b[1..];
    }
  }

  lemma {:induction false} MoreItemsCancel(p: Printers, a: seq<Value>, x: string, b: seq<Value>, y: string)
    requires Faithful(p) && MoreItems(p, a, x) == MoreItems(p, b, y)
    ensures a == b && x == y
    decreases a, 0
  {
    assert MoreItems(p, a, x)[0] == MoreItems(p, b, y)[0];
    if a == [] {
      PrefixCancels("]", x, y);
    } else {
      PrefixCancels(",", Show(p, a[0], MoreItems(p, a[1..], x)), Show(p, b[0], MoreItems(p, b[1..], y)));
      ShowCancels(p, a[0], MoreItems(p, a[1..], x), b[0], MoreItems(p, b[1..], y));
      MoreItemsCancel(p, a[1..], x, b[1..], y);
      assert a == [a[0]] + a[1..] && b == [b[0]] + b[1..];
    }
  }

  /** One entry of a map and what follows it. */
  lemma EntryCancels(p: Printers, a: Entry, x: string, b: Entry, y: string)
    requires Faithful(p) && Quoted(a.key, ":" + Show(p, a.value, x)) == Quoted(b.key, ":" + Show(p, b.value, y))
    ensures a == b && x == y
    decreases a, 0
  {
    QuotedCancels(a.key, ":" + Show(p, a.value, x), b.key, ":" + Show(p, b.value, y));
    PrefixCancels(":", Show(p, a.value, x), Show(p, b.value, y));
    ShowCancels(p, a.value, x, b.value, y);
  }

  lemma {:induction false} EntriesCancel(p: Printers, a: seq<Entry>, x: string, b: seq<Entry>, y: string)
    requires Faithful(p) && Entries(p, a, x) == Entries(p, b, y)
    ensures a == b && x == y
    decreases a, 1
  {
    assert a != [] ==> Entries(p, a, x)[1] == '\"';
    assert b != [] ==> Entries(p, b, y)[1] == '\"';
    assert a == [] ==> Entries(p, a, x)[1] == '}';
    assert b == [] ==> Entries(p, b, y)[1] == '}';
    if a == [] {
      PrefixCancels("{}", x, y);
    } else {
      MoreEntriesStep(p, "{", a, x, b, y);
    }
  }

  lemma {:induction false} MoreEntriesCancel(p: Printers, a: seq<Entry>, x: string, b: seq<Entry>, y: string)
    requires Faithful(p) && MoreEntries(p, a, x) == MoreEntries(p, b, y)
    ensures a == b && x == y
    decreases a, 1
  {
    assert MoreEntries(p, a, x)[0] == MoreEntries(p, b, y)[0];
    if a == [] {
      PrefixCancels("}", x, y);
    } else {
      MoreEntriesStep(p, ",", a, x, b, y);
    }
  }

  lemma MoreEntriesStep(p: Printers, opening: string, a: seq<Entry>, x: string, b: seq<Entry>, y: string)
    requires Faithful(p) && a != [] && b != []
    requires opening + Quoted(a[0].key, ":" + Show(p, a[0].value, MoreEntries(p, a[1..], x))) ==
             opening + Quoted(b[0].key, ":" + Show(p, b[0].value, MoreEntries(p, b[1..], y)))
    ensures a == b && x == y
    decreases a, 0
  {
    PrefixCancels(opening,
                  Quoted(a[0].key, ":" + Show(p, a[0].value, MoreEntries(p, a[1..], x))),
                  Quoted(b[0].key, ":" + Show(p, b[0].value, MoreEntries(p, b[1..], y))));
    EntryCancels(p, a[0], MoreEntries(p, a[1..], x), b[0], MoreEntries(p, b[1..], y));
    MoreEntriesCancel(p, a[1..], x, b[1..], y);
    assert a == [a[0]] + a[1..] && b == [b[0]] + b[1..];
  }

  // ----- responses -----

  /** The strings of a list behind the first one, and the closing bracket. */
  function MoreNames(names: seq<string>, rest: string): string {
    if names == [] then "]" + rest else "," + Quoted(names[0], MoreNames(names[1..], rest))
  }

  function Names(names: seq<string>, rest: string): string {
    if names == [] then "[]" + rest else "[" + Quoted(names[0], MoreNames(names[1..], rest))
  }

  function MoreRows(p: Printers, rows: seq<seq<Value>>, rest: string): string {
    if rows == [] then "]" + rest else "," + Items(p, rows[0], MoreRows(p, rows[1..], rest))
  }

  function Rows(p: Printers, rows: seq<seq<Value>>, rest: string): string {
    if rows == [] then "[]" + rest else "[" + Items(p, rows[0], MoreRows(p, rows[1..], rest))
  }

  /** The complete encoding of a query output. */
  function Response(p: Printers, output: Output): string {
    "{\"status\":\"ok\",\"columns\":" + Names(output.columns, ",\"rows\":" + Rows(p, output.rows, "}"))
  }

  lemma {:induction false} MoreNamesCancel(a: seq<string>, x: string, b: seq<string>, y: string)
    requires MoreNames(a, x) == MoreNames(b, y)
    ensures a == b && x == y
    decreases |a|
  {
    assert MoreNames(a, x)[0] == MoreNames(b, y)[0];
    if a == [] {
      PrefixCancels("]", x, y);
    } else {
      PrefixCancels(",", Quoted(a[0], MoreNames(a[1..], x)), Quoted(b[0], MoreNames(b[1..], y)));
      QuotedCancels(a[0], MoreNames(a[1..], x), b[0], MoreNames(b[1..], y));
      MoreNamesCancel(a[1..], x, b[1..], y);
      assert a == [a[0]] + a[1..] && b == [b[0]] + b[1..];
    }
  }

  lemma NamesCancel(a: seq<string>, x: string, b: seq<string>, y: string)
    requires Names(a, x) == Names(b, y)
    ensures a == b && x == y
  {
    assert a == [] ==> Names(a, x)[1] == ']';
    assert b == [] ==> Names(b, y)[1] == ']';
    assert a != [] ==> Names(a, x)[1] == '\"';
    assert b != [] ==> Names(b, y)[1] == '\"';
    if a == [] {
      PrefixCancels("[]", x, y);
    } else {
      PrefixCancels("[", Quoted(a[0], MoreNames(a[1..], x)), Quoted(b[0], MoreNames(b[1..], y)));
      QuotedCancels(a[0], MoreNames(a[1..], x), b[0], MoreNames(b[1..], y));
      MoreNamesCancel(a[1..], x, b[1..], y);
      assert a == [a[0]] + a[1..] && b == [b[0]] + b[1..];
    }
  }

  lemma ItemsStart(p: Printers, items: seq<Value>, rest: string)
    ensures Items(p, items, rest) != "" && Items(p, items, rest)[0] == '['
  {
  }

  lemma {:induction false} MoreRowsCancel(p: Printers, a: seq<seq<Value>>, x: string, b: seq<seq<Value>>, y: string)
    requires Faithful(p) && MoreRows(p, a, x) == MoreRows(p, b, y)
    ensures a == b && x == y
    decreases |a|
  {
    assert MoreRows(p, a, x)[0] == MoreRows(p, b, y)[0];
    if a == [] {
      PrefixCancels("]", x, y);
    } else {
      PrefixCancels(",", Items(p, a[0], MoreRows(p, a[1..], x)), Items(p, b[0], MoreRows(p, b[1..], y)));
      ItemsCancel(p, a[0], MoreRows(p, a[1..], x), b[0], MoreRows(p, b[1..], y));
      MoreRowsCancel(p, a[1..], x, b[1..], y);
      assert a == [a[0]] + a[1..] && b == [b[0]] + b[1..];
    }
  }

  lemma RowsCancel(p: Printers, a: seq<seq<Value>>, x: string, b: seq<seq<Value>>, y: string)
    requires Faithful(p) && Rows(p, a, x) == Rows(p, b, y)
    ensures a == b && x == y
  {
    assert a == [] ==> Rows(p, a, x)[1] == ']';
    assert b == [] ==> Rows(p, b, y)[1] == ']';
    assert a != [] ==> Rows(p, a, x)[1] == '[' by {
      if a != [] { ItemsStart(p, a[0], MoreRows(p, a[1..], x)); }
    }
    assert b != [] ==> Rows(p, b, y)[1] == '[' by {
      if b != [] { ItemsStart(p, b[0], MoreRows(p, b[1..], y)); }
    }
    if a == [] {
      PrefixCancels("[]", x, y);
    } else {
      PrefixCancels("[", Items(p, a[0], MoreRows(p, a[1..], x)), Items(p, b[0], MoreRows(p, b[1..], y)));
      ItemsCancel(p, a[0], MoreRows(p, a[1..], x), b[0], MoreRows(p, b[1..], y));
      MoreRowsCancel(p, a[1..], x, b[1..], y);
      assert a == [a[0]] + a[1..] && b == [b[0]] + b[1..];
    }
  }

  /** A response determines the columns, the rows, and the type and value of every cell at every depth. */
  lemma ResponseDetermines(p: Printers, a: Output, b: Output)
    requires Faithful(p) && Response(p, a) == Response(p, b)
    ensures a == b
  {
    PrefixCancels("{\"status\":\"ok\",\"columns\":",
                  Names(a.columns, ",\"rows\":" + Rows(p, a.rows, "}")),
                  Names(b.columns, ",\"rows\":" + Rows(p, b.rows, "}")));
    NamesCancel(a.columns, ",\"rows\":" + Rows(p, a.rows, "}"), b.columns, ",\"rows\":" + Rows(p, b.rows, "}"));
    PrefixCancels(",\"rows\":", Rows(p, a.rows, "}"), Rows(p, b.rows, "}"));
    RowsCancel(p, a.rows, "}", b.rows, "}");
  }
}
