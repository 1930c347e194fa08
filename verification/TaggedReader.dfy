/**
  Reading tagged values back: a JSON text is parsed by the grammar, and the parsed
  value is understood by the table of type tags. What the playground prints is
  read back as the value it printed.
 */
module TaggedReader {
  import opened Options
  import opened Json
  import V = TaggedValues

  /** Readers for the texts of scalars and of vector coordinates. */
  datatype Readers = Readers(scalar: (V.Kind, string) -> Option<int>, coordinate: string -> Option<int>)

  /** The readers understand what the printers print, and coordinates are printed as JSON numbers. */
  ghost predicate Understands(q: Readers, p: V.Printers) {
    && (forall kind, x :: q.scalar(kind, p.scalar(kind, x)) == Some(x))
    && (forall x :: q.coordinate(p.coordinate(x)) == Some(x))
    && (forall x :: IsNumber(p.coordinate(x)))
  }

  /** The printers that some readers understand. */
  ghost predicate Readable(p: V.Printers) {
    && (forall kind, x, y :: p.scalar(kind, x) == p.scalar(kind, y) ==> x == y)
    && (forall x, y :: p.coordinate(x) == p.coordinate(y) ==> x == y)
    && (forall x :: IsNumber(p.coordinate(x)))
  }

  ghost function Inverse(f: int -> string): string -> Option<int> {
    (text: string) => if x :| f(x) == text then Some(x) else None
  }

  lemma InverseReads(f: int -> string, x: int)
    requires forall x, y :: f(x) == f(y) ==> x == y
    ensures Inverse(f)(f(x)) == Some(x)
  {
  }

  ghost predicate IsNumber(text: string) {
    text != "" && forall i :: 0 <= i < |text| ==> IsNumberChar(text[i])
  }

  lemma ScalarsRead(p: V.Printers, kind: V.Kind, x: int)
    requires Readable(p)
    ensures Inverse((y: int) => p.scalar(kind, y))(p.scalar(kind, x)) == Some(x)
  {
    InverseReads((y: int) => p.scalar(kind, y), x);
  }

  lemma ReadableIsUnderstood(p: V.Printers) returns (q: Readers)
    requires Readable(p)
    ensures Understands(q, p)
  {
    q := Readers((kind: V.Kind, text: string) => Inverse((y: int) => p.scalar(kind, y))(text), Inverse(p.coordinate));
    forall kind, x ensures q.scalar(kind, p.scalar(kind, x)) == Some(x) {
      ScalarsRead(p, kind, x);
    }
    forall x ensures q.coordinate(p.coordinate(x)) == Some(x) {
      InverseReads(p.coordinate, x);
    }
  }

  lemma UnderstoodIsReadable(q: Readers, p: V.Printers)
    requires Understands(q, p)
    ensures Readable(p)
  {
    forall kind, x, y | p.scalar(kind, x) == p.scalar(kind, y) ensures x == y {
      assert q.scalar(kind, p.scalar(kind, x)) == Some(x);
    }
    forall x, y | p.coordinate(x) == p.coordinate(y) ensures x == y {
      assert q.coordinate(p.coordinate(x)) == Some(x);
    }
  }

  /** What the round trips assume: readers exist exactly for printers that tell different values apart. */
  lemma UnderstoodIff(p: V.Printers)
    ensures (exists q :: Understands(q, p)) <==> Readable(p)
  {
    if Readable(p) {
      var q := ReadableIsUnderstood(p);
    } else {
      forall q ensures !Understands(q, p) {
        if Understands(q, p) {
          UnderstoodIsReadable(q, p);
        }
      }
    }
  }

  // ----- the table of types -----

  function KindOf(tag: string): Option<V.Kind> {
    if tag == "int64" then Some(V.Int64)
    else if tag == "float64" then Some(V.Float64)
    else if tag == "decimal" then Some(V.Decimal128)
    else if tag == "uuid" then Some(V.Uuid)
    else if tag == "date" then Some(V.Date)
    else if tag == "localtime" then Some(V.LocalTime)
    else if tag == "localdatetime" then Some(V.LocalDateTime)
    else if tag == "datetime" then Some(V.DateTime)
    else if tag == "duration" then Some(V.Duration)
    else None
  }

  /** A decimal number without sign. */
  function DecimalValue(digits: string): Option<nat> {
    if digits == "" then None
    else
      var n := |digits| - 1;
      var c := digits[n];
      if !('0' <= c <= '9') then None
      else
        var last := c as int - '0' as int;
        if n == 0 then Some(last)
        else
          var front := DecimalValue(digits[..n]);
          if front.None? then None else Some(10 * front.value + last)
  }

  function Bytes(items: seq<Json>): Option<seq<nat>> {
    if items == [] then Some([])
    else
      var rest := Bytes(items[1..]);
      if !items[0].JNumber? || rest.None? then None
      else
        var first := DecimalValue(items[0].digits);
        if first.None? then None else Some([first.value] + rest.value)
  }

  function Coordinates(q: Readers, items: seq<Json>): Option<seq<int>> {
    if items == [] then Some([])
    else
      var rest := Coordinates(q, items[1..]);
      if !items[0].JNumber? || rest.None? then None
      else
        var first := q.coordinate(items[0].digits);
        if first.None? then None else Some([first.value] + rest.value)
  }

  /** A value is an object of a type tag and a payload. */
  function ValueOf(q: Readers, json: Json): Option<V.Value>
    decreases json, 1
  {
    if json.JObject? && |json.fields| == 2 && json.fields[0].name == "type" && json.fields[1].name == "value"
       && json.fields[0].value.JString?
    then Typed(q, json.fields[0].value.text, json.fields[1].value)
    else None
  }

  function Typed(q: Readers, tag: string, payload: Json): Option<V.Value>
    decreases payload, 0
  {
    if tag == "null" then if payload.JNull? then Some(V.Null) else None
    else if tag == "bool" then if payload.JBool? then Some(V.Bool(payload.flag)) else None
    else if tag == "string" then if payload.JString? then Some(V.Text(payload.text)) else None
    else if tag == "binary" then
      if payload.JArray? && Bytes(payload.items).Some? then Some(V.Binary(Bytes(payload.items).value)) else None
    else if tag == "vector" then
      if payload.JArray? && Coordinates(q, payload.items).Some?
      then Some(V.Vector(Coordinates(q, payload.items).value)) else None
    else if tag == "list" then
      if payload.JArray? && ValuesOf(q, payload.items).Some?
      then Some(V.List(ValuesOf(q, payload.items).value)) else None
    else if tag == "map" then
      if payload.JObject? && EntriesOf(q, payload.fields).Some?
      then Some(V.Map(EntriesOf(q, payload.fields).value)) else None
    else if KindOf(tag).Some? && payload.JString? && q.scalar(KindOf(tag).value, payload.text).Some?
    then Some(V.Scalar(KindOf(tag).value, q.scalar(KindOf(tag).value, payload.text).value))
    else None
  }

  function ValuesOf(q: Readers, items: seq<Json>): Option<seq<V.Value>>
    decreases items, 0
  {
    if items == [] then Some([])
    else
      var first, rest := ValueOf(q, items[0]), ValuesOf(q, items[1..]);
      if first.None? || rest.None? then None else Some([first.value] + rest.value)
  }

  function EntriesOf(q: Readers, fields: seq<Field>): Option<seq<V.Entry>>
    decreases fields, 0
  {
    if fields == [] then Some([])
    else
      var first, rest := ValueOf(q, fields[0].value), EntriesOf(q, fields[1..]);
      if first.None? || rest.None? then None else Some([V.Entry(fields[0].name, first.value)] + rest.value)
  }

  // ----- strings read back -----

  lemma ReadsShortEscape(c: char, rest: string)
    requires V.IsShort(c)
    ensures ReadEscape([V.Letter(c)] + rest) == Read(c, rest)
  {
    assert ([V.Letter(c)] + rest)[1..] == rest;
  }

  lemma HexDigitIsRead(d: nat)
    requires d < 16
    ensures HexValue(V.HexDigit(d)) == d
  {
  }

  lemma ReadsHexEscape(c: char, rest: string)
    requires c as int < 32
    ensures ReadEscape(['u', '0', '0', V.HexDigit(c as int / 16), V.HexDigit(c as int % 16)] + rest) == Read(c, rest)
  {
    var a, b := V.HexDigit(c as int / 16), V.HexDigit(c as int % 16);
    var text := ['u', '0', '0', a, b] + rest;
    HexDigitIsRead(c as int / 16);
    HexDigitIsRead(c as int % 16);
    assert text[1..] == ['0', '0', a, b] + rest;
    assert text[1..][4..] == rest;
  }

  lemma ReadsEscaped(c: char, rest: string)
    ensures ReadChars(V.Escape(c) + rest) == Prepend(c, ReadChars(rest))
  {
    var text := V.Escape(c) + rest;
    if V.IsShort(c) {
      assert text[1..] == [V.Letter(c)] + rest;
      ReadsShortEscape(c, rest);
    } else if c as int < 32 {
      assert text[1..] == ['u', '0', '0', V.HexDigit(c as int / 16), V.HexDigit(c as int % 16)] + rest;
      ReadsHexEscape(c, rest);
    } else {
      assert text[1..] == rest;
    }
  }

  lemma {:induction false} ReadsChars(text: string, rest: string)
    ensures ReadChars(V.Escaped(text, "\"" + rest)) == Read(text, rest)
    decreases |text|
  {
    if text == "" {
      assert ("\"" + rest)[1..] == rest;
    } else {
      ReadsChars(text[1..], rest);
      ReadsEscaped(text[0], V.Escaped(text[1..], "\"" + rest));
      assert text == [text[0]] + text[1..];
    }
  }

  /** A quoted string is read back, whatever follows it. */
  lemma ReadsQuoted(text: string, rest: string)
    ensures ReadString(V.Quoted(text, rest)) == Read(text, rest)
    ensures ReadValue(V.Quoted(text, rest)) == Read(JString(text), rest)
  {
    var quoted := V.Quoted(text, rest);
    assert quoted[0] == '\"' && quoted[1..] == V.Escaped(text, "\"" + rest);
    ReadsChars(text, rest);
  }

  /** A named value in an object. */
  lemma ReadsNamed(name: string, inner: string, value: Json, rest: string)
    requires ReadValue(inner) == Read(value, rest)
    ensures ReadField(V.Quoted(name, ":" + inner)) == Read(Field(name, value), rest)
    ensures V.Quoted(name, ":" + inner) != "" && V.Quoted(name, ":" + inner)[0] == '\"'
  {
    ReadsQuoted(name, ":" + inner);
    ReadsField(V.Quoted(name, ":" + inner), name, inner, value, rest);
  }

  // ----- numbers read back -----

  ghost predicate AreNumbers(texts: seq<string>) {
    forall i :: 0 <= i < |texts| ==> IsNumber(texts[i])
  }

  ghost function NumberItems(texts: seq<string>): seq<Json> {
    if texts == [] then [] else [JNumber(texts[0])] + NumberItems(texts[1..])
  }

  lemma NumbersGrow(first: string, texts: seq<string>)
    requires IsNumber(first) && AreNumbers(texts)
    ensures AreNumbers([first] + texts)
    ensures NumberItems([first] + texts) == [JNumber(first)] + NumberItems(texts)
  {
    assert ([first] + texts)[1..] == texts;
  }

  lemma {:induction false} ReadsMoreNumbers(first: string, texts: seq<string>, rest: string)
    requires IsNumber(first) && AreNumbers(texts)
    ensures ReadItems(first + V.MoreNumbers(texts, rest)) == Read([JNumber(first)] + NumberItems(texts), rest)
    decreases |texts|
  {
    ReadsNumber(first, V.MoreNumbers(texts, rest));
    if texts == [] {
      ReadsLastItem(first + V.MoreNumbers(texts, rest), JNumber(first), rest);
      assert [JNumber(first)] + NumberItems(texts) == [JNumber(first)];
    } else {
      ReadsMoreNumbers(texts[0], texts[1..], rest);
      ReadsItem(first + V.MoreNumbers(texts, rest), JNumber(first),
                texts[0] + V.MoreNumbers(texts[1..], rest), NumberItems(texts), rest);
    }
  }

  lemma ReadsNumbers(texts: seq<string>, rest: string)
    requires AreNumbers(texts)
    ensures ReadValue(V.Numbers(texts, rest)) == Read(JArray(NumberItems(texts)), rest)
  {
    if texts == [] {
      ReadsEmptyArray(rest);
    } else {
      var text := texts[0] + V.MoreNumbers(texts[1..], rest);
      ReadsMoreNumbers(texts[0], texts[1..], rest);
      assert text[0] == texts[0][0] && IsNumberChar(text[0]);
      ReadsArray(text, NumberItems(texts), rest);
    }
  }

  lemma {:induction false} DecimalIsRead(n: nat)
    ensures DecimalValue(V.DecimalText(n)) == Some(n) && IsNumber(V.DecimalText(n))
  {
    if n >= 10 {
      DecimalIsRead(n / 10);
      var text := V.DecimalText(n);
      assert text[..|text| - 1] == V.DecimalText(n / 10);
    }
  }

  /** Decimal numbers with a sign. */
  function Signed(x: int): string {
    if x < 0 then "-" + V.DecimalText(-x) else V.DecimalText(x)
  }

  lemma SignedIsInjective(x: int, y: int)
    requires Signed(x) == Signed(y)
    ensures x == y
  {
    assert x >= 0 ==> Signed(x)[0] != '-';
    assert y >= 0 ==> Signed(y)[0] != '-';
    if x < 0 && y < 0 {
      assert Signed(x)[1..] == V.DecimalText(-x) && Signed(y)[1..] == V.DecimalText(-y);
      V.DecimalTextIsInjective(-x, -y);
    } else if x >= 0 && y >= 0 {
      V.DecimalTextIsInjective(x, y);
    }
  }

  /** Signed decimal numbers are such a printer. */
  lemma DecimalsAreReadable()
    ensures Readable(V.Printers((_, x) => Signed(x), x => Signed(x)))
  {
    forall x, y | Signed(x) == Signed(y) ensures x == y {
      SignedIsInjective(x, y);
    }
    forall x: int ensures IsNumber(Signed(x)) {
    }
  }

  lemma ByteTextsAre(bytes: seq<nat>)
    requires bytes != []
    ensures V.ByteTexts(bytes) == [V.DecimalText(bytes[0])] + V.ByteTexts(bytes[1..])
  {
  }

  lemma BytesGrow(first: Json, value: nat, items: seq<Json>, bytes: seq<nat>)
    requires first.JNumber? && DecimalValue(first.digits) == Some(value) && Bytes(items) == Some(bytes)
    ensures Bytes([first] + items) == Some([value] + bytes)
  {
    assert ([first] + items)[1..] == items;
  }

  lemma {:induction false} BytesAreRead(bytes: seq<nat>)
    ensures AreNumbers(V.ByteTexts(bytes)) && Bytes(NumberItems(V.ByteTexts(bytes))) == Some(bytes)
  {
    if bytes != [] {
      var first, texts := V.DecimalText(bytes[0]), V.ByteTexts(bytes[1..]);
      DecimalIsRead(bytes[0]);
      BytesAreRead(bytes[1..]);
      ByteTextsAre(bytes);
      NumbersGrow(first, texts);
      BytesGrow(JNumber(first), bytes[0], NumberItems(texts), bytes[1..]);
      assert bytes == [bytes[0]] + bytes[1..];
    }
  }

  lemma CoordinateIsNumber(q: Readers, p: V.Printers, x: int)
    requires Understands(q, p)
    ensures IsNumber(p.coordinate(x)) && q.coordinate(p.coordinate(x)) == Some(x)
  {
  }

  lemma {:induction false} CoordinatesAreRead(q: Readers, p: V.Printers, coordinates: seq<int>)
    requires Understands(q, p)
    ensures AreNumbers(V.CoordinateTexts(p, coordinates))
    ensures Coordinates(q, NumberItems(V.CoordinateTexts(p, coordinates))) == Some(coordinates)
  {
    if coordinates != [] {
      CoordinateIsNumber(q, p, coordinates[0]);
      CoordinatesAreRead(q, p, coordinates[1..]);
      var first, texts := p.coordinate(coordinates[0]), V.CoordinateTexts(p, coordinates[1..]);
      assert V.CoordinateTexts(p, coordinates) == [first] + texts;
      NumbersGrow(first, texts);
      assert ([JNumber(first)] + NumberItems(texts))[1..] == NumberItems(texts);
      assert coordinates == [coordinates[0]] + coordinates[1..];
    }
  }

  // ----- the parsed form of a value -----

  ghost function Parsed(p: V.Printers, v: V.Value): Json
    decreases v, 1
  {
    JObject([Field("type", JString(V.Tag(v))), Field("value", ParsedPayload(p, v))])
  }

  ghost function ParsedPayload(p: V.Printers, v: V.Value): Json
    decreases v, 0
  {
    match v
    case Null => JNull
    case Bool(flag) => JBool(flag)
    case Scalar(kind, payload) => JString(p.scalar(kind, payload))
    case Text(text) => JString(text)
    case Binary(bytes) => JArray(NumberItems(V.ByteTexts(bytes)))
    case Vector(coordinates) => JArray(NumberItems(V.CoordinateTexts(p, coordinates)))
    case List(items) => JArray(ParsedItems(p, items))
    case Map(entries) => JObject(ParsedEntries(p, entries))
  }

  ghost function ParsedItems(p: V.Printers, items: seq<V.Value>): seq<Json>
    decreases items, 0
  {
    if items == [] then [] else [Parsed(p, items[0])] + ParsedItems(p, items[1..])
  }

  ghost function ParsedEntries(p: V.Printers, entries: seq<V.Entry>): seq<Field>
    decreases entries, 0
  {
    if entries == [] then []
    else [Field(entries[0].key, Parsed(p, entries[0].value))] + ParsedEntries(p, entries[1..])
  }

  // ----- values are parsed -----

  ghost predicate IsPlain(text: string) {
    forall i :: 0 <= i < |text| ==> !V.IsShort(text[i]) && text[i] as int >= 32
  }

  lemma {:induction false} PlainIsNotEscaped(text: string, rest: string)
    requires IsPlain(text)
    ensures V.Escaped(text, rest) == text + rest
  {
    if text == "" {
      assert text + rest == rest;
    } else {
      PlainIsNotEscaped(text[1..], rest);
      assert text + rest == [text[0]] + (text[1..] + rest);
    }
  }

  lemma PlainQuoted(text: string, rest: string)
    requires IsPlain(text)
    ensures V.Quoted(text, rest) == "\"" + (text + ("\"" + rest))
  {
    PlainIsNotEscaped(text, "\"" + rest);
  }

  lemma KindTagIsPlain(kind: V.Kind)
    ensures IsPlain(V.KindTag(kind))
  {
  }

  lemma TagIsPlain(v: V.Value)
    ensures IsPlain(V.Tag(v))
  {
    if v.Scalar? {
      KindTagIsPlain(v.kind);
    }
  }

  lemma OpeningText(rest: string)
    ensures V.OPEN + rest == "{" + ("\"" + ("type" + ("\"" + (":" + ("\"" + rest)))))
  {
  }

  lemma MiddleText(rest: string)
    ensures V.MIDDLE + rest == "\"" + ("," + ("\"" + ("value" + ("\"" + (":" + rest)))))
  {
  }

  /** The frame of a value is an object of two fields. */
  lemma FrameText(tag: string, payload: string)
    requires IsPlain(tag)
    ensures V.OPEN + (tag + (V.MIDDLE + payload)) ==
            "{" + V.Quoted("type", ":" + V.Quoted(tag, "," + V.Quoted("value", ":" + payload)))
  {
    var second := V.Quoted("value", ":" + payload);
    var value := V.Quoted(tag, "," + second);
    MiddleText(payload);
    OpeningText(tag + (V.MIDDLE + payload));
    PlainQuoted("value", ":" + payload);
    PlainQuoted(tag, "," + second);
    PlainQuoted("type", ":" + value);
  }

  lemma ReadsFrame(tag: string, text: string, payload: Json, rest: string)
    requires ReadValue(text) == Read(payload, "}" + rest)
    ensures ReadValue("{" + V.Quoted("type", ":" + V.Quoted(tag, "," + V.Quoted("value", ":" + text)))) ==
            Read(JObject([Field("type", JString(tag)), Field("value", payload)]), rest)
  {
    var second := V.Quoted("value", ":" + text);
    var first := V.Quoted("type", ":" + V.Quoted(tag, "," + second));
    ReadsNamed("value", text, payload, "}" + rest);
    ReadsLastField(second, Field("value", payload), rest);
    ReadsQuoted(tag, "," + second);
    ReadsNamed("type", V.Quoted(tag, "," + second), JString(tag), "," + second);
    ReadsNextField(first, Field("type", JString(tag)), second, [Field("value", payload)], rest);
    var fields := [Field("type", JString(tag)), Field("value", payload)];
    assert [Field("type", JString(tag))] + [Field("value", payload)] == fields;
    ReadsObject(first, fields, rest);
  }

  lemma {:induction false} ReadsShow(q: Readers, p: V.Printers, v: V.Value, rest: string)
    requires Understands(q, p)
    ensures ReadValue(V.Show(p, v, rest)) == Read(Parsed(p, v), rest)
    decreases v, 1
  {
    ReadsPayload(q, p, v, "}" + rest);
    TagIsPlain(v);
    FrameText(V.Tag(v), V.Payload(p, v, "}" + rest));
    ReadsFrame(V.Tag(v), V.Payload(p, v, "}" + rest), ParsedPayload(p, v), rest);
  }

  lemma {:induction false} ReadsPayload(q: Readers, p: V.Printers, v: V.Value, rest: string)
    requires Understands(q, p)
    ensures ReadValue(V.Payload(p, v, rest)) == Read(ParsedPayload(p, v), rest)
    decreases v, 0
  {
    match v
    case Null => ReadsLiteral("null", JNull, rest);
    case Bool(flag) => ReadsLiteral(if flag then "true" else "false", JBool(flag), rest);
    case Scalar(kind, payload) => ReadsQuoted(p.scalar(kind, payload), rest);
    case Text(text) => ReadsQuoted(text, rest);
    case Binary(bytes) =>
      BytesAreRead(bytes);
      ReadsNumbers(V.ByteTexts(bytes), rest);
    case Vector(coordinates) =>
      CoordinatesAreRead(q, p, coordinates);
      ReadsNumbers(V.CoordinateTexts(p, coordinates), rest);
    case List(items) => ReadsList(q, p, items, rest);
    case Map(entries) => ReadsMap(q, p, entries, rest);
  }

  lemma ReadsList(q: Readers, p: V.Printers, items: seq<V.Value>, rest: string)
    requires Understands(q, p)
    ensures ReadValue(V.Items(p, items, rest)) == Read(JArray(ParsedItems(p, items)), rest)
    decreases items, 3
  {
    if items == [] {
      ReadsEmptyArray(rest);
    } else {
      var text := V.Show(p, items[0], V.MoreItems(p, items[1..], rest));
      V.ShowStarts(p, items[0], V.MoreItems(p, items[1..], rest));
      ReadsItemsFrom(q, p, items, rest);
      ReadsArray(text, ParsedItems(p, items), rest);
    }
  }

  lemma {:induction false} ReadsItemsFrom(q: Readers, p: V.Printers, items: seq<V.Value>, rest: string)
    requires Understands(q, p) && items != []
    ensures ReadItems(V.Show(p, items[0], V.MoreItems(p, items[1..], rest))) == Read(ParsedItems(p, items), rest)
    decreases items, 2
  {
    var text := V.Show(p, items[0], V.MoreItems(p, items[1..], rest));
    ReadsShow(q, p, items[0], V.MoreItems(p, items[1..], rest));
    if |items| == 1 {
      ReadsLastItem(text, Parsed(p, items[0]), rest);
      assert ParsedItems(p, items) == [Parsed(p, items[0])];
    } else {
      var more := items[1..];
      ReadsItemsFrom(q, p, more, rest);
      ReadsItem(text, Parsed(p, items[0]), V.Show(p, more[0], V.MoreItems(p, more[1..], rest)),
                ParsedItems(p, more), rest);
    }
  }

  ghost function EntryText(p: V.Printers, entries: seq<V.Entry>, rest: string): string
    requires entries != []
  {
    V.Quoted(entries[0].key, ":" + V.Show(p, entries[0].value, V.MoreEntries(p, entries[1..], rest)))
  }

  lemma ReadsMap(q: Readers, p: V.Printers, entries: seq<V.Entry>, rest: string)
    requires Understands(q, p)
    ensures ReadValue(V.Entries(p, entries, rest)) == Read(JObject(ParsedEntries(p, entries)), rest)
    decreases entries, 3
  {
    if entries == [] {
      ReadsEmptyObject(rest);
    } else {
      ReadsEntriesFrom(q, p, entries, rest);
      ReadsObject(EntryText(p, entries, rest), ParsedEntries(p, entries), rest);
    }
  }

  lemma {:induction false} ReadsEntriesFrom(q: Readers, p: V.Printers, entries: seq<V.Entry>, rest: string)
    requires Understands(q, p) && entries != []
    ensures ReadFields(EntryText(p, entries, rest)) == Read(ParsedEntries(p, entries), rest)
    ensures EntryText(p, entries, rest) != "" && EntryText(p, entries, rest)[0] == '\"'
    decreases entries, 2
  {
    var field := Field(entries[0].key, Parsed(p, entries[0].value));
    var tail := V.MoreEntries(p, entries[1..], rest);
    ReadsShow(q, p, entries[0].value, tail);
    ReadsNamed(entries[0].key, V.Show(p, entries[0].value, tail), Parsed(p, entries[0].value), tail);
    if |entries| == 1 {
      ReadsLastField(EntryText(p, entries, rest), field, rest);
      assert ParsedEntries(p, entries) == [field];
    } else {
      var more := entries[1..];
      ReadsEntriesFrom(q, p, more, rest);
      ReadsNextField(EntryText(p, entries, rest), field, EntryText(p, more, rest), ParsedEntries(p, more), rest);
    }
  }

  // ----- values are understood -----

  lemma KindIsRead(kind: V.Kind)
    ensures KindOf(V.KindTag(kind)) == Some(kind)
    ensures V.KindTag(kind) !in ["null", "bool", "string", "binary", "vector", "list", "map"]
  {
  }

  lemma ScalarUnderstood(q: Readers, p: V.Printers, kind: V.Kind, payload: int)
    requires Understands(q, p)
    ensures Typed(q, V.KindTag(kind), JString(p.scalar(kind, payload))) == Some(V.Scalar(kind, payload))
  {
    KindIsRead(kind);
  }

  lemma {:induction false} Understood(q: Readers, p: V.Printers, v: V.Value)
    requires Understands(q, p)
    ensures ValueOf(q, Parsed(p, v)) == Some(v)
    decreases v, 1
  {
    PayloadUnderstood(q, p, v);
  }

  lemma {:induction false} PayloadUnderstood(q: Readers, p: V.Printers, v: V.Value)
    requires Understands(q, p)
    ensures Typed(q, V.Tag(v), ParsedPayload(p, v)) == Some(v)
    decreases v, 0
  {
    match v
    case Scalar(kind, payload) => ScalarUnderstood(q, p, kind, payload);
    case Binary(bytes) => BytesAreRead(bytes);
    case Vector(coordinates) => CoordinatesAreRead(q, p, coordinates);
    case List(items) => ItemsUnderstood(q, p, items);
    case Map(entries) => EntriesUnderstood(q, p, entries);
    case _ =>
  }

  lemma {:induction false} ItemsUnderstood(q: Readers, p: V.Printers, items: seq<V.Value>)
    requires Understands(q, p)
    ensures ValuesOf(q, ParsedItems(p, items)) == Some(items)
    decreases items, 0
  {
    if items != [] {
      Understood(q, p, items[0]);
      ItemsUnderstood(q, p, items[1..]);
      assert ParsedItems(p, items)[1..] == ParsedItems(p, items[1..]);
      assert items == [items[0]] + items[1..];
    }
  }

  lemma {:induction false} EntriesUnderstood(q: Readers, p: V.Printers, entries: seq<V.Entry>)
    requires Understands(q, p)
    ensures EntriesOf(q, ParsedEntries(p, entries)) == Some(entries)
    decreases entries, 0
  {
    if entries != [] {
      Understood(q, p, entries[0].value);
      EntriesUnderstood(q, p, entries[1..]);
      assert ParsedEntries(p, entries)[1..] == ParsedEntries(p, entries[1..]);
      assert entries == [entries[0]] + entries[1..];
    }
  }

  /** The round trip: whatever follows it, the text of a value is parsed up to its end and understood as that value. */
  lemma ValueRoundTrip(q: Readers, p: V.Printers, v: V.Value, rest: string)
    requires Understands(q, p)
    ensures var r := ReadValue(V.Show(p, v, rest)); r.Read? && r.rest == rest && ValueOf(q, r.value) == Some(v)
  {
    ReadsShow(q, p, v, rest);
    Understood(q, p, v);
  }

  // ----- whole outputs -----

  function NamesOf(items: seq<Json>): Option<seq<string>> {
    if items == [] then Some([])
    else
      var rest := NamesOf(items[1..]);
      if !items[0].JString? || rest.None? then None else Some([items[0].text] + rest.value)
  }

  function RowsOf(q: Readers, items: seq<Json>): Option<seq<seq<V.Value>>> {
    if items == [] then Some([])
    else if !items[0].JArray? then None
    else
      var first, rest := ValuesOf(q, items[0].items), RowsOf(q, items[1..]);
      if first.None? || rest.None? then None else Some([first.value] + rest.value)
  }

  /** The output in an answer that says it is ok. */
  function OutputOf(q: Readers, fields: seq<Field>): Option<V.Output> {
    var status, columns, rows := Lookup(fields, "status"), Lookup(fields, "columns"), Lookup(fields, "rows");
    if status == Some(JString("ok")) && columns.Some? && columns.value.JArray? && rows.Some? && rows.value.JArray? then
      var names, values := NamesOf(columns.value.items), RowsOf(q, rows.value.items);
      if names.None? || values.None? then None else Some(V.Output(names.value, values.value))
    else None
  }

  ghost function NameItems(names: seq<string>): seq<Json> {
    if names == [] then [] else [JString(names[0])] + NameItems(names[1..])
  }

  ghost function RowItems(p: V.Printers, rows: seq<seq<V.Value>>): seq<Json> {
    if rows == [] then [] else [JArray(ParsedItems(p, rows[0]))] + RowItems(p, rows[1..])
  }

  lemma {:induction false} NamesUnderstood(names: seq<string>)
    ensures NamesOf(NameItems(names)) == Some(names)
  {
    if names != [] {
      NamesUnderstood(names[1..]);
      assert NameItems(names)[1..] == NameItems(names[1..]);
      assert names == [names[0]] + names[1..];
    }
  }

  lemma {:induction false} RowsUnderstood(q: Readers, p: V.Printers, rows: seq<seq<V.Value>>)
    requires Understands(q, p)
    ensures RowsOf(q, RowItems(p, rows)) == Some(rows)
  {
    if rows != [] {
      ItemsUnderstood(q, p, rows[0]);
      RowsUnderstood(q, p, rows[1..]);
      assert RowItems(p, rows)[1..] == RowItems(p, rows[1..]);
      assert rows == [rows[0]] + rows[1..];
    }
  }

  lemma {:induction false} ReadsNamesFrom(names: seq<string>, rest: string)
    requires names != []
    ensures ReadItems(V.Quoted(names[0], V.MoreNames(names[1..], rest))) == Read(NameItems(names), rest)
    decreases |names|
  {
    var text := V.Quoted(names[0], V.MoreNames(names[1..], rest));
    ReadsQuoted(names[0], V.MoreNames(names[1..], rest));
    if |names| == 1 {
      ReadsLastItem(text, JString(names[0]), rest);
      assert NameItems(names) == [JString(names[0])];
    } else {
      var more := names[1..];
      ReadsNamesFrom(more, rest);
      ReadsItem(text, JString(names[0]), V.Quoted(more[0], V.MoreNames(more[1..], rest)), NameItems(more), rest);
    }
  }

  lemma ReadsNames(names: seq<string>, rest: string)
    ensures ReadValue(V.Names(names, rest)) == Read(JArray(NameItems(names)), rest)
  {
    if names == [] {
      ReadsEmptyArray(rest);
    } else {
      ReadsNamesFrom(names, rest);
      ReadsArray(V.Quoted(names[0], V.MoreNames(names[1..], rest)), NameItems(names), rest);
    }
  }

  lemma {:induction false} ReadsRowsFrom(q: Readers, p: V.Printers, rows: seq<seq<V.Value>>, rest: string)
    requires Understands(q, p) && rows != []
    ensures ReadItems(V.Items(p, rows[0], V.MoreRows(p, rows[1..], rest))) == Read(RowItems(p, rows), rest)
    decreases |rows|
  {
    var text := V.Items(p, rows[0], V.MoreRows(p, rows[1..], rest));
    var first := JArray(ParsedItems(p, rows[0]));
    ReadsList(q, p, rows[0], V.MoreRows(p, rows[1..], rest));
    if |rows| == 1 {
      ReadsLastItem(text, first, rest);
      assert RowItems(p, rows) == [first];
    } else {
      var more := rows[1..];
      ReadsRowsFrom(q, p, more, rest);
      ReadsItem(text, first, V.Items(p, more[0], V.MoreRows(p, more[1..], rest)), RowItems(p, more), rest);
    }
  }

  lemma ReadsRows(q: Readers, p: V.Printers, rows: seq<seq<V.Value>>, rest: string)
    requires Understands(q, p)
    ensures ReadValue(V.Rows(p, rows, rest)) == Read(JArray(RowItems(p, rows)), rest)
  {
    if rows == [] {
      ReadsEmptyArray(rest);
    } else {
      ReadsRowsFrom(q, p, rows, rest);
      ReadsArray(V.Items(p, rows[0], V.MoreRows(p, rows[1..], rest)), RowItems(p, rows), rest);
    }
  }

  lemma Regroup(a: string, b: string, c: string)
    ensures (a + b) + c == a + (b + c)
  {
  }

  lemma PlainName(name: string, rest: string)
    requires IsPlain(name)
    ensures ("\"" + name + "\":") + rest == V.Quoted(name, ":" + rest)
  {
    PlainQuoted(name, ":" + rest);
  }

  lemma OkText(rest: string)
    ensures "{\"status\":\"ok\"," + rest ==
            "{" + ("\"" + ("status" + ("\"" + (":" + ("\"" + ("ok" + ("\"" + ("," + rest))))))))
  {
  }

  lemma ColumnsText(rest: string)
    ensures "{\"status\":\"ok\",\"columns\":" + rest == "{\"status\":\"ok\"," + ("\"columns\":" + rest)
  {
    assert "{\"status\":\"ok\",\"columns\":" == "{\"status\":\"ok\"," + "\"columns\":";
    Regroup("{\"status\":\"ok\",", "\"columns\":", rest);
  }

  lemma StatusFrame(rest: string)
    ensures "{" + ("\"" + ("status" + ("\"" + (":" + ("\"" + ("ok" + ("\"" + ("," + rest)))))))) ==
            "{" + V.Quoted("status", ":" + V.Quoted("ok", "," + rest))
  {
    PlainQuoted("ok", "," + rest);
    PlainQuoted("status", ":" + V.Quoted("ok", "," + rest));
  }

  lemma StatusText(rest: string)
    ensures "{\"status\":\"ok\",\"columns\":" + rest ==
            "{" + V.Quoted("status", ":" + V.Quoted("ok", "," + V.Quoted("columns", ":" + rest)))
  {
    ColumnsText(rest);
    OkText("\"columns\":" + rest);
    PlainName("columns", rest);
    StatusFrame(V.Quoted("columns", ":" + rest));
  }

  lemma RowsText(rest: string)
    ensures ",\"rows\":" + rest == "," + V.Quoted("rows", ":" + rest)
  {
    PlainQuoted("rows", ":" + rest);
  }

  ghost function ParsedResponse(p: V.Printers, output: V.Output): seq<Field> {
    [Field("status", JString("ok")), Field("columns", JArray(NameItems(output.columns))),
     Field("rows", JArray(RowItems(p, output.rows)))]
  }

  lemma ReadsThreeFields(a: Field, b: Field, c: Field, x: string, y: string, z: string)
    requires ReadField(x) == Read(a, "," + y) && ReadField(y) == Read(b, "," + z) && ReadField(z) == Read(c, "}")
    requires x != "" && x[0] == '\"'
    ensures Parse("{" + x) == Read(JObject([a, b, c]), "")
  {
    assert "}" == "}" + "";
    ReadsLastField(z, c, "");
    ReadsNextField(y, b, z, [c], "");
    ReadsNextField(x, a, y, [b] + [c], "");
    assert [a] + ([b] + [c]) == [a, b, c];
    ReadsObject(x, [a, b, c], "");
  }

  lemma ReadsResponse(q: Readers, p: V.Printers, output: V.Output)
    requires Understands(q, p)
    ensures Parse(V.Response(p, output)) == Read(JObject(ParsedResponse(p, output)), "")
  {
    var rows := V.Rows(p, output.rows, "}");
    var z := V.Quoted("rows", ":" + rows);
    RowsText(rows);
    ReadsRows(q, p, output.rows, "}");
    ReadsNamed("rows", rows, JArray(RowItems(p, output.rows)), "}");
    var names := V.Names(output.columns, "," + z);
    var y := V.Quoted("columns", ":" + names);
    ReadsNames(output.columns, "," + z);
    ReadsNamed("columns", names, JArray(NameItems(output.columns)), "," + z);
    var x := V.Quoted("status", ":" + V.Quoted("ok", "," + y));
    StatusText(names);
    ReadsQuoted("ok", "," + y);
    ReadsNamed("status", V.Quoted("ok", "," + y), JString("ok"), "," + y);
    var f := ParsedResponse(p, output);
    ReadsThreeFields(f[0], f[1], f[2], x, y, z);
  }

  /** The round trip of a whole output: parsed, an answer says it is ok and holds the columns and rows printed. */
  lemma OutputRoundTrip(q: Readers, p: V.Printers, output: V.Output)
    requires Understands(q, p)
    ensures var r := Parse(V.Response(p, output));
            r.Read? && r.value.JObject? && OutputOf(q, r.value.fields) == Some(output)
  {
    ReadsResponse(q, p, output);
    NamesUnderstood(output.columns);
    RowsUnderstood(q, p, output.rows);
    var fields := ParsedResponse(p, output);
    LookupAt(fields, "columns", 1);
    LookupAt(fields, "rows", 2);
  }
}
