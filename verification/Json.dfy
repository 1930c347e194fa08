/**
  A reader for JSON texts without insignificant whitespace, after the grammar of
  RFC 8259 (sections 3 to 7). Numbers are kept as they are written.
 */
module Json {
  import opened Options

  datatype Json =
    | JNull
    | JBool(flag: bool)
    | JNumber(digits: string)
    | JString(text: string)
    | JArray(items: seq<Json>)
    | JObject(fields: seq<Field>)
  datatype Field = Field(name: string, value: Json)

  /** What was read from the front of a text, and the rest of it. */
  datatype Read<+T> = Fail | Read(value: T, rest: string)

  // ----- strings -----

  function HexValue(c: char): (v: int)
    ensures -1 <= v < 16
  {
    if '0' <= c <= '9' then c as int - '0' as int
    else if 'a' <= c <= 'f' then c as int - 'a' as int + 10
    else if 'A' <= c <= 'F' then c as int - 'A' as int + 10
    else -1
  }

  /** Four hexadecimal digits of one code point; surrogate pairs are not read. */
  function ReadHex(text: string): (r: Read<char>)
    ensures r.Read? ==> |r.rest| < |text|
  {
    if |text| < 4 then Fail
    else
      var a, b, c, d := HexValue(text[0]), HexValue(text[1]), HexValue(text[2]), HexValue(text[3]);
      if a < 0 || b < 0 || c < 0 || d < 0 then Fail
      else
        var code := ((a * 16 + b) * 16 + c) * 16 + d;
        if 0xD800 <= code < 0xE000 then Fail else Read(code as char, text[4..])
  }

  /** What follows a backslash. */
  function ReadEscape(text: string): (r: Read<char>)
    ensures r.Read? ==> |r.rest| < |text|
  {
    if text == "" then Fail
    else if text[0] == '\"' || text[0] == '\\' || text[0] == '/' then Read(text[0], text[1..])
    else if text[0] == 'b' then Read(8 as char, text[1..])
    else if text[0] == 'f' then Read(12 as char, text[1..])
    else if text[0] == 'n' then Read(10 as char, text[1..])
    else if text[0] == 'r' then Read(13 as char, text[1..])
    else if text[0] == 't' then Read(9 as char, text[1..])
    else if text[0] == 'u' then ReadHex(text[1..])
    else Fail
  }

  function Prepend(c: char, r: Read<string>): Read<string> {
    if r.Fail? then Fail else Read([c] + r.value, r.rest)
  }

  /** The characters of a string and its closing quote. */
  function ReadChars(text: string): (r: Read<string>)
    ensures r.Read? ==> |r.rest| < |text|
    decreases |text|
  {
    if text == "" then Fail
    else if text[0] == '\"' then Read("", text[1..])
    else if text[0] == '\\' then
      var c := ReadEscape(text[1..]);
      if c.Fail? then Fail else Prepend(c.value, ReadChars(c.rest))
    else if text[0] as int < 32 then Fail
    else Prepend(text[0], ReadChars(text[1..]))
  }

  function ReadString(text: string): (r: Read<string>)
    ensures r.Read? ==> |r.rest| < |text|
  {
    if text != "" && text[0] == '\"' then ReadChars(text[1..]) else Fail
  }

  // ----- values -----

  predicate IsNumberChar(c: char) {
    '0' <= c <= '9' || c == '-' || c == '+' || c == '.' || c == 'e' || c == 'E'
  }

  /** The length of the number at the front. */
  function NumberLength(text: string): (n: nat)
    ensures n <= |text|
  {
    if text == "" || !IsNumberChar(text[0]) then 0 else 1 + NumberLength(text[1..])
  }

  function ReadNumber(text: string): (r: Read<Json>)
    ensures r.Read? ==> |r.rest| < |text|
  {
    var n := NumberLength(text);
    if n == 0 then Fail else Read(JNumber(text[..n]), text[n..])
  }

  function ReadLiteral(literal: string, value: Json, text: string): (r: Read<Json>)
    requires literal != ""
    ensures r.Read? ==> |r.rest| < |text|
  {
    if literal <= text then Read(value, text[|literal|..]) else Fail
  }

  function ReadValue(text: string): (r: Read<Json>)
    ensures r.Read? ==> |r.rest| < |text|
    decreases |text|, 0
  {
    if text == "" then Fail
    else if text[0] == '{' then ReadObject(text[1..])
    else if text[0] == '[' then ReadArray(text[1..])
    else if text[0] == '\"' then
      var s := ReadString(text);
      if s.Fail? then Fail else Read(JString(s.value), s.rest)
    else if text[0] == 'n' then ReadLiteral("null", JNull, text)
    else if text[0] == 't' then ReadLiteral("true", JBool(true), text)
    else if text[0] == 'f' then ReadLiteral("false", JBool(false), text)
    else ReadNumber(text)
  }

  /** An array behind its opening bracket. */
  function ReadArray(text: string): (r: Read<Json>)
    ensures r.Read? ==> |r.rest| < |text|
    decreases |text|, 2
  {
    if text != "" && text[0] == ']' then Read(JArray([]), text[1..])
    else
      var items := ReadItems(text);
      if items.Fail? then Fail else Read(JArray(items.value), items.rest)
  }

  /** One item or more, and the closing bracket. */
  function ReadItems(text: string): (r: Read<seq<Json>>)
    ensures r.Read? ==> |r.rest| < |text|
    decreases |text|, 1
  {
    var item := ReadValue(text);
    if item.Fail? || item.rest == "" then Fail
    else if item.rest[0] == ']' then Read([item.value], item.rest[1..])
    else if item.rest[0] != ',' then Fail
    else
      var more := ReadItems(item.rest[1..]);
      if more.Fail? then Fail else Read([item.value] + more.value, more.rest)
  }

  /** An object behind its opening brace. */
  function ReadObject(text: string): (r: Read<Json>)
    ensures r.Read? ==> |r.rest| < |text|
    decreases |text|, 2
  {
    if text != "" && text[0] == '}' then Read(JObject([]), text[1..])
    else
      var fields := ReadFields(text);
      if fields.Fail? then Fail else Read(JObject(fields.value), fields.rest)
  }

  function ReadField(text: string): (r: Read<Field>)
    ensures r.Read? ==> |r.rest| < |text|
    decreases |text|, 0
  {
    var name := ReadString(text);
    if name.Fail? || name.rest == "" || name.rest[0] != ':' then Fail
    else
      var value := ReadValue(name.rest[1..]);
      if value.Fail? then Fail else Read(Field(name.value, value.value), value.rest)
  }

  /** One field or more, and the closing brace. */
  function ReadFields(text: string): (r: Read<seq<Field>>)
    ensures r.Read? ==> |r.rest| < |text|
    decreases |text|, 1
  {
    var field := ReadField(text);
    if field.Fail? || field.rest == "" then Fail
    else if field.rest[0] == '}' then Read([field.value], field.rest[1..])
    else if field.rest[0] != ',' then Fail
    else
      var more := ReadFields(field.rest[1..]);
      if more.Fail? then Fail else Read([field.value] + more.value, more.rest)
  }

  /** A whole text that is one value. */
  function Parse(text: string): Read<Json> {
    var r := ReadValue(text);
    if r.Read? && r.rest == "" then r else Fail
  }

  /** The value of the first field with a name. */
  function Lookup(fields: seq<Field>, name: string): Option<Json> {
    if fields == [] then None
    else if fields[0].name == name then Some(fields[0].value)
    else Lookup(fields[1..], name)
  }

  lemma {:induction false} LookupAt(fields: seq<Field>, name: string, i: nat)
    requires i < |fields| && fields[i].name == name && forall j :: 0 <= j < i ==> fields[j].name != name
    ensures Lookup(fields, name) == Some(fields[i].value)
  {
    if i > 0 {
      assert fields[1..][i - 1] == fields[i] && forall j :: 0 <= j < i - 1 ==> fields[1..][j] == fields[j + 1];
      LookupAt(fields[1..], name, i - 1);
    }
  }

  lemma {:induction false} NotFound(fields: seq<Field>, name: string)
    requires forall i :: 0 <= i < |fields| ==> fields[i].name != name
    ensures Lookup(fields, name) == None
  {
    if fields != [] {
      assert forall i :: 0 <= i < |fields| - 1 ==> fields[1..][i] == fields[i + 1];
      NotFound(fields[1..], name);
    }
  }

  // ----- putting reads together -----

  lemma ReadsArray(text: string, items: seq<Json>, rest: string)
    requires text != "" && text[0] != ']' && ReadItems(text) == Read(items, rest)
    ensures ReadValue("[" + text) == Read(JArray(items), rest)
  {
    assert ("[" + text)[1..] == text;
  }

  lemma ReadsEmptyArray(rest: string)
    ensures ReadValue("[]" + rest) == Read(JArray([]), rest)
  {
    assert ("[]" + rest)[1..] == "]" + rest && ("]" + rest)[1..] == rest;
  }

  lemma ReadsLastItem(text: string, item: Json, rest: string)
    requires ReadValue(text) == Read(item, "]" + rest)
    ensures ReadItems(text) == Read([item], rest)
  {
    assert ("]" + rest)[1..] == rest;
  }

  lemma ReadsItem(text: string, item: Json, next: string, items: seq<Json>, rest: string)
    requires ReadValue(text) == Read(item, "," + next) && ReadItems(next) == Read(items, rest)
    ensures ReadItems(text) == Read([item] + items, rest)
  {
    assert ("," + next)[1..] == next;
  }

  lemma ReadsObject(text: string, fields: seq<Field>, rest: string)
    requires text != "" && text[0] != '}' && ReadFields(text) == Read(fields, rest)
    ensures ReadValue("{" + text) == Read(JObject(fields), rest)
  {
    assert ("{" + text)[1..] == text;
  }

  lemma ReadsEmptyObject(rest: string)
    ensures ReadValue("{}" + rest) == Read(JObject([]), rest)
  {
    assert ("{}" + rest)[1..] == "}" + rest && ("}" + rest)[1..] == rest;
  }

  lemma ReadsField(text: string, name: string, inner: string, value: Json, rest: string)
    requires ReadString(text) == Read(name, ":" + inner) && ReadValue(inner) == Read(value, rest)
    ensures ReadField(text) == Read(Field(name, value), rest)
  {
    assert (":" + inner)[1..] == inner;
  }

  lemma ReadsLastField(text: string, field: Field, rest: string)
    requires ReadField(text) == Read(field, "}" + rest)
    ensures ReadFields(text) == Read([field], rest)
  {
    assert ("}" + rest)[1..] == rest;
  }

  lemma ReadsNextField(text: string, field: Field, next: string, fields: seq<Field>, rest: string)
    requires ReadField(text) == Read(field, "," + next) && ReadFields(next) == Read(fields, rest)
    ensures ReadFields(text) == Read([field] + fields, rest)
  {
    assert ("," + next)[1..] == next;
  }

  lemma {:induction false} NumberEndsAt(digits: string, rest: string)
    requires forall i :: 0 <= i < |digits| ==> IsNumberChar(digits[i])
    requires rest == "" || !IsNumberChar(rest[0])
    ensures NumberLength(digits + rest) == |digits|
  {
    if digits == "" {
      assert digits + rest == rest;
    } else {
      assert (digits + rest)[1..] == digits[1..] + rest;
      NumberEndsAt(digits[1..], rest);
    }
  }

  lemma ReadsNumber(digits: string, rest: string)
    requires digits != "" && forall i :: 0 <= i < |digits| ==> IsNumberChar(digits[i])
    requires rest == "" || !IsNumberChar(rest[0])
    ensures ReadValue(digits + rest) == Read(JNumber(digits), rest)
  {
    NumberEndsAt(digits, rest);
    assert (digits + rest)[0] == digits[0];
    assert (digits + rest)[..|digits|] == digits && (digits + rest)[|digits|..] == rest;
  }

  lemma ReadsLiteral(literal: string, value: Json, rest: string)
    requires (literal == "null" && value == JNull) || (literal == "true" && value == JBool(true))
             || (literal == "false" && value == JBool(false))
    ensures ReadValue(literal + rest) == Read(value, rest)
  {
    assert (literal + rest)[0] == literal[0];
    assert (literal + rest)[|literal|..] == rest;
  }
}
