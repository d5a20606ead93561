/** Printing JSON values the way `JSON.stringify` does, and why no two values print alike. */
module JsonText {

  // ---------- JSON values without numbers, fields in a fixed order ----------

  datatype Field = Field(name: string, value: Json)

  datatype Json =
    | Text(text: string)
    | Flag(flag: bool)
    | List(items: seq<Json>)
    | Record(fields: seq<Field>)

  // ---------- printing ----------

  function HexDigit(n: int): char
    requires 0 <= n < 16
  {
    "0123456789abcdef"[n]
  }

  /** String escapes of section 7 of RFC 8259, in the short forms `JSON.stringify` chooses. */
  function EscapeChar(c: char): (code: string)
    ensures code != "" && code[0] != '"'
  {
    if c == '"' then "\\\""
    else if c == '\\' then "\\\\"
    else if c as int == 8 then "\\b"
    else if c == '\t' then "\\t"
    else if c == '\n' then "\\n"
    else if c as int == 12 then "\\f"
    else if c == '\r' then "\\r"
    else if c as int < 32 then "\\u00" + [HexDigit(c as int / 16), HexDigit(c as int % 16)]
    else [c]
  }

  /** The escaped characters and the closing quote, followed by `rest`. */
  function QuoteOnto(s: string, rest: string): string {
    if s == "" then ['"'] + rest else EscapeChar(s[0]) + QuoteOnto(s[1..], rest)
  }

  /** The text of `j` followed by `rest`. */
  function PrintOnto(j: Json, rest: string): string
    decreases j, 1
  {
    match j
    case Text(s) => ['"'] + QuoteOnto(s, rest)
    case Flag(b) => (if b then "true" else "false") + rest
    case List(items) =>
      ['['] + if items == [] then [']'] + rest else PrintOnto(items[0], ItemsOnto(items[1..], rest))
    case Record(fields) =>
      ['{'] + if fields == [] then ['}'] + rest else FieldOnto(fields[0], FieldsOnto(fields[1..], rest))
  }

  function FieldOnto(f: Field, rest: string): string
    decreases f, 2
  {
    ['"'] + QuoteOnto(f.name, [':'] + PrintOnto(f.value, rest))
  }

  function ItemsOnto(items: seq<Json>, rest: string): string
    decreases items, 0
  {
    if items == [] then [']'] + rest else [','] + PrintOnto(items[0], ItemsOnto(items[1..], rest))
  }

  function FieldsOnto(fields: seq<Field>, rest: string): string
    decreases fields, 0
  {
    if fields == [] then ['}'] + rest else [','] + FieldOnto(fields[0], FieldsOnto(fields[1..], rest))
  }

  function Print(j: Json): string {
    PrintOnto(j, "")
  }

  // ---------- reading ----------

  /** What a reader took from the start of a text, and the text behind it. */
  datatype Read<T> = Nothing | Got(value: T, rest: string)

  function HexValue(c: char): (n: int) {
    if '0' <= c <= '9' then c as int - '0' as int
    else if 'a' <= c <= 'f' then c as int - 'a' as int + 10
    else if 'A' <= c <= 'F' then c as int - 'A' as int + 10
    else -1
  }

  /** The character behind a backslash in the two-character escapes of section 7 of RFC 8259. */
  function Unescaped(c: char): (text: string) {
    match c
    case '"' => "\""
    case '\\' => "\\"
    case '/' => "/"
    case 'b' => [8 as char]
    case 'f' => [12 as char]
    case 'n' => "\n"
    case 'r' => "\r"
    case 't' => "\t"
    case _ => ""
  }

  /** Four hexadecimal digits of a character that is not half of a surrogate pair. */
  function FourDigits(s: string): (text: string) {
    if |s| < 4 || HexValue(s[0]) < 0 || HexValue(s[1]) < 0 || HexValue(s[2]) < 0 || HexValue(s[3]) < 0 then ""
    else
      var n := HexValue(s[0]) * 4096 + HexValue(s[1]) * 256 + HexValue(s[2]) * 16 + HexValue(s[3]);
      if 0 <= n < 0xD800 || 0xE000 <= n <= 0xFFFF then [n as char] else ""
  }

  /** The string whose opening quote was read, as section 7 of RFC 8259 has it. */
  function ReadString(s: string): (r: Read<string>)
    ensures r.Got? ==> |r.rest| < |s|
    decreases |s|
  {
    if s == "" then Nothing
    else if s[0] == '"' then Got("", s[1..])
    else if s[0] as int < 32 then Nothing
    else if s[0] != '\\' then Prepend([s[0]], ReadString(s[1..]))
    else if |s| > 1 && Unescaped(s[1]) != "" then Prepend(Unescaped(s[1]), ReadString(s[2..]))
    else if |s| >= 6 && s[1] == 'u' && FourDigits(s[2..6]) != "" then Prepend(FourDigits(s[2..6]), ReadString(s[6..]))
    else Nothing
  }

  function Prepend(text: string, r: Read<string>): (q: Read<string>)
    ensures q.Got? <==> r.Got?
    ensures q.Got? ==> q.rest == r.rest
  {
    if r.Got? then Got(text + r.value, r.rest) else Nothing
  }

  /** One value at the start of a text without whitespace between its parts. */
  function ReadValue(s: string): (r: Read<Json>)
    ensures r.Got? ==> |r.rest| < |s|
    decreases |s|, 0
  {
    if s == "" then Nothing
    else if s[0] == '"' then
      var text := ReadString(s[1..]);
      if text.Got? then Got(Text(text.value), text.rest) else Nothing
    else if "true" <= s then Got(Flag(true), s[4..])
    else if "false" <= s then Got(Flag(false), s[5..])
    else if s[0] == '[' then
      var items := if "[]" <= s then Got([], s[2..]) else ReadItems(s[1..]);
      if items.Got? then Got(List(items.value), items.rest) else Nothing
    else if s[0] == '{' then
      var fields := if "{}" <= s then Got([], s[2..]) else ReadFields(s[1..]);
      if fields.Got? then Got(Record(fields.value), fields.rest) else Nothing
    else Nothing
  }

  /** One or more values, each but the last followed by a comma, and the closing bracket. */
  function ReadItems(s: string): (r: Read<seq<Json>>)
    ensures r.Got? ==> |r.rest| < |s|
    decreases |s|, 1
  {
    var first := ReadValue(s);
    if first.Nothing? || first.rest == "" then Nothing
    else if first.rest[0] == ']' then Got([first.value], first.rest[1..])
    else if first.rest[0] == ',' then
      var more := ReadItems(first.rest[1..]);
      if more.Got? then Got([first.value] + more.value, more.rest) else Nothing
    else Nothing
  }

  function ReadFields(s: string): (r: Read<seq<Field>>)
    ensures r.Got? ==> |r.rest| < |s|
    decreases |s|, 1
  {
    var first := ReadField(s);
    if first.Nothing? || first.rest == "" then Nothing
    else if first.rest[0] == '}' then Got([first.value], first.rest[1..])
    else if first.rest[0] == ',' then
      var more := ReadFields(first.rest[1..]);
      if more.Got? then Got([first.value] + more.value, more.rest) else Nothing
    else Nothing
  }

  function ReadField(s: string): (r: Read<Field>)
    ensures r.Got? ==> |r.rest| < |s|
    decreases |s|, 0
  {
    if s == "" || s[0] != '"' then Nothing
    else
      var name := ReadString(s[1..]);
      if name.Nothing? || name.rest == "" || name.rest[0] != ':' then Nothing
      else
        var value := ReadValue(name.rest[1..]);
        if value.Got? then Got(Field(name.value, value.value), value.rest) else Nothing
  }

  // ---------- what is printed is read back ----------

  lemma ReadsEscape(c: char, rest: string)
    ensures ReadString(EscapeChar(c) + rest) == Prepend([c], ReadString(rest))
  {
    var code := EscapeChar(c);
    assert (code + rest)[|code|..] == rest;
    if |code| == 6 {
      ReadsDigits(c, rest);
    } else if |code| == 2 {
      ReadsShort(c, rest);
    }
  }

  lemma ReadsShort(c: char, rest: string)
    requires |EscapeChar(c)| == 2
    ensures ReadString(EscapeChar(c) + rest) == Prepend([c], ReadString(rest))
  {
    var s := EscapeChar(c) + rest;
    assert s[0] == '\\' && s[1] == EscapeChar(c)[1] && s[2..] == rest;
    assert Unescaped(s[1]) == [c];
  }

  lemma ReadsDigits(c: char, rest: string)
    requires |EscapeChar(c)| == 6
    ensures ReadString(EscapeChar(c) + rest) == Prepend([c], ReadString(rest))
  {
    var s := EscapeChar(c) + rest;
    assert s[0] == '\\' && s[1] == 'u' && s[6..] == rest;
    HexReadsBack(c as int / 16, c as int % 16);
    assert s[2..6] == ['0', '0', HexDigit(c as int / 16), HexDigit(c as int % 16)];
  }

  lemma HexReadsBack(high: int, low: int)
    requires 0 <= high < 2 && 0 <= low < 16
    ensures FourDigits(['0', '0', HexDigit(high), HexDigit(low)]) == [(high * 16 + low) as char]
  {
    assert HexValue(HexDigit(high)) == high && HexValue(HexDigit(low)) == low;
  }

  lemma {:induction false} ReadsString(s: string, rest: string)
    ensures ReadString(QuoteOnto(s, rest)) == Got(s, rest)
  {
    if s == "" {
      assert (['"'] + rest)[1..] == rest;
    } else {
      ReadsString(s[1..], rest);
      ReadsEscape(s[0], QuoteOnto(s[1..], rest));
      assert s == [s[0]] + s[1..];
    }
  }

  lemma Tail(c: char, rest: string)
    ensures ([c] + rest)[0] == c && ([c] + rest)[1..] == rest
  {
  }

  /** No value is printed with a closing bracket first. */
  lemma PrintHead(j: Json, rest: string)
    ensures PrintOnto(j, rest) != "" && PrintOnto(j, rest)[0] != ']'
  {
  }

  /** A printed value is read back, and the text behind it is left, whatever follows. */
  lemma {:induction false} ReadsBack(j: Json, rest: string)
    ensures ReadValue(PrintOnto(j, rest)) == Got(j, rest)
    decreases j, 1
  {
    match j
    case Text(s) =>
      Tail('"', QuoteOnto(s, rest));
      ReadsString(s, rest);
    case Flag(b) =>
      var word := if b then "true" else "false";
      assert (word + rest)[|word|..] == rest && (word + rest)[0] == word[0];
      assert word <= word + rest;
    case List(items) => ReadsList(items, rest);
    case Record(fields) => ReadsRecord(fields, rest);
  }

  lemma {:induction false} ReadsList(items: seq<Json>, rest: string)
    ensures ReadValue(PrintOnto(List(items), rest)) == Got(List(items), rest)
    decreases items, 3
  {
    var text := PrintOnto(List(items), rest);
    if items == [] {
      assert text == "[]" + rest;
      assert text[2..] == rest;
    } else {
      var behind := PrintOnto(items[0], ItemsOnto(items[1..], rest));
      PrintHead(items[0], ItemsOnto(items[1..], rest));
      Tail('[', behind);
      assert text[1] == behind[0];
      ReadsItems(items, rest);
    }
  }

  lemma {:induction false} ReadsItems(items: seq<Json>, rest: string)
    requires items != []
    ensures ReadItems(PrintOnto(items[0], ItemsOnto(items[1..], rest))) == Got(items, rest)
    decreases items, 2
  {
    ReadsBack(items[0], ItemsOnto(items[1..], rest));
    if items[1..] == [] {
      Tail(']', rest);
      assert items == [items[0]];
    } else {
      Tail(',', PrintOnto(items[1], ItemsOnto(items[2..], rest)));
      assert items[1..][1..] == items[2..];
      ReadsItems(items[1..], rest);
      assert items == [items[0]] + items[1..];
    }
  }

  lemma {:induction false} ReadsRecord(fields: seq<Field>, rest: string)
    ensures ReadValue(PrintOnto(Record(fields), rest)) == Got(Record(fields), rest)
    decreases fields, 3
  {
    var text := PrintOnto(Record(fields), rest);
    if fields == [] {
      assert text == "{}" + rest;
      assert text[2..] == rest;
    } else {
      var behind := FieldOnto(fields[0], FieldsOnto(fields[1..], rest));
      Tail('{', behind);
      assert text[1] == behind[0] == '"';
      ReadsFields(fields, rest);
    }
  }

  lemma {:induction false} ReadsField(f: Field, rest: string)
    ensures ReadField(FieldOnto(f, rest)) == Got(f, rest)
    decreases f, 2
  {
    var value := PrintOnto(f.value, rest);
    Tail('"', QuoteOnto(f.name, [':'] + value));
    ReadsString(f.name, [':'] + value);
    Tail(':', value);
    ReadsBack(f.value, rest);
  }

  lemma {:induction false} ReadsFields(fields: seq<Field>, rest: string)
    requires fields != []
    ensures ReadFields(FieldOnto(fields[0], FieldsOnto(fields[1..], rest))) == Got(fields, rest)
    decreases fields, 2
  {
    ReadsField(fields[0], FieldsOnto(fields[1..], rest));
    if fields[1..] == [] {
      Tail('}', rest);
      assert fields == [fields[0]];
    } else {
      Tail(',', FieldOnto(fields[1], FieldsOnto(fields[2..], rest)));
      assert fields[1..][1..] == fields[2..];
      ReadsFields(fields[1..], rest);
      assert fields == [fields[0]] + fields[1..];
    }
  }

  // ---------- printing is injective ----------

  /** No printed value is a proper beginning of another, whatever follows. */
  lemma PrintPrefixFree(a: Json, x: string, b: Json, y: string)
    requires PrintOnto(a, x) == PrintOnto(b, y)
    ensures a == b && x == y
  {
    ReadsBack(a, x);
    ReadsBack(b, y);
  }

  /** Two values print the same text exactly when they are the same value. */
  lemma PrintInjective(a: Json, b: Json)
    ensures Print(a) == Print(b) <==> a == b
  {
    if Print(a) == Print(b) { PrintPrefixFree(a, "", b, ""); }
  }
}
