/** Python's json.dumps for a list of strings, with its defaults: ", " between
    items and ensure_ascii, so every character outside ' '..'~' is written as
    an escape. */
module Json {
  import opened Strings

  const HexDigits: string := "0123456789abcdef"

  /** Four lower-case hexadecimal digits. */
  function Hex4(n: int): (s: string)
    requires 0 <= n < 0x1_0000
    ensures |s| == 4 && forall k :: 0 <= k < 4 ==> s[k] in HexDigits
  {
    [HexDigits[n / 0x1000], HexDigits[n / 0x100 % 16], HexDigits[n / 16 % 16], HexDigits[n % 16]]
  }

  /** `\uXXXX`, or a surrogate pair for characters beyond the basic plane. */
  function UnicodeEscape(c: char): string {
    var v := c as int;
    if v < 0x1_0000 then "\\u" + Hex4(v)
    else
      var w := v - 0x1_0000;
      "\\u" + Hex4(0xd800 + w / 0x400) + "\\u" + Hex4(0xdc00 + w % 0x400)
  }

  /** How one character of a string appears between the quotes. */
  function EscapeChar(c: char): (r: string)
    ensures ',' in r <==> c == ','
  {
    if c == '"' then "\\\""
    else if c == '\\' then "\\\\"
    else if c == '\n' then "\\n"
    else if c == '\r' then "\\r"
    else if c == '\t' then "\\t"
    else if c == '\U{8}' then "\\b"
    else if c == '\U{c}' then "\\f"
    else if ' ' <= c <= '~' then [c]
    else UnicodeEscape(c)
  }

  function Escaped(s: string): string {
    if s == [] then "" else EscapeChar(s[0]) + Escaped(s[1..])
  }

  /** A JSON string literal. */
  function JsonString(s: string): (r: string)
    ensures |r| >= 2 && r[0] == '"' && r[|r| - 1] == '"'
  {
    "\"" + Escaped(s) + "\""
  }

  /** Each item as a JSON string literal. */
  function Quoted(items: seq<string>): (r: seq<string>)
    ensures |r| == |items| && forall k :: 0 <= k < |items| ==> r[k] == JsonString(items[k])
  {
    seq(|items|, k requires 0 <= k < |items| => JsonString(items[k]))
  }

  /** `json.dumps(list_of_strings)` */
  function JsonDumps(items: seq<string>): (r: string)
    ensures |r| >= 2 && r[0] == '[' && r[|r| - 1] == ']'
  {
    "[" + Join(", ", Quoted(items)) + "]"
  }

  /** Escaping never introduces a comma: the text has one exactly where the input has one. */
  lemma {:induction false} EscapedComma(s: string)
    ensures ',' in Escaped(s) <==> ',' in s
  {
    if s != [] {
      EscapedComma(s[1..]);
      assert s == [s[0]] + s[1..];
    }
  }

  /** Escaping keeps the number of commas. */
  lemma {:induction false} EscapedCommaCount(s: string)
    ensures Occurrences(Escaped(s), ',') == Occurrences(s, ',')
  {
    if s != [] {
      EscapedCommaCount(s[1..]);
      OccurrencesAppend(EscapeChar(s[0]), Escaped(s[1..]), ',');
      if s[0] == ',' {
        assert EscapeChar(s[0]) == ",";
      }
    }
  }

  /** Quoting keeps the number of commas of every item. */
  lemma {:induction false} QuotedCommaCount(items: seq<string>)
    ensures SumOccurrences(Quoted(items), ',') == SumOccurrences(items, ',')
  {
    if items != [] {
      QuotedCommaCount(items[1..]);
      assert Quoted(items)[1..] == Quoted(items[1..]);
      EscapedCommaCount(items[0]);
      OccurrencesAppend("\"", Escaped(items[0]), ',');
      OccurrencesAppend("\"" + Escaped(items[0]), "\"", ',');
    }
  }

  /** The commas of `json.dumps(items)`: the items' own, plus one between neighbours. */
  lemma DumpsCommaCount(items: seq<string>)
    ensures Occurrences(JsonDumps(items), ',') == if items == [] then 0 else SumOccurrences(items, ',') + |items| - 1
  {
    var body := Join(", ", Quoted(items));
    OccurrencesAppend("[", body, ',');
    OccurrencesAppend("[" + body, "]", ',');
    if items != [] {
      JoinOccurrences(", ", Quoted(items), ',');
      QuotedCommaCount(items);
      assert Occurrences(", ", ',') == 1;
      assert (|Quoted(items)| - 1) * 1 == |items| - 1;
    }
  }
}
