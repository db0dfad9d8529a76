/** The text form of one history record: `JSON.stringify` applied to a
    `{ timestamp, sql }` object (packages/main/src/index.ts:15-17), and the
    `JSON.parse` that `history.list` applies to each line, for that shape. */
module HistoryJson {
  import opened Wrappers
  import opened Ipc
  import JsText

  /** Lower-case hexadecimal digit, as in `\u00XX` escapes. */
  function HexDigit(n: nat): (c: char)
    requires n < 16
    ensures HexValue(c) == Some(n)
  {
    if n < 10 then ('0' as int + n) as char else ('a' as int + n - 10) as char
  }

  /** Value of a hexadecimal digit of either case, as JSON accepts. */
  function HexValue(c: char): Option<nat> {
    if '0' <= c <= '9' then Some(c as int - '0' as int)
    else if 'a' <= c <= 'f' then Some(c as int - 'a' as int + 10)
    else if 'A' <= c <= 'F' then Some(c as int - 'A' as int + 10)
    else None
  }

  /** Value of four hexadecimal digits. */
  function Hex4(s: string): (r: Option<nat>)
    requires |s| == 4
    ensures r.Some? ==> r.value < 0x1_0000
  {
    match (HexValue(s[0]), HexValue(s[1]), HexValue(s[2]), HexValue(s[3]))
    case (Some(a), Some(b), Some(c), Some(d)) =>
      if a < 16 && b < 16 && c < 16 && d < 16 then Some(((a * 16 + b) * 16 + c) * 16 + d) else None
    case _ => None
  }

  /** How `JSON.stringify` writes one character inside a string literal:
      the seven short escapes, `\u00XX` for the other control characters,
      every other character as itself. */
  function EscapeChar(c: char): (r: string)
    ensures forall i :: 0 <= i < |r| ==> ' ' <= r[i]
    ensures |r| > 0 && r[0] != '"'
  {
    if c == '"' then "\\\""
    else if c == '\\' then "\\\\"
    else if c == '\U{0008}' then "\\b"
    else if c == '\t' then "\\t"
    else if c == '\n' then "\\n"
    else if c == '\U{000C}' then "\\f"
    else if c == '\r' then "\\r"
    else if c < ' ' then "\\u00" + [HexDigit(c as int / 16), HexDigit(c as int % 16)]
    else [c]
  }

  /** The body of a JSON string literal for `s`: no control characters survive. */
  function Escape(s: string): (r: string)
    ensures forall i :: 0 <= i < |r| ==> ' ' <= r[i]
    decreases |s|
  {
    if s == [] then "" else EscapeChar(s[0]) + Escape(s[1..])
  }

  /** What `JSON.stringify` writes before the timestamp's escaped text, and
      between the two escaped texts. */
  const Opening: string := "{\"timestamp\":\""
  const Separator: string := ",\"sql\":\""

  /** `JSON.stringify({ timestamp, sql })`: keys in declaration order, no
      spaces. The line starts with `{`, ends with `}` and holds no control
      character, so in particular no newline. */
  function Stringify(e: HistoryEntry): (line: string)
    ensures |line| >= 2 && line[0] == '{' && line[|line| - 1] == '}'
    ensures forall i :: 0 <= i < |line| ==> ' ' <= line[i]
    ensures '\n' !in line
  {
    Opening + Escape(e.timestamp) + "\"" + Separator + Escape(e.sql) + "\"}"
  }

  /** Reads the escape sequence after a backslash: the character it stands
      for and how many characters it takes. A `\u` escape naming a UTF-16
      surrogate is refused (see README). */
  function ReadEscape(s: string): (r: Option<(char, nat)>)
    ensures r.Some? ==> 1 <= r.value.1 <= |s|
  {
    if s == [] then None
    else if s[0] == '"' then Some(('"', 1))
    else if s[0] == '\\' then Some(('\\', 1))
    else if s[0] == '/' then Some(('/', 1))
    else if s[0] == 'b' then Some(('\U{0008}', 1))
    else if s[0] == 'f' then Some(('\U{000C}', 1))
    else if s[0] == 'n' then Some(('\n', 1))
    else if s[0] == 'r' then Some(('\r', 1))
    else if s[0] == 't' then Some(('\t', 1))
    else if s[0] == 'u' && |s| >= 5 then
      match Hex4(s[1..5])
      case Some(v) => if 0xD800 <= v < 0xE000 then None else Some((v as char, 5))
      case None => None
    else None
  }

  /** Reads the rest of a JSON string literal whose opening quote has been
      consumed: the decoded text and what follows the closing quote. A raw
      control character is an error, as in JSON. */
  function Unescape(s: string): (r: Option<(string, string)>)
    ensures r.Some? ==> |r.value.1| < |s|
    decreases |s|
  {
    if s == [] then None
    else if s[0] == '"' then Some(("", s[1..]))
    else if s[0] == '\\' then
      match ReadEscape(s[1..])
      case None => None
      case Some((c, n)) =>
        match Unescape(s[1 + n..])
        case None => None
        case Some((t, rest)) => Some(([c] + t, rest))
    else if s[0] < ' ' then None
    else
      match Unescape(s[1..])
      case None => None
      case Some((t, rest)) => Some(([s[0]] + t, rest))
  }

  /** `JSON.parse(line)` for a history line written by `Stringify`; any other
      text is a parse error. */
  function Parse(line: string): Option<HistoryEntry> {
    if !(Opening <= line) then None
    else
      match Unescape(line[|Opening|..])
      case None => None
      case Some((timestamp, afterTimestamp)) =>
        if !(Separator <= afterTimestamp) then None
        else
          match Unescape(afterTimestamp[|Separator|..])
          case None => None
          case Some((sql, afterSql)) =>
            if afterSql == "}" then Some(HistoryEntry(timestamp, sql)) else None
  }

  /** Decoding one escaped character and then the rest is decoding the rest
      with that character in front. */
  lemma UnescapeChar(c: char, t: string)
    ensures Unescape(EscapeChar(c) + t) ==
      match Unescape(t)
      case None => None
      case Some((x, rest)) => Some(([c] + x, rest))
  {
    if c == '"' || c == '\\' || c == '\U{0008}' || c == '\t' || c == '\n' || c == '\U{000C}' || c == '\r' {
      UnescapeShort(c, t);
    } else if c < ' ' {
      UnescapeControl(c, t);
    } else {
      assert (EscapeChar(c) + t)[1..] == t;
    }
  }

  /** The seven two-character escapes decode to their character. */
  lemma UnescapeShort(c: char, t: string)
    requires c == '"' || c == '\\' || c == '\U{0008}' || c == '\t' || c == '\n' || c == '\U{000C}' || c == '\r'
    ensures var s := EscapeChar(c) + t;
      |s| >= 2 && s[0] == '\\' && ReadEscape(s[1..]) == Some((c, 1)) && s[2..] == t
  {
    var s := EscapeChar(c) + t;
    assert s[1..] == [s[1]] + t;
    assert s[2..] == t;
  }

  /** The other control characters are written `\u00XX` and decode back. */
  lemma UnescapeControl(c: char, t: string)
    requires c < ' ' && c != '\U{0008}' && c != '\t' && c != '\n' && c != '\U{000C}' && c != '\r'
    ensures var s := EscapeChar(c) + t;
      |s| >= 6 && s[0] == '\\' && ReadEscape(s[1..]) == Some((c, 5)) && s[6..] == t
  {
    var s := EscapeChar(c) + t;
    var hi, lo := HexDigit(c as int / 16), HexDigit(c as int % 16);
    assert EscapeChar(c) == ['\\', 'u', '0', '0', hi, lo];
    assert s[1..] == ['u', '0', '0', hi, lo] + t;
    assert s[1..][1..5] == ['0', '0', hi, lo];
    assert Hex4(['0', '0', hi, lo]) == Some(c as int);
    assert s[6..] == t;
  }

  /** Decoding an escaped text followed by a closing quote gives the text and
      what follows the quote. */
  lemma {:induction false} UnescapeEscape(s: string, rest: string)
    ensures Unescape(Escape(s) + "\"" + rest) == Some((s, rest))
    decreases |s|
  {
    if s == [] {
      assert Escape(s) + "\"" + rest == "\"" + rest;
      assert ("\"" + rest)[1..] == rest;
    } else {
      var tail := Escape(s[1..]) + "\"" + rest;
      assert Escape(s) + "\"" + rest == EscapeChar(s[0]) + tail by {
        assert Escape(s) == EscapeChar(s[0]) + Escape(s[1..]);
      }
      UnescapeEscape(s[1..], rest);
      UnescapeChar(s[0], tail);
      assert [s[0]] + s[1..] == s;
    }
  }

  /** The two decoding steps `Parse` takes, stated as premises. */
  lemma ParseFields(line: string, timestamp: string, tail: string, sql: string)
    requires Opening <= line && Unescape(line[|Opening|..]) == Some((timestamp, tail))
    requires Separator <= tail && Unescape(tail[|Separator|..]) == Some((sql, "}"))
    ensures Parse(line) == Some(HistoryEntry(timestamp, sql))
  {
  }

  /** After the opening, a stringified record decodes to its timestamp,
      leaving what follows the timestamp's closing quote. */
  lemma ReadTimestamp(timestamp: string, tail: string)
    ensures var line := Opening + Escape(timestamp) + "\"" + tail;
      Opening <= line && Unescape(line[|Opening|..]) == Some((timestamp, tail))
  {
    var line := Opening + Escape(timestamp) + "\"" + tail;
    assert line[|Opening|..] == Escape(timestamp) + "\"" + tail;
    UnescapeEscape(timestamp, tail);
  }

  /** After the separator, the rest of a stringified record decodes to its
      statement, leaving the closing brace. */
  lemma ReadSql(sql: string)
    ensures var tail := Separator + Escape(sql) + "\"}";
      Separator <= tail && Unescape(tail[|Separator|..]) == Some((sql, "}"))
  {
    var tail := Separator + Escape(sql) + "\"}";
    assert tail[|Separator|..] == Escape(sql) + "\"" + "}";
    UnescapeEscape(sql, "}");
  }

  /** Parsing a stringified record gives the record back. */
  lemma ParseStringify(e: HistoryEntry)
    ensures Parse(Stringify(e)) == Some(e)
  {
    var tail := Separator + Escape(e.sql) + "\"}";
    assert Stringify(e) == Opening + Escape(e.timestamp) + "\"" + tail;
    ReadTimestamp(e.timestamp, tail);
    ReadSql(e.sql);
    ParseFields(Stringify(e), e.timestamp, tail, e.sql);
  }
}
