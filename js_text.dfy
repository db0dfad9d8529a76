/** The JavaScript string operations the history code relies on:
    `trimEnd`, `trim`, `split('\n')` and `join('\n')`. */
module JsText {

  /** The code points ECMAScript's `trim` family removes: WhiteSpace
      (TAB, VT, FF, ZWNBSP and the Unicode space separators) and
      LineTerminator (LF, CR, LS, PS). */
  predicate IsWhitespace(c: char) {
    || c == '\t' || c == '\n' || c == '\U{000B}' || c == '\U{000C}' || c == '\r'
    || c == ' ' || c == '\U{00A0}' || c == '\U{1680}'
    || ('\U{2000}' <= c <= '\U{200A}')
    || c == '\U{2028}' || c == '\U{2029}' || c == '\U{202F}' || c == '\U{205F}'
    || c == '\U{3000}' || c == '\U{FEFF}'
  }

  /** `s.trimEnd()`: the longest prefix of `s` that does not end in whitespace;
      everything cut off is whitespace. */
  function TrimEnd(s: string): (r: string)
    ensures r <= s
    ensures r == [] || !IsWhitespace(r[|r| - 1])
    ensures forall i :: |r| <= i < |s| ==> IsWhitespace(s[i])
    decreases |s|
  {
    if |s| > 0 && IsWhitespace(s[|s| - 1]) then TrimEnd(s[..|s| - 1]) else s
  }

  /** `s.trimStart()`: the longest suffix of `s` that does not start with
      whitespace; everything cut off is whitespace. */
  function TrimStart(s: string): (r: string)
    ensures |r| <= |s| && r == s[|s| - |r|..]
    ensures r == [] || !IsWhitespace(r[0])
    ensures forall i :: 0 <= i < |s| - |r| ==> IsWhitespace(s[i])
    decreases |s|
  {
    if |s| > 0 && IsWhitespace(s[0]) then TrimStart(s[1..]) else s
  }

  /** `s.trim()`: whitespace removed at both ends. Nothing is left exactly
      when the text is all whitespace. */
  function Trim(s: string): (r: string)
    ensures |r| <= |s|
    ensures r == [] || (!IsWhitespace(r[0]) && !IsWhitespace(r[|r| - 1]))
    ensures r == [] <==> forall i :: 0 <= i < |s| ==> IsWhitespace(s[i])
  {
    TrimStart(TrimEnd(s))
  }

  /** `trim` keeps the middle of the text: a slice `s[k..k + |r|]` with only
      whitespace before it and only whitespace after it. */
  lemma TrimMiddle(s: string)
    ensures var r := Trim(s); var k := |TrimEnd(s)| - |r|;
      && 0 <= k <= k + |r| <= |s|
      && r == s[k..k + |r|]
      && (forall i :: 0 <= i < k ==> IsWhitespace(s[i]))
      && (forall i :: k + |r| <= i < |s| ==> IsWhitespace(s[i]))
  {
    var p := TrimEnd(s);
    var r := TrimStart(p);
    assert p == s[..|p|];
    var k := |p| - |r|;
    assert r == p[k..];
    assert p[k..] == s[k..|p|];
    forall i | 0 <= i < k ensures IsWhitespace(s[i]) {
      assert s[i] == p[i];
    }
  }

  /** `parts.join('\n')`. */
  function Join(parts: seq<string>): string {
    if |parts| == 0 then ""
    else if |parts| == 1 then parts[0]
    else parts[0] + "\n" + Join(parts[1..])
  }

  /** `s.split('\n')`: never empty, and no piece holds a newline. */
  function Split(s: string): (r: seq<string>)
    ensures |r| >= 1
    ensures forall i :: 0 <= i < |r| ==> '\n' !in r[i]
    decreases |s|
  {
    if s == [] then [""]
    else
      var rest := Split(s[1..]);
      if s[0] == '\n' then [""] + rest
      else [[s[0]] + rest[0]] + rest[1..]
  }

  /** Joining the pieces of a split with newlines gives the text back. */
  lemma {:induction false} JoinSplit(s: string)
    ensures Join(Split(s)) == s
    decreases |s|
  {
    if s != [] {
      var rest := Split(s[1..]);
      JoinSplit(s[1..]);
      if s[0] == '\n' {
        assert ([""] + rest)[1..] == rest;
      } else {
        var r := [[s[0]] + rest[0]] + rest[1..];
        assert r[1..] == rest[1..];
        assert |rest| > 1 ==> Join(rest) == rest[0] + "\n" + Join(rest[1..]);
      }
    }
  }

  /** Splitting text that starts with a newline-free `a`: `a` becomes the
      front of the first piece. */
  lemma {:induction false} SplitPrefix(a: string, t: string)
    requires '\n' !in a
    ensures Split(a + t) == [a + Split(t)[0]] + Split(t)[1..]
    decreases |a|
  {
    if a != [] {
      assert (a + t)[1..] == a[1..] + t;
      SplitPrefix(a[1..], t);
      assert [a[0]] + (a[1..] + Split(t)[0]) == a + Split(t)[0];
    } else {
      assert a + t == t;
      assert a + Split(t)[0] == Split(t)[0];
      assert Split(t) == [Split(t)[0]] + Split(t)[1..];
    }
  }

  /** Splitting joined pieces gives the pieces back, when none holds a newline. */
  lemma {:induction false} SplitJoin(parts: seq<string>)
    requires |parts| >= 1
    requires forall i :: 0 <= i < |parts| ==> '\n' !in parts[i]
    ensures Split(Join(parts)) == parts
    decreases |parts|
  {
    if |parts| == 1 {
      SplitPrefix(parts[0], "");
      assert parts[0] + "" == parts[0];
    } else {
      var tail := Join(parts[1..]);
      SplitJoin(parts[1..]);
      assert ("\n" + tail)[1..] == tail;
      assert Split("\n" + tail) == [""] + parts[1..];
      assert parts[0] + "\n" + tail == parts[0] + ("\n" + tail);
      SplitPrefix(parts[0], "\n" + tail);
      assert parts[0] + "" == parts[0];
      assert ([""] + parts[1..])[1..] == parts[1..];
      assert [parts[0]] + parts[1..] == parts;
    }
  }

  /** Joining with one more piece adds a newline and that piece at the end. */
  lemma {:induction false} JoinSnoc(parts: seq<string>, last: string)
    requires |parts| >= 1
    ensures Join(parts + [last]) == Join(parts) + "\n" + last
    decreases |parts|
  {
    if |parts| == 1 {
      assert (parts + [last])[1..] == [last];
    } else {
      assert (parts + [last])[1..] == parts[1..] + [last];
      JoinSnoc(parts[1..], last);
    }
  }

  /** The joined text ends with the last character of the last piece and
      starts with the first character of the first piece. */
  lemma {:induction false} JoinEnds(parts: seq<string>)
    requires |parts| >= 1
    ensures var last := parts[|parts| - 1]; var j := Join(parts);
      |last| > 0 ==> |j| > 0 && j[|j| - 1] == last[|last| - 1]
    ensures |parts[0]| > 0 ==> |Join(parts)| > 0 && Join(parts)[0] == parts[0][0]
    decreases |parts|
  {
    if |parts| > 1 {
      JoinEnds(parts[1..]);
    }
  }

  /** The last piece of a split is what follows the last newline: when the
      text does not end in a newline, that piece is non-empty and ends with
      the text's last character. */
  lemma {:induction false} SplitLast(s: string)
    requires |s| > 0 && s[|s| - 1] != '\n'
    ensures var r := Split(s); |r[|r| - 1]| > 0 && r[|r| - 1][|r[|r| - 1]| - 1] == s[|s| - 1]
    decreases |s|
  {
    if |s| > 1 {
      SplitLast(s[1..]);
    }
  }

  /** A newline-free tail `t` of the text ends the last piece of its split. */
  lemma {:induction false} SplitSuffix(s: string, t: string)
    requires '\n' !in t
    ensures var r := Split(s + t); |t| <= |r[|r| - 1]| && r[|r| - 1][|r[|r| - 1]| - |t|..] == t
    decreases |s|
  {
    if s == [] {
      assert s + t == t;
      SplitPrefix(t, "");
      assert t + "" == t;
      assert Split("") == [""];
    } else {
      var u := s + t;
      assert u[1..] == s[1..] + t;
      SplitSuffix(s[1..], t);
      var rest := Split(u[1..]);
      var last := rest[|rest| - 1];
      var r := Split(u);
      if u[0] == '\n' {
        assert r == [""] + rest;
        assert r[|r| - 1] == last;
      } else if |rest| > 1 {
        assert r == [[u[0]] + rest[0]] + rest[1..];
        assert r[|r| - 1] == last;
      } else {
        assert r == [[u[0]] + last];
        assert ([u[0]] + last)[|[u[0]] + last| - |t|..] == last[|last| - |t|..];
      }
    }
  }
}
