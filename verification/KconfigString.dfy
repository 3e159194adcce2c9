/** String values in the saved configuration: escaping them and reading them back. */
module KconfigString {
  import opened Basics
  import opened KconfigExpr
  import opened KconfigText

  predicate Special(ch: char) {
    ch == '"' || ch == '\\'
  }

  /** A backslash before every quote and backslash. */
  function Escape(s: string): string {
    if s == "" then "" else (if Special(s[0]) then ['\\', s[0]] else [s[0]]) + Escape(s[1..])
  }

  /** The text between the quotes, if there is a closing quote. */
  function Unescape(s: string): Option<string> {
    if s == "" || s[0] == '"' then if s == "" then None else Some("")
    else if s[0] == '\\' then if |s| == 1 then None else Prefixed(s[1], Unescape(s[2..]))
    else Prefixed(s[0], Unescape(s[1..]))
  }

  function Prefixed(ch: char, rest: Option<string>): Option<string> {
    if rest.None? then None else Some([ch] + rest.value)
  }

  lemma {:induction false} EscapeConcat(s: string, t: string)
    ensures Escape(s + t) == Escape(s) + Escape(t)
  {
    if s == "" {
      assert s + t == t;
    } else {
      EscapeConcat(s[1..], t);
      assert (s + t)[1..] == s[1..] + t && (s + t)[0] == s[0];
      Reassociate(if Special(s[0]) then ['\\', s[0]] else [s[0]], Escape(s[1..]), Escape(t));
    }
  }

  lemma Reassociate(x: string, y: string, z: string)
    ensures x + (y + z) == (x + y) + z
  {
  }

  lemma EscapeOne(ch: char)
    ensures Escape([ch]) == if Special(ch) then ['\\', ch] else [ch]
  {
    assert [ch][1..] == "";
  }

  function Specials(s: string): nat {
    if s == "" then 0 else (if s[0] in {'"', '\\'} then 1 else 0) + Specials(s[1..])
  }

  /** Nothing else gets a backslash. */
  lemma {:induction false} EscapeLength(s: string)
    ensures |Escape(s)| == |s| + Specials(s)
  {
    if s != "" {
      EscapeLength(s[1..]);
    }
  }

  /** The loop of conf_write: a stretch of plain characters, then the special ones after it. */
  method WriteEscaped(str: string) returns (out: string)
    ensures out == Escape(str)
  {
    out := "";
    var i := 0;
    var more := true;
    assert str[..0] == "";
    while more
      invariant i <= |str| && out == Escape(str[..i]) && (!more ==> i == |str|)
      decreases |str| - i, if more then 1 else 0
    {
      var start := i;
      while i < |str| && !Special(str[i])
        invariant start <= i <= |str| && forall k :: start <= k < i ==> !Special(str[k])
      {
        i := i + 1;
      }
      PlainIsKept(str[start..i]);
      EscapeConcat(str[..start], str[start..i]);
      assert str[..i] == str[..start] + str[start..i];
      out := out + str[start..i];
      while i < |str| && Special(str[i])
        invariant start <= i <= |str| && out == Escape(str[..i])
        invariant start < |str| && i == start ==> Special(str[i])
      {
        EscapeConcat(str[..i], [str[i]]);
        EscapeOne(str[i]);
        assert str[..i + 1] == str[..i] + [str[i]];
        out := out + ['\\', str[i]];
        i := i + 1;
      }
      more := i < |str|;
    }
    assert str[..i] == str;
  }

  lemma {:induction false} PlainIsKept(s: string)
    requires forall k :: 0 <= k < |s| ==> !Special(s[k])
    ensures Escape(s) == s
  {
    if s != "" {
      PlainIsKept(s[1..]);
    }
  }

  /** The loop of conf_read_simple, on the text behind the opening quote: the
      backslashes are taken out where they stand, up to the closing quote. */
  method ReadEscaped(text: string) returns (r: Option<string>)
    ensures r == Unescape(text)
  {
    var line, p2 := text, 0;
    assert line[..0] == "" && line[0..] == text;
    BehindNothing(Unescape(text));
    while p2 < |line|
      invariant p2 <= |line|
      invariant Unescape(text) == Behind(line[..p2], Unescape(line[p2..]))
      decreases |line| - p2
    {
      if line[p2] == '"' {
        assert line[..p2] + "" == line[..p2];
        return Some(line[..p2]);
      }
      if line[p2] == '\\' {
        if p2 + 1 == |line| {
          assert line[p2..] == ['\\'];
          return None;
        }
        ghost var was := line;
        assert was[p2..][1] == was[p2 + 1];
        line := line[..p2] + line[p2 + 1..];
        assert was[..p2] == line[..p2];
        assert was[p2..][2..] == line[p2 + 1..];
      } else {
        assert line[p2..][1..] == line[p2 + 1..];
      }
      assert line[..p2 + 1] == line[..p2] + [line[p2]];
      BehindPrefixed(line[..p2], line[p2], Unescape(line[p2 + 1..]));
      p2 := p2 + 1;
    }
    r := None;
  }

  function Behind(s: string, rest: Option<string>): Option<string> {
    if rest.None? then None else Some(s + rest.value)
  }

  lemma BehindNothing(rest: Option<string>)
    ensures Behind("", rest) == rest
  {
    if rest.Some? {
      assert "" + rest.value == rest.value;
    }
  }

  lemma BehindPrefixed(s: string, ch: char, rest: Option<string>)
    ensures Behind(s, Prefixed(ch, rest)) == Behind(s + [ch], rest)
  {
    if rest.Some? {
      assert s + ([ch] + rest.value) == s + [ch] + rest.value;
    }
  }

  /** What is written between quotes is read back whole, and without the closing quote not at all. */
  lemma {:induction false} UnescapeEscaped(s: string)
    ensures Unescape(Escape(s) + "\"") == Some(s)
    ensures Unescape(Escape(s)).None?
  {
    if s != "" {
      UnescapeEscaped(s[1..]);
      var e, q := Escape(s), Escape(s) + "\"";
      var k := if Special(s[0]) then 2 else 1;
      assert e[k..] == Escape(s[1..]) && q[k..] == Escape(s[1..]) + "\"";
      assert s == [s[0]] + s[1..];
    }
  }

  /** The text with a backslash before every special character and before any others. */
  function EscapeMore(s: string, more: seq<bool>): string
    requires |more| == |s|
  {
    if s == "" then ""
    else (if Special(s[0]) || more[0] then ['\\', s[0]] else [s[0]]) + EscapeMore(s[1..], more[1..])
  }

  /** A backslash makes any character stand for itself, and what follows the closing quote
      does not matter. */
  lemma {:induction false} UnescapeAny(s: string, more: seq<bool>, rest: string)
    requires |more| == |s|
    ensures Unescape(EscapeMore(s, more) + "\"" + rest) == Some(s)
  {
    var e := EscapeMore(s, more);
    if s == "" {
      assert (e + "\"" + rest)[0] == '"';
    } else {
      UnescapeAny(s[1..], more[1..], rest);
      var k := if Special(s[0]) || more[0] then 2 else 1;
      assert (e + "\"" + rest)[k..] == EscapeMore(s[1..], more[1..]) + "\"" + rest;
      assert (e + "\"" + rest)[0] == e[0] && (k == 2 ==> (e + "\"" + rest)[1] == s[0]);
      assert s == [s[0]] + s[1..];
    }
  }

  /** The line of a string symbol. */
  function StringEntry(name: string, s: string): string {
    "CONFIG_" + name + "=" + ("\"" + Escape(s) + "\"") + "\n"
  }

  /** The text up to the first line feed, which is all that one fgets reads. */
  function FirstLine(text: string): string {
    var end := IndexOf(text, '\n', 0);
    if end.None? then text else text[..end.value + 1]
  }

  /** The value that a line gives to a string symbol. */
  function ReadString(line: string): Option<string> {
    var p := ParseLine(line);
    if !p.Set? || p.value == "" || p.value[0] != '"' then None else Unescape(p.value[1..])
  }

  lemma {:induction false} NoLineFeed(s: string)
    ensures '\n' in Escape(s) <==> '\n' in s
  {
    if s != "" {
      NoLineFeed(s[1..]);
      assert s == [s[0]] + s[1..];
    }
  }

  lemma FirstLineIs(before: string, after: string)
    requires '\n' !in before
    ensures FirstLine(before + "\n" + after) == before + "\n"
  {
    IndexAfter("", before, '\n', after);
    assert "" + before + ['\n'] + after == before + "\n" + after;
  }

  lemma WholeComesBack(name: string, s: string)
    requires NameOk(name) && '\n' !in name && '\n' !in s
    ensures ReadString(FirstLine(StringEntry(name, s))) == Some(s)
  {
    var value := "\"" + Escape(s) + "\"";
    NoLineFeed(s);
    FirstLineIs("CONFIG_" + name + "=" + value, "");
    assert "CONFIG_" + name + "=" + value + "\n" + "" == StringEntry(name, s);
    SettingParses(name, value);
    assert value[1..] == Escape(s) + "\"";
    UnescapeEscaped(s);
  }

  lemma EscapeAround(t: string, rest: string)
    ensures Escape(t + (['\n'] + rest)) == Escape(t) + "\n" + Escape(rest)
  {
    EscapeConcat(t, ['\n'] + rest);
    EscapeConcat(['\n'], rest);
    EscapeOne('\n');
  }

  lemma Regroup(a: string, q: string, e: string, l: string, f: string)
    ensures a + (q + (e + l + f) + q) + l == a + (q + e) + l + (f + q + l)
  {
  }

  lemma CutIsRefused(name: string, t: string, rest: string)
    requires NameOk(name) && '\n' !in name && '\n' !in t
    ensures ReadString(FirstLine(StringEntry(name, t + (['\n'] + rest)))).None?
  {
    var value, after := "\"" + Escape(t), Escape(rest) + "\"" + "\n";
    EscapeAround(t, rest);
    NoLineFeed(t);
    Regroup("CONFIG_" + name + "=", "\"", Escape(t), "\n", Escape(rest));
    FirstLineIs("CONFIG_" + name + "=" + value, after);
    SettingParses(name, value);
    assert value[1..] == Escape(t);
    UnescapeEscaped(t);
  }

  /** A string value comes back from the file exactly when it holds no line feed. */
  lemma StringComesBack(name: string, s: string)
    requires NameOk(name) && '\n' !in name
    ensures ReadString(FirstLine(StringEntry(name, s))) == Some(s) <==> '\n' !in s
  {
    if '\n' !in s {
      WholeComesBack(name, s);
    } else {
      var k := IndexOf(s, '\n', 0).value;
      assert s == s[..k] + (['\n'] + s[k + 1..]);
      CutIsRefused(name, s[..k], s[k + 1..]);
    }
  }
}
