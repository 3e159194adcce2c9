/** Lines of the saved configuration. */
module KconfigText {
  import opened Basics
  import opened KconfigExpr

  /** The line conf_write prints for a boolean or tristate symbol. */
  function Entry(name: string, v: Tri): string {
    if v == 0 then "# CONFIG_" + name + " is not set\n" else "CONFIG_" + name + "=" + Letter(v) + "\n"
  }

  /** What conf_read_simple makes of a line. */
  datatype Line = NotSet(name: string) | Set(name: string, value: string) | Nothing | Unexpected

  /** strchr from a place on. */
  function IndexOf(s: string, ch: char, start: nat): (r: Option<nat>)
    requires start <= |s|
    ensures r.Some? ==> start <= r.value < |s| && s[r.value] == ch && ch !in s[start..r.value]
    ensures r.None? ==> ch !in s[start..]
    decreases |s| - start
  {
    if start == |s| then None
    else if s[start] == ch then Some(start)
    else
      var r := IndexOf(s, ch, start + 1);
      assert s[start..] == [s[start]] + s[start + 1..];
      assert r.Some? ==> s[start..r.value] == [s[start]] + s[start + 1..r.value];
      r
  }

  predicate At(s: string, i: nat, part: string) {
    i <= |s| && part <= s[i..]
  }

  function ParseLine(s: string): Line {
    if s == "" then Nothing
    else if s[0] == '#' then ParseComment(s)
    else if s[0] == 'C' then if At(s, 0, "CONFIG_") then ParseSetting(s) else Unexpected
    else if s[0] == '\n' then Nothing
    else Unexpected
  }

  function ParseComment(s: string): Line {
    if !At(s, 2, "CONFIG_") then Nothing
    else
      var p := IndexOf(s, ' ', 9);
      if p.None? || !At(s, p.value + 1, "is not set") then Nothing else NotSet(s[9..p.value])
  }

  function ParseSetting(s: string): Line
    requires At(s, 0, "CONFIG_")
  {
    var p := IndexOf(s, '=', 7);
    if p.None? then Nothing
    else
      var end := IndexOf(s, '\n', p.value + 1);
      Set(s[7..p.value], if end.Some? then s[p.value + 1..end.value] else s[p.value + 1..])
  }

  /** Symbol names hold none of the characters that end a name in a line. */
  predicate NameOk(name: string) {
    ' ' !in name && '=' !in name
  }

  /** The first place of a character behind a part that does not hold it. */
  lemma IndexAfter(before: string, name: string, ch: char, after: string)
    requires ch !in name
    ensures IndexOf(before + name + [ch] + after, ch, |before|) == Some(|before| + |name|)
  {
    var s, at := before + name + [ch] + after, |before| + |name|;
    assert s[at] == ch && s[|before|..at] == name;
  }

  /** A comment that says a name is not set. */
  lemma CommentParses(name: string, rest: string)
    requires ' ' !in name
    ensures ParseLine("# CONFIG_" + name + " is not set" + rest) == NotSet(name)
  {
    var head: string, part: string := "# CONFIG_", "is not set";
    var s := "# CONFIG_" + name + " is not set" + rest;
    assert s == head + name + [' '] + (part + rest);
    assert s[2..] == "CONFIG_" + (name + [' '] + (part + rest));
    IndexAfter(head, name, ' ', part + rest);
    assert s[9 + |name| + 1..] == part + rest;
    assert s[9..9 + |name|] == name;
  }

  lemma SettingParses(name: string, value: string)
    requires '=' !in name && '\n' !in value
    ensures ParseLine("CONFIG_" + name + "=" + value + "\n") == Set(name, value)
  {
    var head: string := "CONFIG_";
    var s := "CONFIG_" + name + "=" + value + "\n";
    assert s == head + name + ['='] + (value + "\n");
    IndexAfter(head, name, '=', value + "\n");
    assert s == (head + name + ['=']) + value + ['\n'] + "";
    IndexAfter(head + name + ['='], value, '\n', "");
    assert s[7..7 + |name|] == name;
  }

  /** Reading a printed line gives back the name and the value. */
  lemma EntryParses(name: string, v: Tri)
    requires NameOk(name)
    ensures ParseLine(Entry(name, v)) == if v == 0 then NotSet(name) else Set(name, Letter(v))
  {
    if v == 0 {
      CommentParses(name, "\n");
      assert "# CONFIG_" + name + " is not set" + "\n" == Entry(name, v);
    } else {
      SettingParses(name, Letter(v));
    }
  }

  /** The title says of some name that it is not set. */
  ghost predicate ReadsAsSetting(title: string) {
    exists name :: ' ' !in name && "CONFIG_" + name + " is not set" <= title
  }

  /** A menu title, printed as a comment, is taken for a setting exactly when it reads like one. */
  lemma TitleIgnored(title: string)
    requires '\n' !in title
    ensures ParseLine("# " + title + "\n").Nothing? <==> !ReadsAsSetting(title)
  {
    if !ParseLine("# " + title + "\n").Nothing? {
      TitleTaken(title);
    }
    if name :| ' ' !in name && "CONFIG_" + name + " is not set" <= title {
      var rest := title[|"CONFIG_" + name + " is not set"|..];
      assert title == "CONFIG_" + name + " is not set" + rest;
      CommentParses(name, rest + "\n");
      assert "# " + title + "\n" == "# CONFIG_" + name + " is not set" + (rest + "\n");
    }
  }

  lemma TitleTaken(title: string)
    requires '\n' !in title && !ParseLine("# " + title + "\n").Nothing?
    ensures ReadsAsSetting(title)
  {
    var s := "# " + title + "\n";
    assert s[2..] == title + "\n";
    var name := ParseComment(s).name;
    CommentSplits(s);
    var whole := "CONFIG_" + name + " is not set";
    assert whole[|whole| - 1] == 't';
    PrefixOfLine(whole, title);
  }

  lemma PrefixOfLine(whole: string, title: string)
    requires whole <= title + "\n" && |whole| > 0 && whole[|whole| - 1] != '\n'
    ensures whole <= title
  {
    assert whole[|whole| - 1] == (title + "\n")[|whole| - 1];
  }

  /** A comment that is taken says of the name that it is not set. */
  lemma CommentSplits(s: string)
    requires ParseComment(s).NotSet?
    ensures ' ' !in ParseComment(s).name && "CONFIG_" + ParseComment(s).name + " is not set" <= s[2..]
  {
    var p := IndexOf(s, ' ', 9).value;
    Rebuilt(s, "CONFIG_", p, "is not set");
    assert [' '] + "is not set" == " is not set";
  }

  lemma Rebuilt(s: string, a: string, p: nat, b: string)
    requires 2 + |a| <= p < |s| && a <= s[2..] && b <= s[p + 1..]
    ensures a + s[2 + |a|..p] + ([s[p]] + b) <= s[2..]
  {
    assert s[2..] == a + s[2 + |a|..];
    assert s[2 + |a|..] == s[2 + |a|..p] + s[p..];
    assert s[p..] == [s[p]] + s[p + 1..];
  }

  /** What the two forms of a line look like. */
  lemma EntryLooks()
    ensures Entry("FOO", 0) == "# CONFIG_FOO is not set\n"
    ensures Entry("FOO", 1) == "CONFIG_FOO=m\n" && Entry("FOO", 2) == "CONFIG_FOO=y\n"
  {
  }

  /** Lines of other kinds: empty lines and comments are skipped, anything else is unexpected. */
  lemma OtherLines(line: string)
    ensures line == "" || line[0] == '\n' ==> ParseLine(line) == Nothing
    ensures line != "" && line[0] == '#' && !ReadsAsComment(line) ==> ParseLine(line) == Nothing
    ensures line != "" && line[0] !in {'#', '\n'} && !("CONFIG_" <= line) ==> ParseLine(line) == Unexpected
    ensures "CONFIG_" <= line && '=' !in line ==> ParseLine(line) == Nothing
  {
    if line != "" && line[0] == '#' && ParseComment(line) != Nothing {
      CommentSplits(line);
    }
    if "CONFIG_" <= line {
      assert line[0..] == line && line[0] == 'C';
      var p := IndexOf(line, '=', 7);
    }
  }

  /** Behind the first two characters the line says of some name that it is not set. */
  ghost predicate ReadsAsComment(line: string) {
    |line| >= 2 && exists name :: ' ' !in name && "CONFIG_" + name + " is not set" <= line[2..]
  }
}
