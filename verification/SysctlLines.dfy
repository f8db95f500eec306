/** Lines of kernel parameter files (early/helpers/sysctl.cc). */
module SysctlLines {
  import opened Text

  /** A line: a comment or nothing, an error, or a name with or without a value. */
  datatype Line = Ignored | Invalid | Setting(name: string, value: Option<string>, optional: bool)

  function TrimLeft(s: string): (r: string)
    ensures r != "" ==> r[0] !in BLANKS
  {
    if s != "" && s[0] in BLANKS then TrimLeft(s[1..]) else s
  }

  function TrimRight(s: string): (r: string)
    ensures |r| <= |s| && (r != "" ==> r[|r| - 1] !in BLANKS)
  {
    if s != "" && s[|s| - 1] in BLANKS then TrimRight(s[..|s| - 1]) else s
  }

  /** The body of the loop in `load_conf`, up to the call of `load_sysctl`. */
  function ParseLine(line: string): Line {
    var c := TrimLeft(line);
    if c == "" || c[0] == '#' || c[0] == ';' then Ignored
    else if c[0] == '-' then ParseSetting(TrimRight(TrimLeft(c[1..])), true)
    else ParseSetting(TrimRight(c), false)
  }

  function ParseSetting(b: string, optional: bool): (r: Line)
    ensures r != Ignored
  {
    var d := Find(b, '=');
    var name := TrimRight(b[..d]);
    if (d == |b| && !optional) || name == "" || b[0] == '/' || b[0] == '.' then Invalid
    else Setting(name, if d < |b| then Some(TrimLeft(b[d + 1..])) else None, optional)
  }

  predicate Clean(s: string) {
    s != "" ==> s[0] !in BLANKS && s[|s| - 1] !in BLANKS
  }

  /** What can be written as the name of a setting. */
  predicate NameFits(name: string, optional: bool) {
    && name != "" && Clean(name) && '=' !in name && name[0] != '/' && name[0] != '.'
    && (optional || (name[0] != '#' && name[0] != ';' && name[0] != '-'))
  }

  ghost predicate Blank(s: string) {
    forall i :: 0 <= i < |s| ==> s[i] in BLANKS
  }

  /** A setting written out, with white space after the dash and on both sides of the sign. */
  function Written(s: Line, gap: string, left: string, right: string): string
    requires s.Setting?
  {
    (if s.optional then "-" + gap else "") + s.name + (if s.value.Some? then left + "=" + right + s.value.value else "")
  }

  lemma {:induction false} TrimLeftBlank(w: string, s: string)
    requires Blank(w)
    ensures TrimLeft(w + s) == TrimLeft(s)
  {
    if w == "" {
      assert w + s == s;
    } else {
      TrimLeftBlank(w[1..], s);
      assert (w + s)[1..] == w[1..] + s;
    }
  }

  lemma {:induction false} TrimRightBlank(s: string, w: string)
    requires Blank(w)
    ensures TrimRight(s + w) == TrimRight(s)
    decreases |w|
  {
    if w == "" {
      assert s + w == s;
    } else {
      TrimRightBlank(s, w[..|w| - 1]);
      assert (s + w)[..|s + w| - 1] == s + w[..|w| - 1];
    }
  }

  /** Trimming from the left does not look at what is on the right, unless all is blank. */
  lemma {:induction false} TrimLeftThenBlank(s: string, w: string)
    requires Blank(w)
    ensures if TrimLeft(s) == "" then TrimLeft(s + w) == "" else TrimLeft(s + w) == TrimLeft(s) + w
  {
    if s == "" {
      TrimLeftBlank(w, "");
      assert s + w == w + "";
    } else if s[0] in BLANKS {
      TrimLeftThenBlank(s[1..], w);
      assert (s + w)[1..] == s[1..] + w;
    }
  }

  /** White space before and after a line does not matter. */
  lemma WhitespaceAround(line: string, before: string, after: string)
    requires Blank(before) && Blank(after)
    ensures ParseLine(before + line + after) == ParseLine(line)
  {
    hide ParseSetting;
    assert before + line + after == before + (line + after);
    TrimLeftBlank(before, line + after);
    TrimLeftThenBlank(line, after);
    hide TrimLeft, TrimRight;
    var c := TrimLeft(line);
    if c != "" {
      TrimRightBlank(c, after);
      assert (c + after)[1..] == c[1..] + after;
      DashThenBlank(c[1..], after);
    }
  }

  lemma DashThenBlank(s: string, after: string)
    requires Blank(after)
    ensures TrimRight(TrimLeft(s + after)) == TrimRight(TrimLeft(s))
  {
    TrimLeftThenBlank(s, after);
    TrimRightBlank(TrimLeft(s), after);
  }

  lemma IndexIs(s: string, t: string, c: char)
    requires forall j :: 0 <= j < |s| ==> s[j] != c
    ensures Find(s + [c] + t, c) == |s| && Find(s, c) == |s|
  {
    assert (s + [c] + t)[|s|] == c;
  }

  ghost predicate Fits(s: Line) {
    s.Setting? && NameFits(s.name, s.optional) && (s.value.Some? ==> Clean(s.value.value)) && (s.value.None? ==> s.optional)
  }

  lemma ParseWrittenSetting(s: Line, left: string, right: string)
    requires Fits(s) && Blank(left) && Blank(right)
    ensures ParseSetting(s.name + (if s.value.Some? then left + "=" + right + s.value.value else ""), s.optional) == s
  {
    var n := s.name;
    assert TrimRight(n) == n;
    if s.value.Some? {
      var v := s.value.value;
      IndexIs(n + left, right + v, '=');
      var b := (n + left) + ['='] + (right + v);
      assert n + (left + "=" + right + v) == b;
      assert b[|n + left| + 1..] == right + v && b[..|n + left|] == n + left;
      TrimRightBlank(n, left);
      TrimLeftBlank(right, v);
      assert TrimLeft(v) == v;
      assert b[0] == n[0];
      hide TrimLeft, TrimRight;
    } else {
      IndexIs(n, "", '=');
      assert n + "" == n && n[..|n|] == n;
    }
  }

  lemma TrimsNothing(b: string)
    requires b != "" && Clean(b)
    ensures TrimRight(b) == b && TrimLeft(b) == b
  {
  }

  lemma CleanLine(b: string, optional: bool, gap: string)
    requires b != "" && Clean(b) && (optional || (b[0] != '#' && b[0] != ';' && b[0] != '-')) && Blank(gap)
    ensures ParseLine((if optional then "-" + gap else "") + b) == ParseSetting(b, optional)
  {
    TrimsNothing(b);
    if optional {
      DashedLine(b, gap);
    } else {
      assert "" + b == b;
    }
    hide ParseSetting, TrimLeft, TrimRight;
  }

  lemma DashedLine(b: string, gap: string)
    requires b != "" && Clean(b) && Blank(gap) && TrimRight(b) == b && TrimLeft(b) == b
    ensures ParseLine("-" + gap + b) == ParseSetting(b, true)
  {
    hide ParseSetting, TrimLeft, TrimRight;
    var line := "-" + gap + b;
    TrimLeftBlank(gap, b);
    assert line[0] == '-' && line[1..] == gap + b;
    StartsNonBlank(line);
  }

  lemma StartsNonBlank(s: string)
    requires s != "" && s[0] !in BLANKS
    ensures TrimLeft(s) == s
  {
  }

  /** White space around a setting: before it, after the dash, on both sides of the sign, after it. */
  datatype Layout = Layout(before: string, gap: string, left: string, right: string, after: string)

  /** The line is the setting, written out in this layout. */
  ghost predicate IsWritten(line: string, s: Line, l: Layout) {
    && Fits(s) && Blank(l.before) && Blank(l.gap) && Blank(l.left) && Blank(l.right) && Blank(l.after)
    && (s.value == Some("") ==> l.right == "")
    && line == l.before + Written(s, l.gap, l.left, l.right) + l.after
  }

  lemma WrittenBody(s: Line, gap: string, left: string, right: string) returns (b: string)
    requires Fits(s) && Blank(left) && Blank(right) && (s.value == Some("") ==> right == "")
    ensures b == s.name + (if s.value.Some? then left + "=" + right + s.value.value else "")
    ensures b != "" && Clean(b) && b[0] == s.name[0] && Written(s, gap, left, right) == (if s.optional then "-" + gap else "") + b
  {
    b := s.name + (if s.value.Some? then left + "=" + right + s.value.value else "");
    WrittenIs(s, gap, left, right, b);
    assert b[0] == s.name[0];
    if s.value.Some? && s.value.value != "" {
      assert b[|b| - 1] == s.value.value[|s.value.value| - 1];
    }
  }

  /** Reading a setting that was written out gives it again. */
  lemma ParseWritten(line: string, s: Line, l: Layout)
    requires IsWritten(line, s, l)
    ensures ParseLine(line) == s
  {
    hide ParseLine, ParseSetting;
    WhitespaceAround(Written(s, l.gap, l.left, l.right), l.before, l.after);
    var b := WrittenBody(s, l.gap, l.left, l.right);
    CleanLine(b, s.optional, l.gap);
    ParseWrittenSetting(s, l.left, l.right);
  }

  // ---- What is read is what was written.

  lemma {:induction false} TrimLeftSplits(s: string) returns (w: string)
    ensures Blank(w) && s == w + TrimLeft(s)
  {
    if s != "" && s[0] in BLANKS {
      w := TrimLeftSplits(s[1..]);
      w := [s[0]] + w;
    } else {
      w := "";
    }
  }

  lemma {:induction false} TrimRightSplits(s: string) returns (w: string)
    ensures Blank(w) && s == TrimRight(s) + w
  {
    if s != "" && s[|s| - 1] in BLANKS {
      w := TrimRightSplits(s[..|s| - 1]);
      assert s == TrimRight(s) + w + [s[|s| - 1]];
      w := w + [s[|s| - 1]];
    } else {
      w := "";
    }
  }

  lemma SettingIsWritten(b: string, optional: bool) returns (left: string, right: string)
    requires b != "" && Clean(b) && (optional || (b[0] != '#' && b[0] != ';' && b[0] != '-'))
    requires ParseSetting(b, optional).Setting?
    ensures Blank(left) && Blank(right)
    ensures var s := ParseSetting(b, optional);
            && Fits(s) && s.optional == optional && (s.value == Some("") ==> right == "")
            && b == s.name + (if s.value.Some? then left + "=" + right + s.value.value else "")
  {
    var d := Find(b, '=');
    left := TrimRightSplits(b[..d]);
    right := "";
    var name := TrimRight(b[..d]);
    if d < |b| {
      right := TrimLeftSplits(b[d + 1..]);
      ValueIsWritten(b, d, name, left, right, TrimLeft(b[d + 1..]));
    } else {
      NameIsWritten(b, name, left);
    }
    NameIsClean(b, d, name, left);
    hide TrimLeft, TrimRight;
  }

  lemma NameIsClean(b: string, d: nat, name: string, left: string)
    requires b != "" && Clean(b) && d <= |b| && '=' !in b[..d] && b[..d] == name + left && name != ""
    ensures name[0] == b[0] && '=' !in name
  {
    assert b[..d][0] == b[0];
  }

  lemma ValueIsWritten(b: string, d: nat, name: string, left: string, right: string, value: string)
    requires b != "" && Clean(b) && d < |b| && b[d] == '=' && b[..d] == name + left
    requires b[d + 1..] == right + value && Blank(right) && (value != "" ==> value[0] !in BLANKS)
    ensures b == name + (left + "=" + right + value) && Clean(value) && (value == "" ==> right == "")
  {
    assert b == b[..d] + "=" + b[d + 1..];
    if value != "" {
      assert b[|b| - 1] == b[d + 1..][|right + value| - 1];
    }
    var rest := b[d + 1..];
    assert rest != "" ==> b[|b| - 1] == rest[|rest| - 1];
  }

  lemma NameIsWritten(b: string, name: string, left: string)
    requires b != "" && Clean(b) && b[..|b|] == name + left && Blank(left)
    ensures b == name + ""
  {
    assert b[..|b|] == b;
    LastOf(name, left);
  }

  lemma LastOf(a: string, w: string)
    ensures w != "" ==> (a + w)[|a + w| - 1] == w[|w| - 1]
  {
  }

  /** A line is read as a setting exactly when it is that setting, written out in some layout. */
  lemma ParseLineIff(line: string, s: Line)
    requires s.Setting?
    ensures ParseLine(line) == s <==> exists l :: IsWritten(line, s, l)
  {
    if ParseLine(line) == s {
      var l := LayoutOf(line);
    } else if l :| IsWritten(line, s, l) {
      ParseWritten(line, s, l);
    }
    hide ParseLine;
  }

  lemma LayoutOf(line: string) returns (l: Layout)
    requires ParseLine(line).Setting?
    ensures IsWritten(line, ParseLine(line), l)
  {
    var before := TrimLeftSplits(line);
    if TrimLeft(line)[0] == '-' {
      l := DashedLayout(line, before, TrimLeft(line));
    } else {
      l := PlainLayout(line, before, TrimLeft(line));
    }
    hide TrimLeft, TrimRight, ParseSetting, IsWritten;
  }

  lemma DashedLayout(line: string, before: string, c: string) returns (l: Layout)
    requires line == before + c && Blank(before) && c != "" && c[0] == '-'
    requires ParseSetting(TrimRight(TrimLeft(c[1..])), true).Setting?
    ensures IsWritten(line, ParseSetting(TrimRight(TrimLeft(c[1..])), true), l)
  {
    var gap := TrimLeftSplits(c[1..]);
    var body := TrimLeft(c[1..]);
    var after := TrimRightSplits(body);
    var b := TrimRight(body);
    BodyIsClean(body);
    hide TrimLeft, TrimRight;
    assert b != "";
    var left, right := SettingIsWritten(b, true);
    l := Layout(before, gap, left, right, after);
    hide ParseSetting;
    DashFirst(c, gap + (b + after));
    WrittenIs(ParseSetting(b, true), gap, left, right, b);
    Reassociated(before, gap, b, after);
  }

  lemma DashFirst(c: string, rest: string)
    requires c != "" && c[0] == '-' && c[1..] == rest
    ensures c == "-" + rest
  {
  }

  lemma WrittenIs(s: Line, gap: string, left: string, right: string, b: string)
    requires s.Setting? && b == s.name + (if s.value.Some? then left + "=" + right + s.value.value else "")
    ensures Written(s, gap, left, right) == (if s.optional then "-" + gap else "") + b
  {
  }

  lemma Reassociated(before: string, gap: string, b: string, after: string)
    ensures before + ("-" + (gap + (b + after))) == before + ("-" + gap + b) + after
    ensures before + (b + after) == before + ("" + b) + after
  {
  }

  lemma PlainLayout(line: string, before: string, c: string) returns (l: Layout)
    requires line == before + c && Blank(before) && c != "" && c[0] !in BLANKS
    requires c[0] != '#' && c[0] != ';' && c[0] != '-' && ParseSetting(TrimRight(c), false).Setting?
    ensures IsWritten(line, ParseSetting(TrimRight(c), false), l)
  {
    var after := TrimRightSplits(c);
    var b := TrimRight(c);
    BodyIsClean(c);
    hide TrimLeft, TrimRight;
    var left, right := SettingIsWritten(b, false);
    l := Layout(before, "", left, right, after);
    hide ParseSetting;
    WrittenIs(ParseSetting(b, false), "", left, right, b);
    Reassociated(before, "", b, after);
  }

  lemma BodyIsClean(c: string)
    requires c != "" ==> c[0] !in BLANKS
    ensures Clean(TrimRight(c)) && (c != "" ==> TrimRight(c) != "" && TrimRight(c)[0] == c[0])
  {
    var w := TrimRightSplits(c);
  }

  /** The first character that is no white space starts a comment. */
  ghost predicate CommentAt(line: string, i: nat) {
    i < |line| && (forall j :: 0 <= j < i ==> line[j] in BLANKS) && (line[i] == '#' || line[i] == ';')
  }

  /** A line is ignored exactly when it is blank or a comment. */
  lemma IgnoredIff(line: string)
    ensures ParseLine(line) == Ignored <==> Blank(line) || exists i :: CommentAt(line, i)
  {
    var w := TrimLeftSplits(line);
    var c := TrimLeft(line);
    hide TrimLeft, ParseSetting;
    if c == "" {
      assert w + "" == w;
    } else {
      assert line[|w|] == c[0] && forall j :: 0 <= j < |w| ==> line[j] == w[j];
      assert ParseLine(line) == Ignored <==> CommentAt(line, |w|);
    }
  }

  lemma {:induction false} TrimLeftKeeps(s: string, c: char)
    requires c !in s
    ensures c !in TrimLeft(s)
  {
    if s != "" && s[0] in BLANKS {
      TrimLeftKeeps(s[1..], c);
    }
  }

  lemma {:induction false} TrimRightKeeps(s: string, c: char)
    requires c !in s
    ensures c !in TrimRight(s)
  {
    if s != "" && s[|s| - 1] in BLANKS {
      TrimRightKeeps(s[..|s| - 1], c);
    }
  }

  lemma SettingKeeps(b: string, optional: bool, c: char)
    requires c !in b
    ensures ParseSetting(b, optional).Setting? ==> c !in ParseSetting(b, optional).name
  {
    TrimRightKeeps(b[..Find(b, '=')], c);
  }

  /** A name has only characters of its line. */
  lemma ParseKeeps(line: string, c: char)
    requires c !in line
    ensures ParseLine(line).Setting? ==> c !in ParseLine(line).name
  {
    hide ParseSetting, TrimLeft, TrimRight;
    TrimLeftKeeps(line, c);
    var s := TrimLeft(line);
    if s != "" {
      TrimRightKeeps(s, c);
      SettingKeeps(TrimRight(s), false, c);
      TrimLeftKeeps(s[1..], c);
      TrimRightKeeps(TrimLeft(s[1..]), c);
      SettingKeeps(TrimRight(TrimLeft(s[1..])), true, c);
    }
  }
}
