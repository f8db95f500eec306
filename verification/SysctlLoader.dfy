/** Loading kernel parameters (early/helpers/sysctl.cc): which of the lines about a parameter
    decides, over all files in the order in which they are loaded, and what is written. */
module SysctlLoader {
  import opened SysctlBuffer
  import opened SysctlLines
  import opened SysctlNames
  import opened Text

  const GLOB_CHARS := {'*', '?', '['}

  // ---- A whole run.

  /** What `glob` finds for a pattern: the parameters, by path, that are regular files. */
  type Glob = string -> seq<string>

  /** A line as it is loaded: `tail` is what the buffer holds after the value. */
  datatype Loaded = Loaded(line: Line, tail: string)

  /** The names that were given explicitly so far, and what was written to the parameters. */
  datatype State = State(entries: set<string>, values: map<string, Output>)

  const Initial := State({}, map[])

  predicate IsGlob(name: string): (r: bool)
    ensures r <==> '*' in name || '?' in name || '[' in name
  {
    exists i :: 0 <= i < |name| && name[i] in GLOB_CHARS
  }

  /** How many of the matches are written to. */
  function Count(matches: seq<string>, skip: set<string>): nat {
    if matches == [] then 0
    else Count(matches[..|matches| - 1], skip) + (if matches[|matches| - 1] in skip then 0 else 1)
  }

  /** The value goes to every matching parameter that has not been named explicitly. */
  function WriteMatches(s: State, matches: seq<string>, buffer: string): (t: State)
    ensures t.entries == s.entries
    decreases |matches|
  {
    if matches == [] then s
    else
      var t, last := WriteMatches(s, matches[..|matches| - 1], buffer), matches[|matches| - 1];
      if last in s.entries then t
      else t.(values := t.values[last := NthWrite(buffer, Count(matches, s.entries))])
  }

  /** `load_sysctl`, when every parameter can be written; the buffer starts with the value. */
  function LoadOne(s: State, name: string, buffer: Option<string>, glob: Glob): State {
    var n := Normalised(name);
    if IsGlob(n) then
      if buffer.Some? then WriteMatches(s, glob(n), buffer.value) else s
    else
      s.(entries := s.entries + {n},
         values := if buffer.Some? then s.values[n := WriteOf(buffer.value)] else s.values)
  }

  function Buffer(l: Loaded): Option<string>
    requires l.line.Setting?
  {
    if l.line.value.Some? then Some(l.line.value.value + l.tail) else None
  }

  function Apply(s: State, l: Loaded, glob: Glob): State {
    if l.line.Setting? then LoadOne(s, l.line.name, Buffer(l), glob) else s
  }

  function RunFrom(s: State, lines: seq<Loaded>, glob: Glob): State {
    if lines == [] then s else Apply(RunFrom(s, lines[..|lines| - 1], glob), lines[|lines| - 1], glob)
  }

  function Run(lines: seq<Loaded>, glob: Glob): State {
    RunFrom(Initial, lines, glob)
  }

  // ---- Which line decides, and what is written then.

  /** The line names the parameter itself. */
  predicate Names(line: Line, key: string) {
    line.Setting? && Normalised(line.name) == key && !IsGlob(key)
  }

  /** The line has a pattern that matches the parameter, and a value for it. */
  predicate Matches(line: Line, key: string, glob: Glob) {
    line.Setting? && line.value.Some? && IsGlob(Normalised(line.name)) && key in glob(Normalised(line.name))
  }

  /** The parameters that the lines name, with a value or without. */
  function Named(lines: seq<Loaded>): set<string> {
    set i | 0 <= i < |lines| && lines[i].line.Setting? && !IsGlob(Normalised(lines[i].line.name))
      :: Normalised(lines[i].line.name)
  }

  /** Which write of the pattern's matches is the last one to the parameter. */
  function Rank(matches: seq<string>, key: string, skip: set<string>): (n: nat)
    requires key in matches && key !in skip
    ensures n > 0
  {
    if matches[|matches| - 1] == key then Count(matches, skip)
    else
      assert matches == matches[..|matches| - 1] + [matches[|matches| - 1]];
      Rank(matches[..|matches| - 1], key, skip)
  }

  /** What the last line that names the parameter and has a value writes. */
  function LastExplicit(lines: seq<Loaded>, key: string): Option<Output> {
    if lines == [] then None
    else
      var last := lines[|lines| - 1];
      if Names(last.line, key) && last.line.value.Some? then Some(WriteOf(Buffer(last).value))
      else LastExplicit(lines[..|lines| - 1], key)
  }

  /** The lines before the first one that names the parameter, with a value or without. */
  function BeforeNamed(lines: seq<Loaded>, key: string): (r: seq<Loaded>)
    ensures r <= lines && (forall i :: 0 <= i < |r| ==> !Names(r[i].line, key))
    ensures |r| < |lines| ==> Names(lines[|r|].line, key)
  {
    if lines == [] || Names(lines[0].line, key) then [] else [lines[0]] + BeforeNamed(lines[1..], key)
  }

  /** What the last matching pattern of lines that do not name the parameter writes. */
  function LastMatch(lines: seq<Loaded>, key: string, glob: Glob): Option<Output>
    requires forall i :: 0 <= i < |lines| ==> !Names(lines[i].line, key)
  {
    if lines == [] then None
    else
      var before, last := lines[..|lines| - 1], lines[|lines| - 1];
      if Matches(last.line, key, glob) then
        UnnamedIsNotNamed(before, key);
        Some(NthWrite(Buffer(last).value, Rank(glob(Normalised(last.line.name)), key, Named(before))))
      else LastMatch(before, key, glob)
  }

  lemma UnnamedIsNotNamed(lines: seq<Loaded>, key: string)
    requires forall i :: 0 <= i < |lines| ==> !Names(lines[i].line, key)
    ensures key !in Named(lines)
  {
  }

  /** What a parameter ends up with. */
  function Final(lines: seq<Loaded>, key: string, glob: Glob): Option<Output> {
    if LastExplicit(lines, key).Some? then LastExplicit(lines, key) else LastMatch(BeforeNamed(lines, key), key, glob)
  }

  function ValueOf(s: State, key: string): Option<Output> {
    if key in s.values then Some(s.values[key]) else None
  }

  lemma {:induction false} MatchesWritten(s: State, matches: seq<string>, buffer: string, key: string)
    ensures ValueOf(WriteMatches(s, matches, buffer), key)
         == if key in matches && key !in s.entries then Some(NthWrite(buffer, Rank(matches, key, s.entries)))
            else ValueOf(s, key)
    decreases |matches|
  {
    if matches != [] {
      var before, last := matches[..|matches| - 1], matches[|matches| - 1];
      assert matches == before + [last];
      MatchesWritten(s, before, buffer, key);
    }
  }

  lemma {:induction false} EntriesAreNamed(lines: seq<Loaded>, glob: Glob)
    ensures Run(lines, glob).entries == Named(lines)
  {
    if lines != [] {
      var before, last := lines[..|lines| - 1], lines[|lines| - 1];
      EntriesAreNamed(before, glob);
      NamedSnoc(before, last);
      assert before + [last] == lines;
    }
  }

  lemma NamedSnoc(lines: seq<Loaded>, last: Loaded)
    ensures Named(lines + [last])
         == Named(lines) + (if last.line.Setting? && !IsGlob(Normalised(last.line.name)) then {Normalised(last.line.name)} else {})
  {
    hide IsGlob, Normalised;
    var all := lines + [last];
    assert all[|lines|] == last;
    assert forall i :: 0 <= i < |lines| ==> all[i] == lines[i];
  }

  lemma NamedIff(lines: seq<Loaded>, key: string)
    ensures key in Named(lines) <==> |BeforeNamed(lines, key)| < |lines|
  {
    hide IsGlob, Normalised;
    var n := |BeforeNamed(lines, key)|;
    if n < |lines| {
      assert Names(lines[n].line, key);
    } else {
      assert BeforeNamed(lines, key) == lines;
      UnnamedIsNotNamed(lines, key);
    }
  }

  lemma {:induction false} BeforeNamedSnoc(lines: seq<Loaded>, last: Loaded, key: string)
    ensures BeforeNamed(lines + [last], key)
         == if |BeforeNamed(lines, key)| < |lines| || Names(last.line, key) then BeforeNamed(lines, key) else lines + [last]
  {
    if lines != [] && !Names(lines[0].line, key) {
      BeforeNamedSnoc(lines[1..], last, key);
      assert (lines + [last])[1..] == lines[1..] + [last];
    }
    hide Names;
  }

  /** What one line does to one parameter. */
  lemma LineEffect(s: State, l: Loaded, key: string, glob: Glob)
    ensures ValueOf(Apply(s, l, glob), key)
         == if Names(l.line, key) && l.line.value.Some? then Some(WriteOf(Buffer(l).value))
            else if Matches(l.line, key, glob) && key !in s.entries
            then Some(NthWrite(Buffer(l).value, Rank(glob(Normalised(l.line.name)), key, s.entries)))
            else ValueOf(s, key)
  {
    hide Normalised, IsGlob, WriteMatches, NthWrite, WriteOf, Rank;
    if l.line.Setting? && l.line.value.Some? && IsGlob(Normalised(l.line.name)) {
      MatchesWritten(s, glob(Normalised(l.line.name)), Buffer(l).value, key);
    }
  }

  lemma {:induction false} UnnamedHasNoExplicit(lines: seq<Loaded>, key: string)
    requires forall i :: 0 <= i < |lines| ==> !Names(lines[i].line, key)
    ensures LastExplicit(lines, key) == None
  {
    hide Names;
    if lines != [] {
      UnnamedHasNoExplicit(lines[..|lines| - 1], key);
    }
  }

  lemma FinalSnoc(lines: seq<Loaded>, last: Loaded, key: string, glob: Glob)
    ensures Final(lines + [last], key, glob)
         == if Names(last.line, key) && last.line.value.Some? then Some(WriteOf(Buffer(last).value))
            else if Matches(last.line, key, glob) && key !in Named(lines)
            then Some(NthWrite(Buffer(last).value, Rank(glob(Normalised(last.line.name)), key, Named(lines))))
            else Final(lines, key, glob)
  {
    var all := lines + [last];
    assert all[..|all| - 1] == lines;
    BeforeNamedSnoc(lines, last, key);
    NamedIff(lines, key);
    hide Normalised, IsGlob, BeforeNamed, NthWrite, WriteOf, Rank, Named;
    if key !in Named(lines) {
      assert BeforeNamed(lines, key) == lines;
      UnnamedHasNoExplicit(lines, key);
    }
  }

  lemma OneMoreLineDecides(lines: seq<Loaded>, last: Loaded, key: string, glob: Glob)
    requires ValueOf(Run(lines, glob), key) == Final(lines, key, glob)
    ensures ValueOf(Run(lines + [last], glob), key) == Final(lines + [last], key, glob)
  {
    hide Names, Matches, Apply, Final, BeforeNamed, ValueOf, Named, NthWrite, WriteOf, Rank, Normalised;
    assert (lines + [last])[..|lines|] == lines;
    assert Run(lines + [last], glob) == Apply(Run(lines, glob), last, glob);
    hide Run;
    EntriesAreNamed(lines, glob);
    LineEffect(Run(lines, glob), last, key, glob);
    FinalSnoc(lines, last, key, glob);
  }

  /** Over a whole run, the last explicit line with a value decides; failing that, the last
      matching pattern before the first explicit line; failing that, the last matching pattern.
      `Final` says what is written then, and `NthIsValueIff` when that is the value. */
  lemma {:induction false} LastLineDecides(lines: seq<Loaded>, key: string, glob: Glob)
    ensures ValueOf(Run(lines, glob), key) == Final(lines, key, glob)
  {
    hide Names, Matches, Apply;
    if lines != [] {
      var before, last := lines[..|lines| - 1], lines[|lines| - 1];
      LastLineDecides(before, key, glob);
      OneMoreLineDecides(before, last, key, glob);
      assert before + [last] == lines;
      hide *;
    }
  }

  // ---- The loops that do this in place.

  lemma {:induction false} RunFromAppend(s: State, a: seq<Loaded>, b: seq<Loaded>, glob: Glob)
    ensures RunFrom(s, a + b, glob) == RunFrom(RunFrom(s, a, glob), b, glob)
    decreases |b|
  {
    if b == [] {
      assert a + b == a;
    } else {
      RunFromAppend(s, a, b[..|b| - 1], glob);
      assert (a + b)[..|a + b| - 1] == a + b[..|b| - 1];
    }
  }

  /** What the buffer holds after a line's value: a terminator for every blank stripped from the
      end, the line's own, and what is left there from earlier lines. */
  function Tail(line: string, leftover: string): string {
    Repeat(NUL, |line| - |TrimRight(line)|) + [NUL] + leftover
  }

  function LoadedLine(line: string, leftover: string): Loaded {
    Loaded(ParseLine(line), Tail(line, leftover))
  }

  function LoadedLines(lines: seq<string>, leftovers: seq<string>): (r: seq<Loaded>)
    requires |lines| == |leftovers|
    ensures |r| == |lines| && forall i :: 0 <= i < |r| ==> r[i] == LoadedLine(lines[i], leftovers[i])
  {
    seq(|lines|, i requires 0 <= i < |lines| => LoadedLine(lines[i], leftovers[i]))
  }

  /** So all of the first matches are written the value that fit the blanks at the end of the
      line, and no others unless what is left in the buffer starts with terminators. */
  lemma RoomOfLine(line: string, leftover: string)
    ensures Room(Tail(line, leftover)) == |line| - |TrimRight(line)| + 1 + Room(leftover)
  {
    var n := |line| - |TrimRight(line)| + 1;
    RoomOfRepeat(n, leftover);
    assert Repeat(NUL, n) + leftover == Tail(line, leftover);
  }

  lemma {:induction false} RoomOfRepeat(n: nat, rest: string)
    ensures Room(Repeat(NUL, n) + rest) == n + Room(rest)
  {
    var all := Repeat(NUL, n) + rest;
    if n == 0 {
      assert all == rest;
    } else {
      RoomOfRepeat(n - 1, rest);
      assert all[1..] == Repeat(NUL, n - 1) + rest;
    }
  }

  /** What is loaded for a setting whose value, if it has one, has the tail after it in the buffer. */
  function LoadSetting(s: State, setting: Line, tail: string, glob: Glob): State
    requires setting.Setting?
  {
    LoadOne(s, setting.name, if setting.value.Some? then Some(setting.value.value + tail) else None, glob)
  }

  /** A line that is a setting written out, in whatever layout, is loaded as that setting ... */
  lemma WrittenIsLoaded(s: State, line: string, leftover: string, glob: Glob, setting: Line, l: Layout)
    requires IsWritten(line, setting, l)
    ensures Apply(s, LoadedLine(line, leftover), glob) == LoadSetting(s, setting, Tail(line, leftover), glob)
  {
    ParseWritten(line, setting, l);
    hide LoadOne, ParseLine, Tail;
  }

  /** ... and any other line changes nothing. */
  lemma OthersChangeNothing(s: State, line: string, leftover: string, glob: Glob)
    requires forall setting, l :: !IsWritten(line, setting, l)
    ensures Apply(s, LoadedLine(line, leftover), glob) == s
  {
    if ParseLine(line).Setting? {
      ParseLineIff(line, ParseLine(line));
    }
    hide LoadOne, ParseLine, Tail, IsWritten;
  }

  /** So do blank lines and comments, lines with neither a sign nor a dash in front, and names that
      start with a separator. */
  lemma SkippedLines(s: State, line: string, leftover: string, glob: Glob, i: nat)
    requires i <= |line| && forall j :: 0 <= j < i ==> line[j] in BLANKS
    requires || i == |line| || line[i] == '#' || line[i] == ';' || line[i] == '/' || line[i] == '.'
             || ('=' !in line && line[i] != '-' && line[i] !in BLANKS)
    ensures Apply(s, LoadedLine(line, leftover), glob) == s
  {
    forall setting, l
      ensures !IsWritten(line, setting, l)
    {
      if IsWritten(line, setting, l) {
        WrittenStarts(line, setting, l);
        hide IsWritten;
        assert false;
      }
    }
    OthersChangeNothing(s, line, leftover, glob);
  }

  /** Where a setting that is written out starts, and with what. */
  lemma WrittenStarts(line: string, s: Line, l: Layout)
    requires IsWritten(line, s, l)
    ensures var i := |l.before|;
            && i < |line| && (forall j :: 0 <= j < i ==> line[j] in BLANKS) && line[i] !in BLANKS
            && (if s.optional then line[i] == '-' else line[i] == s.name[0] && '=' in line)
  {
    var i, out := |l.before|, Written(s, l.gap, l.left, l.right);
    assert line == l.before + (out + l.after);
    assert forall j :: 0 <= j < i ==> line[j] == l.before[j];
    assert out != "" && line[i] == out[0];
    if !s.optional {
      var k := |s.name + l.left|;
      assert out == s.name + (l.left + "=" + l.right + s.value.value);
      assert out[k] == '=';
      assert line[i + k] == out[k];
    }
  }

  /** `entries` and the parameters, as lines and files are loaded one after the other. */
  class Loader {
    var entries: set<string>
    var values: map<string, Output>

    function At(): State
      reads this
    {
      State(entries, values)
    }

    constructor ()
      ensures At() == Initial
    {
      entries, values := {}, map[];
    }

    /** Write the value at the start of the buffer to a parameter. */
    method WriteValue(key: string, buffer: array<char>)
      modifies this`values, buffer
      ensures values == old(values)[key := WriteOf(old(buffer[..]))]
      ensures buffer[..] == Overwritten(old(buffer[..]))
    {
      var vlen := 0;
      while vlen < buffer.Length && buffer[vlen] != NUL
        invariant vlen <= buffer.Length && forall j :: 0 <= j < vlen ==> buffer[j] != NUL
      {
        vlen := vlen + 1;
      }
      FindAt(buffer[..], NUL, vlen);
      if vlen == buffer.Length {
        values := values[key := PastBuffer];
        return;
      }
      values := values[key := Text(buffer[..vlen] + "\n")];
      assert buffer[..][..vlen] == buffer[..vlen];
      buffer[vlen] := '\n';
    }

    /** `load_sysctl`; the buffer starts with the value, if there is one. */
    method LoadSysctl(name: string, valued: bool, buffer: array<char>, glob: Glob)
      requires NUL !in name
      modifies this, buffer
      ensures At() == LoadOne(old(At()), name, if valued then Some(old(buffer[..])) else None, glob)
    {
      hide Normalised, WriteOf, Overwritten;
      var text := new char[|name| + 1](i => if 0 <= i < |name| then name[i] else NUL);
      assert text[..|name|] == name;
      NormaliseInPlace(text, |name|);
      var path := text[..|name|];
      if exists i :: 0 <= i < |path| && path[i] in GLOB_CHARS {
        if valued {
          LoadMatches(glob(path), buffer);
        }
        return;
      }
      entries := entries + {path};
      if valued {
        WriteValue(path, buffer);
      }
    }

    method LoadMatches(matches: seq<string>, buffer: array<char>)
      modifies this`values, buffer
      ensures At() == WriteMatches(old(At()), matches, old(buffer[..]))
    {
      hide WriteOf, Overwritten;
      ghost var was := buffer[..];
      var i := 0;
      while i < |matches|
        invariant i <= |matches| && entries == old(entries)
        invariant At() == WriteMatches(old(At()), matches[..i], was)
        invariant buffer[..] == Rewritten(was, Count(matches[..i], entries))
      {
        assert matches[..i + 1][..i] == matches[..i];
        if matches[i] !in entries {
          WriteValue(matches[i], buffer);
        }
        i := i + 1;
      }
      assert matches[..|matches|] == matches;
    }

    /** `load_conf`; `leftovers` is what the buffer holds after each line. */
    method LoadConf(lines: seq<string>, leftovers: seq<string>, glob: Glob)
      requires |lines| == |leftovers| && forall i :: 0 <= i < |lines| ==> NUL !in lines[i]
      modifies this
      ensures At() == RunFrom(old(At()), LoadedLines(lines, leftovers), glob)
    {
      hide LoadOne, ParseLine, Tail;
      ghost var all := LoadedLines(lines, leftovers);
      var i := 0;
      while i < |lines|
        invariant i <= |lines| && At() == RunFrom(old(At()), all[..i], glob)
      {
        var line := ParseLine(lines[i]);
        ParseKeeps(lines[i], NUL);
        assert all[..i + 1][..i] == all[..i] && all[i] == LoadedLine(lines[i], leftovers[i]);
        if line.Setting? {
          var content := if line.value.Some? then line.value.value + Tail(lines[i], leftovers[i]) else "";
          var buffer := new char[|content|](k requires 0 <= k < |content| => content[k]);
          assert buffer[..] == content;
          LoadSysctl(line.name, line.value.Some?, buffer, glob);
        }
        i := i + 1;
      }
      assert all[..|lines|] == all;
    }
  }
}
