/** The in-place scan of the kernel command line (early/helpers/kmod.cc): it ends each
    element with a NUL inside the buffer it is still reading and keeps pointers into it. */
module CmdlineScanner {
  import opened Text
  import opened CmdlineSpec

  const BUFFER_SIZE: nat := 4097

  // The C string functions the scanner calls, on a buffer that ends with a NUL.

  ghost predicate Terminated(b: seq<char>) {
    |b| > 0 && b[|b| - 1] == NUL
  }

  /** `p + strcspn(p, stop)`: the first stop character or the end of the string. */
  function CSpan(b: seq<char>, p: nat, stop: set<char>): (e: nat)
    requires Terminated(b) && p < |b|
    ensures p <= e < |b| && (b[e] == NUL || b[e] in stop)
    ensures forall k :: p <= k < e ==> b[k] != NUL && b[k] !in stop
    decreases |b| - p
  {
    if b[p] == NUL || b[p] in stop then p else CSpan(b, p + 1, stop)
  }

  /** The string a pointer denotes. */
  function CString(b: seq<char>, p: nat): string
    requires Terminated(b) && p < |b|
  {
    b[p..CSpan(b, p, {})]
  }

  /** `strstr(p, "module")`. */
  function StrStrModule(b: seq<char>, p: nat): (r: Option<nat>)
    requires Terminated(b) && p < |b|
    ensures r.Some? ==> p <= r.value < |b| && ModuleAt(b, r.value)
    ensures forall k :: p <= k < (if r.Some? then r.value else CSpan(b, p, {})) ==> !ModuleAt(b, k)
    ensures r.Some? ==> r.value < CSpan(b, p, {})
    decreases |b| - p
  {
    if b[p] == NUL then None
    else if ModuleAt(b, p) then Some(p)
    else StrStrModule(b, p + 1)
  }

  /** `!strncmp(p, lit, n)`: equal up to `n` characters or the common end. */
  predicate StrNCmpEqual(b: seq<char>, p: nat, lit: string, n: nat)
    requires Terminated(b) && p < |b|
    decreases n
  {
    n == 0
    || (b[p] == (if lit == "" then NUL else lit[0]) && (lit == "" || (b[p] != NUL && StrNCmpEqual(b, p + 1, lit[1..], n - 1))))
  }

  lemma {:induction false} StrNCmpIsPrefix(b: seq<char>, p: nat, lit: string, n: nat)
    requires Terminated(b) && p + n < |b| && NUL !in b[p..p + n]
    ensures StrNCmpEqual(b, p, lit, n) <==> b[p..p + n] <= lit
    decreases n
  {
    if n > 0 {
      assert b[p..p + n] == [b[p]] + b[p + 1..p + n];
      if lit != "" {
        StrNCmpIsPrefix(b, p + 1, lit[1..], n - 1);
        assert lit == [lit[0]] + lit[1..];
      }
    }
  }

  /** A `string_view` into the buffer. */
  datatype View = View(start: nat, length: nat)

  ghost predicate Denotes(b: seq<char>, o: nat, name: string) {
    o + |name| < |b| && b[o..o + |name|] == name && b[o + |name|] == NUL && NUL !in name
  }

  ghost predicate ViewOk(b: seq<char>, v: View, p: nat) {
    v.start + v.length <= p && v.start + v.length < |b| && Denotes(b, v.start, b[v.start..v.start + v.length])
  }

  function Content(b: seq<char>, v: View): string
    requires v.start + v.length < |b|
  {
    b[v.start..v.start + v.length]
  }

  ghost predicate LoadsRecorded(b: seq<char>, mods: seq<nat>, names: seq<string>, p: nat) {
    && |mods| == |names|
    && forall i :: 0 <= i < |mods| ==> Denotes(b, mods[i], names[i]) && mods[i] + |names[i]| <= p
  }

  /** The blacklist holds each name once. */
  ghost predicate BlacklistRecorded(b: seq<char>, bl: seq<View>, names: set<string>, p: nat) {
    && (forall i :: 0 <= i < |bl| ==> ViewOk(b, bl[i], p))
    && (forall i :: 0 <= i < |bl| ==> Content(b, bl[i]) in names)
    && (forall x :: x in names ==> exists i :: 0 <= i < |bl| && Content(b, bl[i]) == x)
    && (forall i, j :: 0 <= i < j < |bl| ==> Content(b, bl[i]) != Content(b, bl[j]))
  }

  /** Every pointer recorded so far denotes the element it was recorded for, and lies
      before the cursor with its NUL at the cursor at the latest. */
  ghost predicate Recorded(b: seq<char>, mods: seq<nat>, bl: seq<View>, done: seq<Item>, p: nat) {
    LoadsRecorded(b, mods, Loads(done), p) && BlacklistRecorded(b, bl, Blacklisted(done), p)
  }

  /** From the cursor on the buffer still holds the line. */
  ghost predicate Unread(b: seq<char>, line: string, p: nat) {
    && |line| < |b|
    && (forall k :: p <= k < |line| ==> b[k] == line[k])
    && (forall k :: |line| <= k < |b| ==> b[k] == NUL)
  }

  lemma DenotesKept(b: seq<char>, w: nat, o: nat, name: string)
    requires Denotes(b, o, name) && o + |name| < w < |b|
    ensures Denotes(b[w := NUL], o, name)
  {
    assert b[w := NUL][o..o + |name|] == b[o..o + |name|];
  }

  /** A NUL written after the cursor leaves every recorded pointer alone. */
  lemma RecordedKept(b: seq<char>, mods: seq<nat>, bl: seq<View>, done: seq<Item>, p: nat, w: nat)
    requires Recorded(b, mods, bl, done, p) && p < w < |b|
    ensures Recorded(b[w := NUL], mods, bl, done, w)
  {
    var names, c := Loads(done), b[w := NUL];
    forall i | 0 <= i < |mods| ensures Denotes(c, mods[i], names[i]) {
      DenotesKept(b, w, mods[i], names[i]);
    }
    forall i | 0 <= i < |bl| ensures ViewOk(c, bl[i], w) && Content(c, bl[i]) == Content(b, bl[i]) {
      DenotesKept(b, w, bl[i].start, Content(b, bl[i]));
    }
    forall x | x in Blacklisted(done) ensures exists i :: 0 <= i < |bl| && Content(c, bl[i]) == x {
      var i :| 0 <= i < |bl| && Content(b, bl[i]) == x;
      assert Content(c, bl[i]) == x;
    }
  }

  lemma LoadRecorded(b: seq<char>, mods: seq<nat>, bl: seq<View>, done: seq<Item>, p: nat, name: string)
    requires Recorded(b, mods, bl, done, p + |name|) && Denotes(b, p, name)
    ensures Recorded(b, mods + [p], bl, done + [Load(name)], p + |name|)
  {
    LoadsAppend(done, [Load(name)]);
    assert [Load(name)][1..] == [];
    assert Loads([Load(name)]) == [name];
    BlacklistedAppend(done, [Load(name)]);
    assert Blacklisted([Load(name)]) == {};
    assert Blacklisted(done + [Load(name)]) == Blacklisted(done);
  }

  /** `emplace`: nothing is added when an equal view is there already. */
  function Emplace(b: seq<char>, bl: seq<View>, v: View): seq<View>
    requires v.start + v.length < |b|
    requires forall i :: 0 <= i < |bl| ==> bl[i].start + bl[i].length < |b|
  {
    if exists i :: 0 <= i < |bl| && Content(b, bl[i]) == Content(b, v) then bl else bl + [v]
  }

  lemma BlacklistedSnoc(done: seq<Item>, name: string)
    ensures Loads(done + [Blacklist(name)]) == Loads(done)
    ensures Blacklisted(done + [Blacklist(name)]) == Blacklisted(done) + {name}
  {
    LoadsAppend(done, [Blacklist(name)]);
    assert [Blacklist(name)][1..] == [];
    BlacklistedAppend(done, [Blacklist(name)]);
    assert [Blacklist(name)][0].name == name;
    assert Blacklisted([Blacklist(name)]) == {name};
  }

  lemma EmplaceRecorded(b: seq<char>, bl: seq<View>, names: set<string>, v: View, p: nat, name: string)
    requires BlacklistRecorded(b, bl, names, p) && ViewOk(b, v, p) && Content(b, v) == name
    ensures BlacklistRecorded(b, Emplace(b, bl, v), names + {name}, p)
  {
    hide Denotes;
    var next := Emplace(b, bl, v);
    forall x | x in names + {name} ensures exists i :: 0 <= i < |next| && Content(b, next[i]) == x {
      if x in names {
        var i :| 0 <= i < |bl| && Content(b, bl[i]) == x;
        assert Content(b, next[i]) == x;
      } else if next != bl {
        assert Content(b, next[|bl|]) == name;
      }
    }
  }

  lemma NameBlacklisted(b: seq<char>, mods: seq<nat>, bl: seq<View>, done: seq<Item>, p: nat, name: string)
    requires Recorded(b, mods, bl, done, p + |name|) && Denotes(b, p, name)
    ensures Recorded(b, mods, Emplace(b, bl, View(p, |name|)), done + [Blacklist(name)], p + |name|)
  {
    BlacklistedSnoc(done, name);
    EmplaceRecorded(b, bl, Blacklisted(done), View(p, |name|), p + |name|, name);
  }

  // One list of elements: from the cursor to the end of the word.

  function ListFrom(line: string, p: nat): seq<string>
    requires p <= |line|
  {
    Elements(line[p..WordEnd(line, p)])
  }

  function Tagged(load: bool, names: seq<string>): seq<Item> {
    if load then AllLoad(names) else AllBlacklist(names)
  }

  lemma ListStep(line: string, p: nat, q: nat)
    requires p <= q <= |line|
    requires forall k :: p <= k < q ==> line[k] != ',' && line[k] != ' '
    requires q < |line| ==> line[q] == ',' || line[q] == ' '
    ensures q == p ==> ListFrom(line, p) == []
    ensures q > p && q < |line| && line[q] == ',' ==>
      WordEnd(line, q + 1) == WordEnd(line, p) && ListFrom(line, p) == [line[p..q]] + ListFrom(line, q + 1)
    ensures q > p && (q == |line| || line[q] == ' ') ==> WordEnd(line, p) == q && ListFrom(line, p) == [line[p..q]]
  {
    var e := WordEnd(line, p);
    SplitPiece(line[p..q], ',');
    WordEndPast(line, p, q);
    if q < |line| && line[q] == ',' {
      assert line[p..e] == line[p..q] + [','] + line[q + 1..e];
      SplitAppend(line[p..q], line[q + 1..e], ',');
      WordEndPast(line, p, q + 1);
      assert ([line[p..q]] + Split(line[q + 1..e], ','))[1..] == Split(line[q + 1..e], ',');
    } else {
      assert e == q;
      assert [line[p..q]][1..] == [];
      assert UpToEmpty([line[p..q]][1..]) == [];
    }
  }

  lemma {:induction false} WordEndPast(line: string, p: nat, q: nat)
    requires p <= q <= |line| && forall k :: p <= k < q ==> line[k] != ' '
    ensures WordEnd(line, p) == WordEnd(line, q)
    decreases q - p
  {
    if p < q { WordEndPast(line, p + 1, q); }
  }

  /** The scanner's invariant at cursor `p`. */
  ghost predicate Scanned(b: seq<char>, line: string, mods: seq<nat>, bl: seq<View>, done: seq<Item>, p: nat) {
    p <= |line| && NUL !in line && Terminated(b) && Unread(b, line, p) && Recorded(b, mods, bl, done, p)
  }

  /** A span of the buffer from the cursor is a span of the line. */
  lemma SpanInLine(b: seq<char>, line: string, mods: seq<nat>, bl: seq<View>, done: seq<Item>, p: nat, stop: set<char>)
    requires Scanned(b, line, mods, bl, done, p)
    ensures p <= |line| < |b| && Terminated(b)
    ensures CSpan(b, p, stop) <= |line| && b[p..CSpan(b, p, stop)] == line[p..CSpan(b, p, stop)]
    ensures CSpan(b, p, stop) < |line| ==> line[CSpan(b, p, stop)] in stop
    ensures forall k :: p <= k < CSpan(b, p, stop) ==> line[k] !in stop
    ensures b[CSpan(b, p, stop)] == if CSpan(b, p, stop) < |line| then line[CSpan(b, p, stop)] else NUL
  {
    var e := CSpan(b, p, stop);
    assert b[|line|] == NUL;
    assert forall k :: p <= k < e ==> b[k] == line[k];
  }

  function ItemFor(load: bool, name: string): Item {
    if load then Load(name) else Blacklist(name)
  }

  lemma RecordedLater(b: seq<char>, mods: seq<nat>, bl: seq<View>, done: seq<Item>, p: nat, q: nat)
    requires Recorded(b, mods, bl, done, p) && p <= q
    ensures Recorded(b, mods, bl, done, q)
  {
    hide Denotes, Loads, Blacklisted;
  }

  lemma ViewsFit(b: seq<char>, mods: seq<nat>, bl: seq<View>, done: seq<Item>, p: nat)
    requires Recorded(b, mods, bl, done, p)
    ensures forall i :: 0 <= i < |bl| ==> bl[i].start + bl[i].length < |b|
  {
    hide Denotes, Loads, Blacklisted;
  }

  /** A NUL at the end of an element leaves the line after it as it is. */
  lemma CutUnread(b: seq<char>, line: string, p: nat, e: nat)
    requires Unread(b, line, p) && Terminated(b) && NUL !in line && p < e <= |line|
    ensures Terminated(b[e := NUL]) && Unread(b[e := NUL], line, if e < |line| then e + 1 else e)
    ensures Denotes(b[e := NUL], p, line[p..e])
  {
    var c := b[e := NUL];
    assert c[p..e] == line[p..e];
  }

  /** Ending the element at the cursor with a NUL and recording where it starts. */
  lemma ElementRecorded(b: seq<char>, line: string, mods: seq<nat>, bl: seq<View>, done: seq<Item>, p: nat, e: nat)
    requires Scanned(b, line, mods, bl, done, p) && p < e <= |line|
    ensures forall i :: 0 <= i < |bl| ==> bl[i].start + bl[i].length < |b|
    ensures Scanned(b[e := NUL], line, mods + [p], bl, done + [Load(line[p..e])], if e < |line| then e + 1 else e)
    ensures Scanned(b[e := NUL], line, mods, Emplace(b[e := NUL], bl, View(p, e - p)), done + [Blacklist(line[p..e])],
                    if e < |line| then e + 1 else e)
  {
    var c, name := b[e := NUL], line[p..e];
    var q := if e < |line| then e + 1 else e;
    CutUnread(b, line, p, e);
    RecordedKept(b, mods, bl, done, p, e);
    ViewsFit(b, mods, bl, done, p);
    hide Recorded, Denotes, Unread, Terminated, Emplace;
    LoadRecorded(c, mods, bl, done, p, name);
    RecordedLater(c, mods + [p], bl, done + [Load(name)], e, q);
    NameBlacklisted(c, mods, bl, done, p, name);
    RecordedLater(c, mods, Emplace(c, bl, View(p, e - p)), done + [Blacklist(name)], e, q);
  }

  lemma TaggedUnfold(load: bool, done: seq<Item>, name: string, names: seq<string>)
    ensures done + Tagged(load, []) == done
    ensures done + Tagged(load, [name] + names) == done + [ItemFor(load, name)] + Tagged(load, names)
    ensures done + Tagged(load, [name]) == done + [ItemFor(load, name)]
  {
    assert ([name] + names)[1..] == names;
    assert [name][1..] == [];
    assert Tagged(load, [name]) == [ItemFor(load, name)] + Tagged(load, []);
  }

  /** Between two cursors some separators were replaced by NULs, and nothing else changed. */
  ghost predicate OnlyCut(before: seq<char>, after: seq<char>, from: nat, to: nat) {
    && |before| == |after|
    && forall k :: 0 <= k < |after| ==>
      after[k] == before[k] || (from <= k < to && after[k] == NUL && before[k] in {',', ' '})
  }

  lemma OnlyCutOne(b: seq<char>, p: nat, e: nat)
    requires p <= e < |b| && (b[e] == NUL || b[e] in {',', ' '})
    ensures OnlyCut(b, b[e := NUL], p, if b[e] == NUL then e else e + 1)
  {
  }

  lemma OnlyCutThen(a: seq<char>, b: seq<char>, c: seq<char>, from: nat, p: nat, q: nat)
    requires OnlyCut(a, b, from, p) && OnlyCut(b, c, p, q) && from <= p <= q
    ensures OnlyCut(a, c, from, q)
  {
  }

  /** What the span `p..e` up to a separator means for the list at `p`: nothing more when it
      is empty, one of several elements before a comma, the last one otherwise. */
  ghost predicate ElementAt(line: string, p: nat, e: nat) {
    && 0 < p <= e <= |line| && line[p - 1] in {'=', ','}
    && (forall k :: p <= k < e ==> line[k] != ',' && line[k] != ' ')
    && (e < |line| ==> line[e] in {',', ' '})
  }

  /** The list goes on at `p`: one element of the list at `start` has been passed. */
  ghost predicate Continues(line: string, load: bool, start: nat, done: seq<Item>, p: nat, done': seq<Item>) {
    && start < p <= |line| && line[p - 1] == ',' && WordEnd(line, p) == WordEnd(line, start)
    && done' + Tagged(load, ListFrom(line, p)) == done + Tagged(load, ListFrom(line, start))
  }

  /** The list at `start` is done: what follows `p` is what follows its word. */
  ghost predicate Finishes(line: string, load: bool, start: nat, done: seq<Item>, p: nat, done': seq<Item>) {
    && 0 < start <= p <= |line| && done' == done + Tagged(load, ListFrom(line, start))
    && ItemsFrom(line, p) == ItemsFrom(line, WordEnd(line, start) + 1) && (line[p - 1] == ' ' || !ModuleAt(line, p))
  }

  lemma NotModule(line: string, p: nat)
    requires p < |line| ==> line[p] != 'm'
    ensures !ModuleAt(line, p)
  {
    assert "module"[0] == 'm';
  }

  lemma EmptyElement(line: string, load: bool, done: seq<Item>, p: nat)
    requires ElementAt(line, p, p)
    ensures Finishes(line, load, p, done, p, done)
  {
    hide ItemsFrom, ListFrom, WordEnd, ModuleAt, Tagged;
    ListStep(line, p, p);
    ItemsFromUnfold(line, p);
    TaggedUnfold(load, done, "", []);
    NotModule(line, p);
  }

  lemma InnerElement(line: string, load: bool, done: seq<Item>, p: nat, e: nat)
    requires ElementAt(line, p, e) && p < e < |line| && line[e] == ','
    ensures Continues(line, load, p, done, e + 1, done + [ItemFor(load, line[p..e])])
  {
    ListStep(line, p, e);
    TaggedUnfold(load, done, line[p..e], ListFrom(line, e + 1));
  }

  lemma LastElement(line: string, load: bool, done: seq<Item>, p: nat, e: nat)
    requires ElementAt(line, p, e) && p < e && (e == |line| || line[e] == ' ')
    ensures Finishes(line, load, p, done, if e < |line| then e + 1 else e, done + [ItemFor(load, line[p..e])])
  {
    hide ItemsFrom, ListFrom, ModuleAt, Tagged;
    ListStep(line, p, e);
    TaggedUnfold(load, done, line[p..e], []);
    if e == |line| {
      NotModule(line, e);
      ItemsFromUnfold(line, e);
      assert WordEnd(line, e) == e;
    }
  }

  /** `Continues` and `Finishes` chain. */
  lemma Chain(line: string, load: bool, start: nat, done: seq<Item>, p: nat, done': seq<Item>, q: nat, done'': seq<Item>)
    requires 0 < start && Continues(line, load, start, done, p, done')
    ensures Continues(line, load, p, done', q, done'') ==> Continues(line, load, start, done, q, done'')
    ensures Finishes(line, load, p, done', q, done'') ==> Finishes(line, load, start, done, q, done'')
  {
    hide ItemsFrom, ListFrom, WordEnd, Tagged, ModuleAt;
  }

  lemma OnlyCutNone(b: seq<char>, p: nat)
    ensures OnlyCut(b, b, p, p)
  {
  }

  /** One element: it is ended with a NUL in place and its position kept. The list goes on
      after a comma; it ends after a space, at an empty element or at the end of the line. */
  method ScanElement(kerncmd: array<char>, start: nat, load: bool, mods: seq<nat>, bl: seq<View>,
                     ghost line: string, ghost done: seq<Item>)
    returns (p: nat, mods': seq<nat>, bl': seq<View>, more: bool, ghost done': seq<Item>)
    requires Scanned(kerncmd[..], line, mods, bl, done, start) && 0 < start <= |line| && line[start - 1] in {'=', ','}
    modifies kerncmd
    ensures start <= p <= |line| && Scanned(kerncmd[..], line, mods', bl', done', p)
    ensures OnlyCut(old(kerncmd[..]), kerncmd[..], start, p)
    ensures if more then Continues(line, load, start, done, p, done') else Finishes(line, load, start, done, p, done')
  {
    ghost var b := kerncmd[..];
    SpanInLine(b, line, mods, bl, done, start, {',', ' '});
    p, mods', bl', done' := start, mods, bl, done;
    var e := CSpan(kerncmd[..], p, {',', ' '});
    var w := e - p;
    assert ElementAt(line, p, e);
    OnlyCutOne(b, p, e);
    hide Scanned, CSpan, OnlyCut, Terminated, Emplace, ElementAt, Continues, Finishes;
    if w == 0 {
      EmptyElement(line, load, done, p);
      OnlyCutNone(b, start);
      return p, mods', bl', false, done';
    }
    ElementRecorded(b, line, mods, bl, done, p, e);
    var c := kerncmd[e];
    kerncmd[e] := NUL;
    assert kerncmd[..] == b[e := NUL];
    ghost var next := if e < |line| then e + 1 else e;
    done' := done' + [ItemFor(load, line[p..e])];
    if load {
      mods' := mods' + [p];
      assert Scanned(kerncmd[..], line, mods', bl', done', next);
    } else {
      bl' := Emplace(kerncmd[..], bl', View(p, e - p));
      assert Scanned(kerncmd[..], line, mods', bl', done', next);
    }
    if c == ',' {
      InnerElement(line, load, done, p, e);
      return p + w + 1, mods', bl', true, done';
    } else if c == ' ' {
      LastElement(line, load, done, p, e);
      return p + w + 1, mods', bl', false, done';
    }
    LastElement(line, load, done, p, e);
    return p + w, mods', bl', false, done';
  }

  /** One list. */
  method ScanList(kerncmd: array<char>, start: nat, load: bool, mods: seq<nat>, bl: seq<View>,
                  ghost line: string, ghost done: seq<Item>)
    returns (p: nat, mods': seq<nat>, bl': seq<View>, ghost done': seq<Item>)
    requires Scanned(kerncmd[..], line, mods, bl, done, start) && 0 < start <= |line| && line[start - 1] == '='
    modifies kerncmd
    ensures start <= p <= |line| && Scanned(kerncmd[..], line, mods', bl', done', p)
    ensures OnlyCut(old(kerncmd[..]), kerncmd[..], start, p)
    ensures Finishes(line, load, start, done, p, done')
  {
    ghost var before := kerncmd[..];
    var more;
    p, mods', bl', more, done' := ScanElement(kerncmd, start, load, mods, bl, line, done);
    while more
      invariant start <= p <= |line| && Scanned(kerncmd[..], line, mods', bl', done', p)
      invariant OnlyCut(before, kerncmd[..], start, p)
      invariant if more then Continues(line, load, start, done, p, done') else Finishes(line, load, start, done, p, done')
      decreases more, |line| - p
    {
      ghost var b, from, soFar := kerncmd[..], p, done';
      assert line[p - 1] == ',';
      hide Scanned, OnlyCut, Finishes;
      p, mods', bl', more, done' := ScanElement(kerncmd, p, load, mods', bl', line, done');
      OnlyCutThen(before, b, kerncmd[..], start, from, p);
      Chain(line, load, start, done, from, soFar, p, done');
    }
  }

  /** The bytes read, without a final newline. */
  function LineOf(read: string): string {
    if read != "" && read[|read| - 1] == '\n' then read[..|read| - 1] else read
  }

  /** A final newline changes nothing of what the line asks for. */
  lemma NewlineChangesNothing(line: string)
    requires line == "" || line[|line| - 1] != '\n'
    ensures Items(LineOf(line + "\n")) == Items(LineOf(line)) == Items(line)
  {
    hide Items;
    assert (line + "\n")[..|line|] == line;
  }

  lemma {:induction false} DenotesIsCString(b: seq<char>, o: nat, name: string)
    requires Terminated(b) && Denotes(b, o, name)
    ensures CString(b, o) == name
  {
    assert forall k :: o <= k < o + |name| ==> b[k] == name[k - o];
    assert b[o + |name|] == NUL;
  }

  /** The items a key selects. */
  function KeyItems(key: string, names: seq<string>): seq<Item> {
    if key <= "modules_load" || key <= "modules-load" then Tagged(true, names)
    else if key <= "module_blacklist" then Tagged(false, names)
    else []
  }

  lemma WordItemsOfKey(word: string, e: nat)
    requires e < |word| && Find(word, '=') == e && "module" <= word[..e]
    ensures WordItems(word) == KeyItems(word[..e], Elements(word[e + 1..]))
  {
    hide Find, Elements, AllLoad, AllBlacklist;
  }

  /** What one "module" at a word start leads to: the key decides, as in the word's items. */
  lemma KeyDecides(line: string, p: nat, e: nat)
    requires p <= e < |line| && ModuleAt(line, p) && line[e] == '='
    requires forall k :: p <= k < e ==> line[k] != '=' && line[k] != ' '
    ensures WordItems(line[p..WordEnd(line, p)]) == KeyItems(line[p..e], ListFrom(line, e + 1))
    ensures WordEnd(line, e + 1) == WordEnd(line, p)
  {
    WordEndPast(line, p, e + 1);
    ModuleKey(line, p, e);
    hide WordEnd, ModuleAt, Elements, KeyItems, WordItems, Find;
    var w, k := WordEnd(line, p), e - p;
    var word := line[p..w];
    FindAt(word, '=', k);
    assert word[..k] == line[p..e];
    assert word[k + 1..] == line[e + 1..w];
    WordItemsOfKey(word, k);
  }

  lemma ModuleKey(line: string, p: nat, e: nat)
    requires p <= e < |line| && ModuleAt(line, p) && line[e] == '='
    ensures "module" <= line[p..e]
  {
    assert forall k :: 0 <= k < 6 ==> line[p + k] == "module"[k] && "module"[k] != '=';
    assert e >= p + 6;
    assert line[p..e][..6] == line[p..p + 6];
  }

  /** A word without `=` asks for nothing. */
  lemma NoKey(line: string, p: nat, e: nat)
    requires p <= e <= |line| && (e < |line| ==> line[e] == ' ')
    requires forall k :: p <= k < e ==> line[k] != '=' && line[k] != ' '
    ensures WordEnd(line, p) == e && WordItems(line[p..e]) == []
  {
    WordEndPast(line, p, e);
    var f := Find(line[p..e], '=');
    assert forall k :: 0 <= k < e - p ==> line[p..e][k] == line[p + k];
  }

  lemma ScannedLater(b: seq<char>, line: string, mods: seq<nat>, bl: seq<View>, done: seq<Item>, p: nat, q: nat)
    requires Scanned(b, line, mods, bl, done, p) && p <= q <= |line|
    ensures Scanned(b, line, mods, bl, done, q)
  {
  }

  /** The byte before the cursor tells whether a word starts there: it is the line's own, or
      a NUL that replaced a space or stands where no keyword can follow. */
  ghost predicate Cursor(b: seq<char>, line: string, p: nat) {
    && p <= |line| < |b|
    && (p == 0 || b[p - 1] == line[p - 1] || (b[p - 1] == NUL && (line[p - 1] == ' ' || !ModuleAt(line, p))))
  }

  /** The invariant of the whole scan: the items found and the items still ahead are the items
      of the line. */
  ghost predicate Invariant(b: seq<char>, line: string, mods: seq<nat>, bl: seq<View>, done: seq<Item>, p: nat) {
    && Scanned(b, line, mods, bl, done, p) && Cursor(b, line, p)
    && done + ItemsFrom(line, p) == Items(line)
  }

  lemma ModuleAtUnread(b: seq<char>, line: string, p: nat, k: nat)
    requires Unread(b, line, p) && p <= k <= |line| && NUL !in line
    ensures ModuleAt(b, k) <==> ModuleAt(line, k)
  {
    if k + 6 <= |line| {
      assert b[k..k + 6] == line[k..k + 6];
    } else if k + 6 <= |b| {
      assert b[k..k + 6][|line| - k] == NUL;
      assert forall i :: 0 <= i < 6 ==> "module"[i] != NUL;
    }
  }

  /** Moving to the next "module" passes over nothing; without one nothing is ahead. */
  lemma SearchKeepsInvariant(b: seq<char>, line: string, mods: seq<nat>, bl: seq<View>, done: seq<Item>, p: nat)
    requires Invariant(b, line, mods, bl, done, p)
    ensures p < |b| && Terminated(b)
    ensures var r := StrStrModule(b, p);
      if r == None then done == Items(line)
      else r.value < |line| && ModuleAt(line, r.value) && Invariant(b, line, mods, bl, done, r.value)
  {
    SpanInLine(b, line, mods, bl, done, p, {});
    var r := StrStrModule(b, p);
    var q := if r == None then |line| else r.value;
    forall k | p <= k < q ensures !ModuleAt(line, k) { ModuleAtUnread(b, line, p, k); }
    ModuleAtUnread(b, line, p, q);
    PassOverTo(line, p, q);
    if r == None {
      NotModule(line, q);
      PassOver(line, q);
      assert ItemsFrom(line, |line| + 1) == [];
    } else {
      ScannedLater(b, line, mods, bl, done, p, q);
    }
  }

  /** The test on the byte before: it tells exactly whether a word starts here. */
  lemma StartTest(b: seq<char>, line: string, p: nat)
    requires Cursor(b, line, p) && ModuleAt(line, p) && NUL !in line
    ensures AtStart(line, p) <==> p == 0 || b[p - 1] == NUL || b[p - 1] == ' '
  {
  }

  /** Inside a word the scanner jumps over the keyword. */
  lemma SkipKeepsInvariant(b: seq<char>, line: string, mods: seq<nat>, bl: seq<View>, done: seq<Item>, p: nat)
    requires Invariant(b, line, mods, bl, done, p) && ModuleAt(line, p) && !AtStart(line, p)
    ensures Invariant(b, line, mods, bl, done, p + 6)
  {
    assert forall k :: 0 <= k < 6 ==> line[p + k] == line[p..p + 6][k] && "module"[k] != ' ';
    PassOverTo(line, p, p + 6);
    ScannedLater(b, line, mods, bl, done, p, p + 6);
  }

  /** A word that asks for nothing is left behind. */
  lemma WordKeepsInvariant(b: seq<char>, line: string, mods: seq<nat>, bl: seq<View>, done: seq<Item>, p: nat, q: nat)
    requires Invariant(b, line, mods, bl, done, p) && p < q <= |line| && ItemsFrom(line, q) == ItemsFrom(line, p)
    ensures Invariant(b, line, mods, bl, done, q)
  {
    ScannedLater(b, line, mods, bl, done, p, q);
    hide ItemsFrom, ModuleAt, Recorded, Items;
  }

  /** The word without `=` before the space at `e`. */
  lemma PlainWordPassed(line: string, p: nat, e: nat, q: nat)
    requires p <= e < |line| && q == e + 1 && AtStart(line, p) && line[e] == ' '
    requires forall k :: p <= k < e ==> line[k] != '=' && line[k] != ' '
    ensures ItemsFrom(line, q) == ItemsFrom(line, p)
  {
    hide ItemsFrom, WordItems, WordEnd, Find;
    NoKey(line, p, e);
    var w := WordEnd(line, p) + 1;
    assert w == q;
    ItemsFromUnfold(line, p);
    assert [] + ItemsFrom(line, w) == ItemsFrom(line, w);
  }

  /** The last word, without `=`. */
  lemma LastWordPassed(line: string, p: nat)
    requires p <= |line| && AtStart(line, p)
    requires forall k :: p <= k < |line| ==> line[k] != '=' && line[k] != ' '
    ensures ItemsFrom(line, p) == []
  {
    NoKey(line, p, |line|);
    ItemsFromUnfold(line, p);
  }

  /** A word with a key that is none of the three. */
  lemma OtherKeyPassed(line: string, p: nat, e: nat)
    requires p <= e < |line| && AtStart(line, p) && line[e] == '=' && WordItems(line[p..WordEnd(line, p)]) == []
    requires WordEnd(line, e + 1) == WordEnd(line, p)
    ensures ItemsFrom(line, e + 1) == ItemsFrom(line, p)
  {
    hide WordItems, WordEnd, ItemsFrom;
    ItemsFromUnfold(line, p);
    ItemsFromUnfold(line, e + 1);
    assert [] + ItemsFrom(line, WordEnd(line, p) + 1) == ItemsFrom(line, WordEnd(line, p) + 1);
  }

  /** A list that was read to its end leaves the rest of the line ahead. */
  lemma ListKeepsInvariant(b: seq<char>, c: seq<char>, line: string, mods: seq<nat>, bl: seq<View>, load: bool,
                           done: seq<Item>, p: nat, start: nat, q: nat, done': seq<Item>)
    requires p < start <= q <= |line| && AtStart(line, p) && done + ItemsFrom(line, p) == Items(line)
    requires WordItems(line[p..WordEnd(line, p)]) == Tagged(load, ListFrom(line, start))
    requires WordEnd(line, start) == WordEnd(line, p)
    requires Unread(b, line, p) && OnlyCut(b, c, start, q) && Finishes(line, load, start, done, q, done')
    requires Scanned(c, line, mods, bl, done', q)
    ensures Invariant(c, line, mods, bl, done', q)
  {
    hide ListFrom, Tagged, WordItems, WordEnd, ItemsFrom, Items, ModuleAt, Recorded;
    ItemsFromUnfold(line, p);
    assert done + Tagged(load, ListFrom(line, start)) + ItemsFrom(line, q)
        == done + (Tagged(load, ListFrom(line, start)) + ItemsFrom(line, q));
    assert b[q - 1] == line[q - 1];
  }

  lemma OnlyCutWider(a: seq<char>, b: seq<char>, from: nat, p: nat, q: nat)
    requires OnlyCut(a, b, from, p) && p <= q
    ensures OnlyCut(a, b, 0, q)
  {
  }

  /** Reading `e - p` characters as a key. */
  lemma KeyTests(b: seq<char>, line: string, mods: seq<nat>, bl: seq<View>, done: seq<Item>, p: nat, e: nat)
    requires Scanned(b, line, mods, bl, done, p) && p <= e < |line|
    ensures p < |b| && Terminated(b)
    ensures StrNCmpEqual(b, p, "modules_load", e - p) <==> line[p..e] <= "modules_load"
    ensures StrNCmpEqual(b, p, "modules-load", e - p) <==> line[p..e] <= "modules-load"
    ensures StrNCmpEqual(b, p, "module_blacklist", e - p) <==> line[p..e] <= "module_blacklist"
  {
    assert b[p..e] == line[p..e] && p + (e - p) == e;
    StrNCmpIsPrefix(b, p, "modules_load", e - p);
    StrNCmpIsPrefix(b, p, "modules-load", e - p);
    StrNCmpIsPrefix(b, p, "module_blacklist", e - p);
  }

  ghost predicate Finished(b: seq<char>, line: string, mods: seq<nat>, bl: seq<View>, done: seq<Item>) {
    Terminated(b) && done == Items(line) && Recorded(b, mods, bl, done, |line|)
  }

  /** What one turn of the scan at `p` leads to: the end, or a later cursor. */
  ghost predicate Turn(b: seq<char>, c: seq<char>, line: string, mods: seq<nat>, bl: seq<View>, done: seq<Item>,
                       p: nat, next: Option<nat>)
  {
    match next
    case None => Finished(c, line, mods, bl, done) && OnlyCut(b, c, 0, |line|)
    case Some(q) => p < q <= |line| && Invariant(c, line, mods, bl, done, q) && OnlyCut(b, c, 0, q)
  }

  lemma NothingAhead(b: seq<char>, line: string, mods: seq<nat>, bl: seq<View>, done: seq<Item>, p: nat)
    requires Scanned(b, line, mods, bl, done, p) && done == Items(line)
    ensures Turn(b, b, line, mods, bl, done, p, None)
  {
    ScannedLater(b, line, mods, bl, done, p, |line|);
    OnlyCutNone(b, 0);
    OnlyCutWider(b, b, 0, 0, |line|);
  }

  lemma LastWordTurn(b: seq<char>, line: string, mods: seq<nat>, bl: seq<View>, done: seq<Item>, p: nat)
    requires Invariant(b, line, mods, bl, done, p) && AtStart(line, p)
    requires forall k :: p <= k < |line| ==> line[k] != '=' && line[k] != ' '
    ensures Turn(b, b, line, mods, bl, done, p, None)
  {
    LastWordPassed(line, p);
    hide ItemsFrom, Turn, Items;
    assert done + [] == done;
    NothingAhead(b, line, mods, bl, done, p);
  }

  lemma PassedTurn(b: seq<char>, line: string, mods: seq<nat>, bl: seq<View>, done: seq<Item>, p: nat, q: nat)
    requires Invariant(b, line, mods, bl, done, p) && p < q <= |line| && ItemsFrom(line, q) == ItemsFrom(line, p)
    ensures Turn(b, b, line, mods, bl, done, p, Some(q))
  {
    WordKeepsInvariant(b, line, mods, bl, done, p, q);
    OnlyCutNone(b, 0);
    OnlyCutWider(b, b, 0, 0, q);
  }

  lemma ListTurn(b: seq<char>, c: seq<char>, line: string, mods: seq<nat>, bl: seq<View>, mods': seq<nat>, bl': seq<View>,
                 load: bool, done: seq<Item>, p: nat, start: nat, q: nat, done': seq<Item>)
    requires Invariant(b, line, mods, bl, done, p) && AtStart(line, p) && p < start <= q <= |line|
    requires WordItems(line[p..WordEnd(line, p)]) == Tagged(load, ListFrom(line, start))
    requires WordEnd(line, start) == WordEnd(line, p)
    requires OnlyCut(b, c, start, q) && Finishes(line, load, start, done, q, done')
    requires Scanned(c, line, mods', bl', done', q)
    ensures Turn(b, c, line, mods', bl', done', p, Some(q))
  {
    hide WordItems, WordEnd, Tagged, ListFrom, Finishes, ItemsFrom, Items;
    ListKeepsInvariant(b, c, line, mods', bl', load, done, p, start, q, done');
    OnlyCutWider(b, c, start, q, q);
  }

  /** One parameter whose word starts at `p`: it is skipped, or its list is read. Nothing is
      returned when no useful data is left. */
  method ScanWord(kerncmd: array<char>, p: nat, mods: seq<nat>, bl: seq<View>, ghost line: string, ghost done: seq<Item>)
    returns (next: Option<nat>, mods': seq<nat>, bl': seq<View>, ghost done': seq<Item>)
    requires Invariant(kerncmd[..], line, mods, bl, done, p) && p < |line| && ModuleAt(line, p) && AtStart(line, p)
    modifies kerncmd
    ensures Turn(old(kerncmd[..]), kerncmd[..], line, mods', bl', done', p, next)
  {
    mods', bl', done' := mods, bl, done;
    ghost var b := kerncmd[..];
    SpanInLine(b, line, mods, bl, done, p, {'=', ' '});
    var e := CSpan(kerncmd[..], p, {'=', ' '});
    var q := e + 1;
    hide Turn, ItemsFrom, ModuleAt, CSpan, Cursor, Items;
    if kerncmd[e] == NUL {
      LastWordTurn(b, line, mods, bl, done, p);
      return None, mods', bl', done';
    }
    if kerncmd[e] == ' ' {
      PlainWordPassed(line, p, e, q);
      PassedTurn(b, line, mods, bl, done, p, q);
      return Some(q), mods', bl', done';
    }
    KeyTests(b, line, mods, bl, done, p, e);
    KeyDecides(line, p, e);
    var load := false;
    if StrNCmpEqual(kerncmd[..], p, "modules_load", e - p) || StrNCmpEqual(kerncmd[..], p, "modules-load", e - p) {
      load := true;
    } else if !StrNCmpEqual(kerncmd[..], p, "module_blacklist", e - p) {
      OtherKeyPassed(line, p, e);
      PassedTurn(b, line, mods, bl, done, p, q);
      return Some(q), mods', bl', done';
    }
    ScannedLater(b, line, mods, bl, done, p, q);
    assert WordItems(line[p..WordEnd(line, p)]) == Tagged(load, ListFrom(line, q));
    hide StrNCmpEqual, WordEnd, WordItems, KeyItems, ListFrom, Tagged;
    var after;
    after, mods', bl', done' := ScanList(kerncmd, q, load, mods, bl, line, done);
    ListTurn(b, kerncmd[..], line, mods, bl, mods', bl', load, done, p, q, after, done');
    next := Some(after);
  }

  /** Without another "module" ahead the scan is over. */
  lemma SearchEnds(b: seq<char>, line: string, mods: seq<nat>, bl: seq<View>, done: seq<Item>, p: nat)
    requires Invariant(b, line, mods, bl, done, p) && done == Items(line)
    ensures Turn(b, b, line, mods, bl, done, p, None)
  {
    hide Items, ItemsFrom, Recorded, Unread, Turn;
    NothingAhead(b, line, mods, bl, done, p);
  }

  /** Inside a word, the scan goes on after the keyword. */
  lemma SkipTurn(b: seq<char>, line: string, mods: seq<nat>, bl: seq<View>, done: seq<Item>, from: nat, p: nat)
    requires Invariant(b, line, mods, bl, done, p) && ModuleAt(line, p) && !AtStart(line, p) && from <= p
    ensures Turn(b, b, line, mods, bl, done, from, Some(p + 6))
  {
    SkipKeepsInvariant(b, line, mods, bl, done, p);
    OnlyCutNone(b, 0);
    assert p + 6 <= |line|;
    OnlyCutWider(b, b, 0, 0, p + 6);
    hide Invariant, Recorded;
  }

  lemma TurnEarlier(b: seq<char>, c: seq<char>, line: string, mods: seq<nat>, bl: seq<View>, done: seq<Item>,
                    from: nat, p: nat, next: Option<nat>)
    requires Turn(b, c, line, mods, bl, done, p, next) && from <= p
    ensures Turn(b, c, line, mods, bl, done, from, next)
  {
    hide Invariant, Finished, OnlyCut;
  }

  /** One turn of the outer loop: the next "module" is looked for, and skipped inside a word or
      read as the start of one. */
  method ScanTurn(kerncmd: array<char>, from: nat, mods: seq<nat>, bl: seq<View>, ghost line: string, ghost done: seq<Item>)
    returns (next: Option<nat>, mods': seq<nat>, bl': seq<View>, ghost done': seq<Item>)
    requires Invariant(kerncmd[..], line, mods, bl, done, from)
    modifies kerncmd
    ensures Turn(old(kerncmd[..]), kerncmd[..], line, mods', bl', done', from, next)
  {
    ghost var b := kerncmd[..];
    mods', bl', done' := mods, bl, done;
    SearchKeepsInvariant(b, line, mods, bl, done, from);
    hide ItemsFrom, Items, Turn, Recorded;
    var found := StrStrModule(kerncmd[..], from);
    if found == None {
      SearchEnds(b, line, mods, bl, done, from);
      return None, mods, bl, done;
    }
    var p := found.value;
    StartTest(b, line, p);
    if p != 0 && kerncmd[p - 1] != NUL && kerncmd[p - 1] != ' ' {
      SkipTurn(b, line, mods, bl, done, from, p);
      return Some(p + 6), mods, bl, done;
    }
    next, mods', bl', done' := ScanWord(kerncmd, p, mods, bl, line, done);
    TurnEarlier(b, kerncmd[..], line, mods', bl', done', from, p, next);
  }

  lemma ScanStarts(b: seq<char>, line: string)
    requires NUL !in line && Unread(b, line, 0)
    ensures Invariant(b, line, [], [], [], 0) && OnlyCut(b, b, 0, 0)
  {
    ItemsFromZero(line);
    assert [] + ItemsFrom(line, 0) == Items(line);
    OnlyCutNone(b, 0);
    hide ItemsFrom, Items;
  }

  lemma TurnAdvances(b: seq<char>, c: seq<char>, line: string, mods: seq<nat>, bl: seq<View>, done: seq<Item>,
                     p: nat, next: Option<nat>)
    requires Turn(b, c, line, mods, bl, done, p, next)
    ensures next.Some? ==> p < next.value <= |line|
  {
    hide Invariant, Finished, OnlyCut;
  }

  /** The scan from the start of a buffer that holds the line. */
  method ScanLine(kerncmd: array<char>, ghost line: string) returns (cmdlMods: seq<nat>, kernBl: seq<View>)
    requires NUL !in line && Unread(kerncmd[..], line, 0)
    modifies kerncmd
    ensures Finished(kerncmd[..], line, cmdlMods, kernBl, Items(line))
    ensures OnlyCut(old(kerncmd[..]), kerncmd[..], 0, |line|)
  {
    ghost var before := kerncmd[..];
    ghost var done: seq<Item> := [];
    cmdlMods, kernBl := [], [];
    var p := 0;
    ScanStarts(before, line);
    hide Invariant, Items, Turn, OnlyCut, Finished, Unread;
    while true
      invariant p <= |line| && Invariant(kerncmd[..], line, cmdlMods, kernBl, done, p)
      invariant OnlyCut(before, kerncmd[..], 0, p)
      decreases |line| - p
    {
      ghost var b, from := kerncmd[..], p;
      var next;
      next, cmdlMods, kernBl, done := ScanTurn(kerncmd, p, cmdlMods, kernBl, line, done);
      TurnAdvances(b, kerncmd[..], line, cmdlMods, kernBl, done, from, next);
      TurnComposes(before, b, kerncmd[..], line, cmdlMods, kernBl, done, from, from, next);
      if next == None {
        return;
      }
      p := next.value;
    }
  }

  lemma TurnComposes(a: seq<char>, b: seq<char>, c: seq<char>, line: string, mods: seq<nat>, bl: seq<View>, done: seq<Item>,
                     from: nat, p: nat, next: Option<nat>)
    requires OnlyCut(a, b, 0, from) && from <= p <= |line| && Turn(b, c, line, mods, bl, done, p, next)
    ensures match next
      case None => Finished(c, line, mods, bl, done) && done == Items(line) && OnlyCut(a, c, 0, |line|)
      case Some(q) => p < q <= |line| && Invariant(c, line, mods, bl, done, q) && OnlyCut(a, c, 0, q)
  {
    hide Invariant, Recorded, Items;
    OnlyCutWider(a, b, 0, from, p);
  }

  /** Scanning the command line in place finds exactly the items of its words; at the end
      every recorded pointer and view still denotes the element it was recorded for, the
      blacklist holds each name once, and only separators have been overwritten. */
  method ScanCmdline(kerncmd: array<char>, len: nat) returns (cmdlMods: seq<nat>, kernBl: seq<View>)
    requires kerncmd.Length == BUFFER_SIZE && len < BUFFER_SIZE
    requires forall k :: 0 <= k < BUFFER_SIZE ==> (kerncmd[k] == NUL <==> len <= k)
    modifies kerncmd
    ensures var line := LineOf(old(kerncmd[..len])); Finished(kerncmd[..], line, cmdlMods, kernBl, Items(line))
    ensures forall k :: 0 <= k < BUFFER_SIZE ==>
      kerncmd[k] == old(kerncmd[k]) || (kerncmd[k] == NUL && old(kerncmd[k]) in {',', ' ', '\n'})
  {
    var n := len;
    if len > 0 && kerncmd[len - 1] == '\n' {
      n := len - 1;
      kerncmd[n] := NUL;
    }
    ghost var line := kerncmd[..n];
    assert line == LineOf(old(kerncmd[..len]));
    assert forall k :: 0 <= k < n ==> line[k] != NUL;
    ghost var start := kerncmd[..];
    assert Unread(start, line, 0);
    hide Unread, Items, Finished;
    cmdlMods, kernBl := ScanLine(kerncmd, line);
    forall k | 0 <= k < BUFFER_SIZE
      ensures kerncmd[k] == old(kerncmd[k]) || (kerncmd[k] == NUL && old(kerncmd[k]) in {',', ' ', '\n'})
    {
      assert kerncmd[..][k] == kerncmd[k] && start[k] in {old(kerncmd[k]), NUL};
    }
  }

  /** What the module loader later reads through the pointers and views. */
  lemma PointersDenote(b: seq<char>, line: string, mods: seq<nat>, bl: seq<View>)
    requires Finished(b, line, mods, bl, Items(line))
    ensures forall i :: 0 <= i < |mods| ==> mods[i] < |b| && CString(b, mods[i]) == Loads(Items(line))[i]
    ensures |mods| == |Loads(Items(line))|
    ensures forall i :: 0 <= i < |bl| ==> bl[i].start + bl[i].length < |b| && CString(b, bl[i].start) == Content(b, bl[i])
    ensures forall x :: x in Blacklisted(Items(line)) <==> exists i :: 0 <= i < |bl| && bl[i].start < |b| && CString(b, bl[i].start) == x
  {
    hide Items, Loads, Blacklisted;
    forall i | 0 <= i < |mods| ensures mods[i] < |b| && CString(b, mods[i]) == Loads(Items(line))[i] {
      DenotesIsCString(b, mods[i], Loads(Items(line))[i]);
    }
    forall i | 0 <= i < |bl| ensures ViewOk(b, bl[i], |line|) && CString(b, bl[i].start) == Content(b, bl[i]) {
      DenotesIsCString(b, bl[i].start, Content(b, bl[i]));
    }
  }
}
