/** The option string printed for mount helpers (early/helpers/mnt.cc), and when parsing it
    gives back what was printed. */
module MountPrinter {
  import opened Text
  import opened MountTable
  import opened MountOptions

  /** Whether the printer shows a row for these flags. */
  predicate Prints(o: MntOpt, flags: Flags) {
    && !o.invert
    && flags * o.flagset != {}
    && o.flagset != {Private} && o.flagset != {Shared} && o.flagset != {Slave} && o.flagset != {Unbindable}
    && (o.flagset == {Rec} ==> Bind in flags)
  }

  function PrintRows(table: seq<MntOpt>, flags: Flags, text: string): string {
    if table == [] then text
    else PrintRows(table[1..], flags, if Prints(table[0], flags) then AppendOption(text, table[0].name) else text)
  }

  /** The option string handed to a mount helper. */
  function Unparse(table: seq<MntOpt>, flags: Flags, extras: string): string {
    var text := PrintRows(table, flags, "");
    if extras == "" then text else AppendOption(text, extras)
  }

  method UnparseMntopts(flags: Flags, eopts: string) returns (ret: string)
    ensures ret == Unparse(KNOWN_OPTS, flags, eopts)
  {
    hide KNOWN_OPTS;
    ret := "";
    ghost var table := KNOWN_OPTS;
    for i := 0 to |KNOWN_OPTS|
      invariant PrintRows(table[i..], flags, ret) == PrintRows(table, flags, "")
    {
      var ko := KNOWN_OPTS[i];
      assert table[i..][0] == ko && table[i..][1..] == table[i + 1..];
      assert PrintRows(table[i..], flags, ret)
          == PrintRows(table[i + 1..], flags, if Prints(ko, flags) then AppendOption(ret, ko.name) else ret);
      if ko.invert || flags * ko.flagset == {} {
        continue;
      }
      if ko.flagset == {Private} || ko.flagset == {Shared} || ko.flagset == {Slave} || ko.flagset == {Unbindable} {
        continue;
      } else if ko.flagset == {Rec} {
        if Bind !in flags {
          continue;
        }
      }
      assert Prints(ko, flags);
      ghost var before := ret;
      if ret != "" {
        ret := ret + [','];
      }
      ret := ret + ko.name;
      assert ret == AppendOption(before, ko.name);
    }
    assert table[|table|..] == [];
    if eopts != "" {
      if ret != "" {
        ret := ret + [','];
      }
      ret := ret + eopts;
    }
  }

  // The round trip.

  ghost predicate AtMostOne(flags: Flags, group: Flags) {
    forall a, b :: a in flags && b in flags && a in group && b in group ==> a == b
  }

  ghost predicate UnknownOption(table: seq<MntOpt>, t: string) {
    t != "" && t != "defaults" && Search(table, t) == None
  }

  /** What the parser keeps: only bits of the table, at most one of bind, move and remount,
      at most one of noatime and relatime, and left-over text made of unknown options. */
  ghost predicate GoodFlags(flags: Flags) {
    && (forall n :: Other(n) !in flags)
    && AtMostOne(flags, MS_TMASK)
    && AtMostOne(flags, MS_AMASK)
  }

  ghost predicate GoodExtras(table: seq<MntOpt>, extras: string) {
    extras == "" || forall i :: 0 <= i < |Split(extras, ',')| ==> UnknownOption(table, Split(extras, ',')[i])
  }

  ghost predicate Good(table: seq<MntOpt>, p: Parsed) {
    GoodFlags(p.flags) && GoodExtras(table, p.extras)
  }

  const MISC_SETS: set<Flags> := {
    {Synchronous}, {Nodev}, {Nodiratime}, {Dirsync}, {Noexec}, {IVersion}, {Lazytime}, {Silent}, {Mandlock},
    {Strictatime}, {Nosuid}, {Nosymfollow}, {Rdonly}, {Private}, {Shared}, {Slave}, {Unbindable}}

  /** The kinds of rows: mount type, access time, recursive propagation, everything else. */
  ghost predicate GoodRow(o: MntOpt) {
    || (o.flagmask == MS_TMASK && !o.invert && o.flagset in {{Bind}, {Move}, {Remount}, {Bind, Rec}})
    || (o.flagmask == MS_AMASK && o.flagset in {{Noatime}, {Relatime}})
    || (o.flagmask == {Private} && o.flagset == {Private, Rec})
    || (o.flagmask == {Shared} && o.flagset == {Shared, Rec})
    || (o.flagmask == {Slave} && o.flagset == {Slave, Rec})
    || (o.flagmask == {Unbindable} && o.flagset == {Unbindable, Rec})
    || (o.flagmask == o.flagset && o.flagset in MISC_SETS)
  }

  lemma KnownRowsGood(i: nat)
    requires i < |KNOWN_OPTS|
    ensures GoodRow(KNOWN_OPTS[i])
  {
  }

  lemma GoodRowKeepsFlags(o: MntOpt, flags: Flags)
    requires GoodRow(o) && GoodFlags(flags)
    ensures GoodFlags(ApplyOpt(o, flags))
  {
    if o.flagmask == MS_TMASK {
      TypeRowKeepsFlags(o, flags);
    } else if o.flagmask == MS_AMASK {
      AccessRowKeepsFlags(o, flags);
    } else {
      assert o.flagset !! MS_TMASK && o.flagset !! MS_AMASK;
      hide GoodRow;
    }
  }

  lemma TypeRowKeepsFlags(o: MntOpt, flags: Flags)
    requires o.flagmask == MS_TMASK && !o.invert && o.flagset in {{Bind}, {Move}, {Remount}, {Bind, Rec}}
    requires GoodFlags(flags)
    ensures GoodFlags(ApplyOpt(o, flags))
  {
    assert o.flagset !! MS_AMASK;
  }

  lemma AccessRowKeepsFlags(o: MntOpt, flags: Flags)
    requires o.flagmask == MS_AMASK && o.flagset in {{Noatime}, {Relatime}} && GoodFlags(flags)
    ensures GoodFlags(ApplyOpt(o, flags))
  {
    assert o.flagset !! MS_TMASK;
  }

  lemma {:induction false} SplitAppendOption(text: string, option: string)
    requires text != "" && ',' !in option
    ensures Split(AppendOption(text, option), ',') == Split(text, ',') + [option]
  {
    SplitAppend(text, option, ',');
    SplitPiece(option, ',');
  }

  /** One token keeps the parser's invariant ... */
  lemma TokenKeepsGood(t: string, p: Parsed)
    requires Good(KNOWN_OPTS, p) && ',' !in t
    ensures Good(KNOWN_OPTS, ParseToken(KNOWN_OPTS, t, p))
  {
    var table := KNOWN_OPTS;
    hide KNOWN_OPTS, GoodRow, StrCmp;
    SearchSound(table, t);
    if t == "" {
    } else if Search(table, t).Some? {
      var i :| 0 <= i < |table| && Search(table, t) == Some(table[i]);
      KnownRowsGood(i);
      GoodRowKeepsFlags(table[i], p.flags);
    } else if t != "defaults" {
      if p.extras == "" { SplitPiece(t, ','); } else { SplitAppendOption(p.extras, t); }
      assert UnknownOption(table, t);
      assert GoodExtras(table, AppendOption(p.extras, t));
    }
  }

  /** ... and so does every option string. */
  lemma {:induction false} TokensKeepGood(ts: seq<string>, p: Parsed)
    requires Good(KNOWN_OPTS, p)
    requires forall i :: 0 <= i < |ts| ==> ',' !in ts[i]
    ensures Good(KNOWN_OPTS, ParseTokens(KNOWN_OPTS, ts, p))
  {
    hide KNOWN_OPTS, Good, ParseToken;
    if ts != [] {
      TokenKeepsGood(ts[0], p);
      TokensKeepGood(ts[1..], ParseToken(KNOWN_OPTS, ts[0], p));
    }
  }

  lemma EmptyParsesToNothing(table: seq<MntOpt>, p: Parsed)
    ensures Parse(table, "", p) == p
  {
    assert Split("", ',') == [""];
    assert ParseTokens(table, [""], p) == ParseTokens(table, [""][1..], ParseToken(table, "", p));
  }

  /** Parsing text with one more option is parsing the text and then the option. */
  lemma ParseAppendOption(table: seq<MntOpt>, text: string, option: string, p: Parsed)
    ensures Parse(table, AppendOption(text, option), p) == Parse(table, option, Parse(table, text, p))
  {
    if text == "" {
      EmptyParsesToNothing(table, p);
    } else {
      ParseAppend(table, text, option, p);
    }
  }

  /** Left-over text parses back to itself. */
  lemma {:induction false} ExtrasReparse(table: seq<MntOpt>, ts: seq<string>, k: nat, flags: Flags)
    requires 0 < k <= |ts|
    requires forall i :: 0 <= i < |ts| ==> UnknownOption(table, ts[i])
    ensures ParseTokens(table, ts[..k], Parsed(flags, "")) == Parsed(flags, Join(ts[..k], ','))
    ensures Join(ts[..k], ',') != ""
  {
    var p := Parsed(flags, "");
    assert ts[..k] == ts[..k - 1] + [ts[k - 1]];
    ParseTokensAppend(table, ts[..k - 1], [ts[k - 1]], p);
    assert UnknownOption(table, ts[k - 1]);
    var q := ParseTokens(table, ts[..k - 1], p);
    assert ParseTokens(table, [ts[k - 1]], q) == ParseToken(table, ts[k - 1], q) by {
      assert [ts[k - 1]][1..] == [];
    }
    if k > 1 {
      ExtrasReparse(table, ts, k - 1, flags);
      JoinSnoc(ts[..k - 1], ts[k - 1], ',');
    } else {
      assert ts[..0] == [];
    }
  }

  lemma GoodExtrasReparse(table: seq<MntOpt>, extras: string, flags: Flags)
    requires GoodExtras(table, extras)
    ensures Parse(table, extras, Parsed(flags, "")) == Parsed(flags, extras)
  {
    if extras == "" {
      EmptyParsesToNothing(table, Parsed(flags, ""));
    } else {
      var ts := Split(extras, ',');
      assert ts[..|ts|] == ts;
      ExtrasReparse(table, ts, |ts|, flags);
      JoinSplit(extras, ',');
    }
  }

  /** The flags the printed rows set when they are parsed again, row by row. */
  function ReprintRows(table: seq<MntOpt>, i: nat, flags: Flags, acc: Flags): Flags
    requires i <= |table|
    decreases |table| - i
  {
    if i == |table| then acc
    else ReprintRows(table, i + 1, flags, if Prints(table[i], flags) then ApplyOpt(table[i], acc) else acc)
  }

  ghost predicate PrintedRowsFound(table: seq<MntOpt>) {
    forall i :: 0 <= i < |table| && table[i].flagset != {Shared} && !table[i].invert ==>
      ',' !in table[i].name && table[i].name != "" && Search(table, table[i].name) == Some(table[i])
  }

  lemma {:induction false} RowsReparse(table: seq<MntOpt>, i: nat, flags: Flags, text: string, p: Parsed)
    requires i <= |table| && PrintedRowsFound(table)
    ensures Parse(table, PrintRows(table[i..], flags, text), p)
         == Parsed(ReprintRows(table, i, flags, Parse(table, text, p).flags), Parse(table, text, p).extras)
    decreases |table| - i
  {
    if i < |table| {
      var o := table[i];
      assert table[i..][0] == o && table[i..][1..] == table[i + 1..];
      if Prints(o, flags) {
        ParseAppendOption(table, text, o.name, p);
        SplitPiece(o.name, ',');
        var q := Parse(table, text, p);
        assert ParseTokens(table, [o.name], q) == ParseToken(table, o.name, q) by {
          assert [o.name][1..] == [];
        }
        RowsReparse(table, i + 1, flags, AppendOption(text, o.name), p);
      } else {
        RowsReparse(table, i + 1, flags, text, p);
      }
    }
  }

  /** Parsing a printed option string, for any table whose printed rows are found. */
  lemma UnparseReparse(table: seq<MntOpt>, flags: Flags, extras: string)
    requires PrintedRowsFound(table) && GoodExtras(table, extras)
    ensures Parse(table, Unparse(table, flags, extras), Parsed({}, ""))
         == Parsed(ReprintRows(table, 0, flags, {}), extras)
  {
    var text := PrintRows(table, flags, "");
    var start := Parsed({}, "");
    assert table[0..] == table;
    EmptyParsesToNothing(table, start);
    RowsReparse(table, 0, flags, "", start);
    if extras != "" {
      ParseAppendOption(table, text, extras, start);
      GoodExtrasReparse(table, extras, Parse(table, text, start).flags);
    }
  }
  // Every name is a plain word.

  lemma Plain0(i: nat)
    requires 0 <= i < 8
    ensures KNOWN_OPTS[i].name != "" && ',' !in KNOWN_OPTS[i].name
  {
  }

  lemma Plain8(i: nat)
    requires 8 <= i < 16
    ensures KNOWN_OPTS[i].name != "" && ',' !in KNOWN_OPTS[i].name
  {
  }

  lemma Plain16(i: nat)
    requires 16 <= i < 24
    ensures KNOWN_OPTS[i].name != "" && ',' !in KNOWN_OPTS[i].name
  {
  }

  lemma Plain24(i: nat)
    requires 24 <= i < 32
    ensures KNOWN_OPTS[i].name != "" && ',' !in KNOWN_OPTS[i].name
  {
  }

  lemma Plain32(i: nat)
    requires 32 <= i < 41
    ensures KNOWN_OPTS[i].name != "" && ',' !in KNOWN_OPTS[i].name
  {
  }

  lemma KnownRowsFound()
    ensures PrintedRowsFound(KNOWN_OPTS)
  {
    assert KNOWN_OPTS[SHARED].flagset == {Shared};
    forall i | 0 <= i < |KNOWN_OPTS| && i != SHARED
      ensures ',' !in KNOWN_OPTS[i].name && KNOWN_OPTS[i].name != "" && Search(KNOWN_OPTS, KNOWN_OPTS[i].name) == Some(KNOWN_OPTS[i])
    {
      RowFound(i);
      if i < 8 { Plain0(i); } else if i < 16 { Plain8(i); } else if i < 24 { Plain16(i); }
      else if i < 32 { Plain24(i); } else { Plain32(i); }
    }
  }

  // Which flags survive being printed and parsed again: each bit is settled by the rows
  // that print for these flags.

  /** A bit ends up set when every printing row that touches it sets it and one does. */
  lemma {:induction false} BitAgreed(table: seq<MntOpt>, i: nat, flags: Flags, acc: Flags, b: Bit)
    requires i <= |table|
    requires forall j :: i <= j < |table| && Prints(table[j], flags) && b in table[j].flagmask ==> b in table[j].flagset
    ensures b in ReprintRows(table, i, flags, acc)
       <==> b in acc || exists j :: i <= j < |table| && Prints(table[j], flags) && b in table[j].flagset
    decreases |table| - i
  {
    if i < |table| {
      BitAgreed(table, i + 1, flags, if Prints(table[i], flags) then ApplyOpt(table[i], acc) else acc, b);
    }
  }

  /** A bit ends up as the last printing row that touches it leaves it. */
  lemma {:induction false} BitDecided(table: seq<MntOpt>, i: nat, k: nat, flags: Flags, acc: Flags, b: Bit)
    requires i <= k < |table| && Prints(table[k], flags) && b in table[k].flagmask + table[k].flagset
    requires forall j :: k < j < |table| && Prints(table[j], flags) ==> b !in table[j].flagmask && b !in table[j].flagset
    ensures b in ReprintRows(table, i, flags, acc) <==> b in table[k].flagset
    decreases k - i
  {
    var next := if Prints(table[i], flags) then ApplyOpt(table[i], acc) else acc;
    if i < k { BitDecided(table, i + 1, k, flags, next, b); } else { BitAgreed(table, i + 1, flags, next, b); }
  }

  /** A bit no printing row sets stays clear. */
  lemma {:induction false} BitNever(table: seq<MntOpt>, i: nat, flags: Flags, acc: Flags, b: Bit)
    requires i <= |table| && b !in acc
    requires forall j :: i <= j < |table| && Prints(table[j], flags) ==> b !in table[j].flagset
    ensures b !in ReprintRows(table, i, flags, acc)
    decreases |table| - i
  {
    if i < |table| {
      BitNever(table, i + 1, flags, if Prints(table[i], flags) then ApplyOpt(table[i], acc) else acc, b);
    }
  }

  /** A row that shows the bit when it is set. */
  function RowOf(b: Bit): nat
    requires !b.Other?
  {
    match b
    case Bind => 2 case Dirsync => 5 case IVersion => 7 case Lazytime => 8 case Mandlock => 10
    case Move => 11 case Noatime => 12 case Nodev => 13 case Nodiratime => 14 case Noexec => 15
    case Nosuid => 21 case Nosymfollow => 22 case Rec => 24 case Relatime => 25 case Remount => 26
    case Rdonly => 27 case Private => 28 case Shared => 29 case Slave => 30 case Unbindable => 31
    case Silent => 33 case Strictatime => 36 case Synchronous => 39
  }

  function RowBits(b: Bit): Flags {
    if b in PROPAGATION then {b, Rec} else if b == Rec then {Bind, Rec} else {b}
  }

  ghost predicate ShownByRow(table: seq<MntOpt>, b: Bit) {
    !b.Other? && RowOf(b) < |table| && table[RowOf(b)].flagset == RowBits(b) && !table[RowOf(b)].invert
  }

  lemma Shown0(b: Bit)
    requires !b.Other? && 0 <= RowOf(b) < 11
    ensures ShownByRow(KNOWN_OPTS, b)
  {
  }

  lemma Shown11(b: Bit)
    requires !b.Other? && 11 <= RowOf(b) < 15
    ensures ShownByRow(KNOWN_OPTS, b)
  {
  }

  lemma Shown15(b: Bit)
    requires !b.Other? && 15 <= RowOf(b) < 25
    ensures ShownByRow(KNOWN_OPTS, b)
  {
  }

  lemma Shown25(b: Bit)
    requires !b.Other? && 25 <= RowOf(b) < 30
    ensures ShownByRow(KNOWN_OPTS, b)
  {
  }

  lemma Shown30(b: Bit)
    requires !b.Other? && 30 <= RowOf(b) < 41
    ensures ShownByRow(KNOWN_OPTS, b)
  {
  }

  lemma LateRows(j: nat)
    requires 24 < j < |KNOWN_OPTS| && j != 26
    ensures KNOWN_OPTS[j].flagset !! MS_TMASK && KNOWN_OPTS[j].flagmask !! MS_TMASK
  {
  }

  /** What the proof below needs to know of a table. */
  ghost predicate GoodTable(table: seq<MntOpt>) {
    && |table| == 41
    && (forall j :: 0 <= j < |table| ==> GoodRow(table[j]))
    && (forall j :: 24 < j < |table| && j != 26 ==> table[j].flagset !! MS_TMASK && table[j].flagmask !! MS_TMASK)
    && (forall b: Bit :: !b.Other? ==> ShownByRow(table, b))
    && table[24].flagmask == MS_TMASK && table[26].flagmask == MS_TMASK
  }

  lemma KnownTableGood()
    ensures GoodTable(KNOWN_OPTS)
  {
    hide GoodRow;
    forall j | 0 <= j < |KNOWN_OPTS| ensures GoodRow(KNOWN_OPTS[j]) { KnownRowsGood(j); }
    forall j | 24 < j < |KNOWN_OPTS| && j != 26
      ensures KNOWN_OPTS[j].flagset !! MS_TMASK && KNOWN_OPTS[j].flagmask !! MS_TMASK
    {
      LateRows(j);
    }
    forall b: Bit | !b.Other? ensures ShownByRow(KNOWN_OPTS, b) { RowShowsBit(b); }
  }

  /** Which bits a row can touch. */
  lemma RowWrites(o: MntOpt, b: Bit)
    requires GoodRow(o)
    ensures b in o.flagset && b != Rec && b !in PROPAGATION && (b == Bind ==> Rec !in o.flagset) ==> o.flagset == {b}
    ensures b in o.flagset && b in PROPAGATION ==> o.flagset == {b} || o.flagset == {b, Rec}
    ensures Rec in o.flagset ==> o.flagset <= {Rec, Bind} + PROPAGATION
    ensures Bind in o.flagset ==> o.flagset <= {Bind, Rec}
    ensures b !in MS_TMASK + MS_AMASK && b in o.flagmask ==> b in o.flagset
    ensures b in MS_AMASK && b in o.flagmask ==> o.flagset <= MS_AMASK
    ensures b in MS_TMASK && b in o.flagmask ==> o.flagset * MS_TMASK != {}
  {
    if o.flagmask == MS_TMASK {
    } else if o.flagmask == MS_AMASK {
    } else if o.flagmask in {{Private}, {Shared}, {Slave}, {Unbindable}} {
    } else {
    }
  }

  /** ... and which a printing row can, given the flags that make it print. */
  lemma PrintedRowWrites(o: MntOpt, flags: Flags, b: Bit)
    requires GoodRow(o) && Prints(o, flags) && GoodFlags(flags)
    ensures b in o.flagset && b != Rec && b != Bind ==> b in flags || (b in PROPAGATION && Rec in flags)
    ensures Bind in o.flagset ==> Bind in flags || Rec in flags
    ensures Rec in o.flagset ==> Rec in flags || Bind in flags || flags * PROPAGATION != {}
    ensures b !in MS_TMASK && b in o.flagmask && (b in MS_AMASK ==> b in flags) ==> b in o.flagset
    ensures b in MS_TMASK && b in o.flagmask ==> o.flagset * MS_TMASK != {}
  {
    var shown :| shown in flags * o.flagset;
    RowWrites(o, b);
    RowWrites(o, shown);
    hide GoodRow, Prints;
    if b in MS_AMASK && b in o.flagmask && b in flags { assert shown in MS_AMASK; }
  }

  lemma RowShowsBit(b: Bit)
    requires !b.Other?
    ensures ShownByRow(KNOWN_OPTS, b)
  {
    hide ShownByRow;
    if RowOf(b) < 11 { Shown0(b); } else if RowOf(b) < 15 { Shown11(b); }
    else if RowOf(b) < 25 { Shown15(b); } else if RowOf(b) < 30 { Shown25(b); } else { Shown30(b); }
  }

  /** What printing and parsing again makes of a flag word. */
  function Reparsed(flags: Flags): Flags {
    (flags - MS_TMASK - {Rec} - PROPAGATION)
    + (if Rec in flags then PROPAGATION else flags * PROPAGATION)
    + (if flags * ({Bind, Rec} + PROPAGATION) != {} then {Rec} else {})
    + (if Remount in flags then {Remount} else if flags * {Bind, Rec} != {} then {Bind} else flags * {Move})
  }

  lemma RowPrints(table: seq<MntOpt>, flags: Flags, b: Bit)
    requires GoodTable(table) && !b.Other? && flags * RowBits(b) != {}
    ensures Prints(table[RowOf(b)], flags) && table[RowOf(b)].flagset == RowBits(b)
  {
    assert ShownByRow(table, b);
  }

  /** The printed mount type: remount wins, then (r)bind, then move. */
  lemma TypeBitReparsed(table: seq<MntOpt>, flags: Flags, b: Bit)
    requires GoodTable(table) && GoodFlags(flags) && b in MS_TMASK
    ensures b in ReprintRows(table, 0, flags, {}) <==>
      b == if Remount in flags then Remount else if flags * {Bind, Rec} != {} then Bind else if Move in flags then Move else Rec
  {
    if Remount in flags {
      RowPrints(table, flags, Remount);
      hide ReprintRows, GoodRow, Prints;
      BitDecided(table, 0, 26, flags, {}, b);
    } else {
      TypeBitWithoutRemount(table, flags, b);
    }
  }

  /** Without remount only (r)bind rows set bind, and only a set bit is set otherwise. */
  lemma TypeRowsWrite(table: seq<MntOpt>, flags: Flags, b: Bit)
    requires GoodTable(table) && GoodFlags(flags) && b in MS_TMASK && Remount !in flags
    ensures forall j :: 0 <= j < |table| && Prints(table[j], flags) ==>
      && (b in table[j].flagset && b != Bind ==> b in flags)
      && (Bind in table[j].flagset ==> Bind in flags || Rec in flags)
      && (j > 24 ==> b !in table[j].flagset && b !in table[j].flagmask)
  {
    assert ShownByRow(table, Remount);
    forall j | 0 <= j < |table| && Prints(table[j], flags)
      ensures b in table[j].flagset && b != Bind ==> b in flags
      ensures Bind in table[j].flagset ==> Bind in flags || Rec in flags
      ensures j > 24 ==> b !in table[j].flagset && b !in table[j].flagmask
    {
      PrintedRowWrites(table[j], flags, b);
    }
  }

  lemma TypeBitWithoutRemount(table: seq<MntOpt>, flags: Flags, b: Bit)
    requires GoodTable(table) && GoodFlags(flags) && b in MS_TMASK && Remount !in flags
    ensures b in ReprintRows(table, 0, flags, {}) <==>
      b == if flags * {Bind, Rec} != {} then Bind else if Move in flags then Move else Rec
  {
    TypeRowsWrite(table, flags, b);
    if flags * {Bind, Rec} != {} {
      BindReparsed(table, flags, b);
    } else if b == Move && Move in flags {
      MoveReparsed(table, flags);
    } else {
      hide ReprintRows, GoodRow, Prints, GoodTable, GoodFlags;
      BitNever(table, 0, flags, {}, b);
    }
  }

  lemma BindReparsed(table: seq<MntOpt>, flags: Flags, b: Bit)
    requires GoodTable(table) && GoodFlags(flags) && b in MS_TMASK && Remount !in flags && flags * {Bind, Rec} != {}
    ensures b in ReprintRows(table, 0, flags, {}) <==> b == Bind
  {
    TypeRowsWrite(table, flags, b);
    RowPrints(table, flags, Rec);
    hide ReprintRows, GoodRow, Prints, GoodFlags;
    if b == Remount { BitNever(table, 0, flags, {}, b); } else { BitDecided(table, 0, 24, flags, {}, b); }
  }

  lemma MoveReparsed(table: seq<MntOpt>, flags: Flags)
    requires GoodTable(table) && Move in flags && flags * {Bind, Rec, Remount} == {}
    ensures Move in ReprintRows(table, 0, flags, {})
  {
    RowPrints(table, flags, Move);
    forall j | 0 <= j < |table| && Prints(table[j], flags) ensures Move in table[j].flagmask ==> Move in table[j].flagset {
      MoveRowSetsMove(table[j], flags);
    }
    hide ReprintRows, GoodRow, Prints, GoodTable;
    BitAgreed(table, 0, flags, {}, Move);
  }

  lemma MoveRowSetsMove(o: MntOpt, flags: Flags)
    requires GoodRow(o) && Prints(o, flags) && flags * {Bind, Rec, Remount} == {}
    ensures Move in o.flagmask ==> Move in o.flagset
  {
    var shown :| shown in flags * o.flagset;
  }

  ghost predicate OtherBitExpected(flags: Flags, b: Bit) {
    if b == Rec then flags * ({Bind, Rec} + PROPAGATION) != {} else b in flags || (b in PROPAGATION && Rec in flags)
  }

  lemma OtherRowsWrite(table: seq<MntOpt>, flags: Flags, b: Bit)
    requires GoodTable(table) && GoodFlags(flags) && b !in MS_TMASK
    ensures forall j :: 0 <= j < |table| && Prints(table[j], flags) ==>
      && (b in table[j].flagset ==> OtherBitExpected(flags, b))
      && (b in table[j].flagmask && OtherBitExpected(flags, b) ==> b in table[j].flagset)
  {
    forall j | 0 <= j < |table| && Prints(table[j], flags)
      ensures b in table[j].flagset ==> OtherBitExpected(flags, b)
      ensures b in table[j].flagmask && OtherBitExpected(flags, b) ==> b in table[j].flagset
    {
      PrintedRowWrites(table[j], flags, b);
    }
  }

  lemma OtherBitShown(table: seq<MntOpt>, flags: Flags, b: Bit)
    requires GoodTable(table) && GoodFlags(flags) && OtherBitExpected(flags, b)
    ensures exists j :: 0 <= j < |table| && Prints(table[j], flags) && b in table[j].flagset
  {
    if b == Rec {
      var x :| x in flags * ({Bind, Rec} + PROPAGATION);
      var shown := if x == Bind then Rec else x;
      RowPrints(table, flags, shown);
      hide GoodTable, Prints;
      assert Rec in RowBits(shown);
    } else {
      RowPrints(table, flags, b);
      hide GoodTable, Prints;
      assert b in RowBits(b);
    }
  }

  lemma OtherBitReparsed(table: seq<MntOpt>, flags: Flags, b: Bit)
    requires GoodTable(table) && GoodFlags(flags) && b !in MS_TMASK
    ensures b in ReprintRows(table, 0, flags, {}) <==> OtherBitExpected(flags, b)
  {
    OtherRowsWrite(table, flags, b);
    if OtherBitExpected(flags, b) { OtherBitShown(table, flags, b); }
    hide *;
    if OtherBitExpected(flags, b) {
      BitAgreed(table, 0, flags, {}, b);
    } else {
      BitNever(table, 0, flags, {}, b);
    }
  }

  lemma FlagsReparse(flags: Flags)
    requires GoodFlags(flags)
    ensures ReprintRows(KNOWN_OPTS, 0, flags, {}) == Reparsed(flags)
  {
    var table := KNOWN_OPTS;
    KnownTableGood();
    hide KNOWN_OPTS, GoodTable, ReprintRows;
    forall b: Bit ensures b in ReprintRows(table, 0, flags, {}) <==> b in Reparsed(flags) {
      if b in MS_TMASK { TypeBitReparsed(table, flags, b); } else { OtherBitReparsed(table, flags, b); }
    }
  }

  /** When flags survive the trip through a helper's option string. */
  ghost predicate RoundTrips(flags: Flags) {
    || flags * ({Bind, Rec} + PROPAGATION) == {}
    || ({Rec} + PROPAGATION <= flags && (Bind in flags || Remount in flags))
  }

  lemma ReparsedIsSameIff(flags: Flags)
    requires GoodFlags(flags)
    ensures Reparsed(flags) == flags <==> RoundTrips(flags)
  {
    var r := Reparsed(flags);
    if RoundTrips(flags) {
      forall b: Bit ensures b in r <==> b in flags {
      }
      assert r == flags;
    } else if Rec in flags {
      if PROPAGATION <= flags {
        assert Bind in r && Bind !in flags;
      } else {
        var b :| b in PROPAGATION && b !in flags;
        assert b in r;
      }
    } else {
      assert Rec in r;
    }
  }

  /** Everything the parser can produce keeps its left-over text and turns its flags into
      `Reparsed`; it comes back unchanged in exactly the cases `RoundTrips` names. */
  lemma PrintThenParse(opts: string, start: Flags)
    requires GoodFlags(start)
    ensures var p := Parse(KNOWN_OPTS, opts, Parsed(start, ""));
            var q := Parse(KNOWN_OPTS, Unparse(KNOWN_OPTS, p.flags, p.extras), Parsed({}, ""));
            q == Parsed(Reparsed(p.flags), p.extras) && (q == p <==> RoundTrips(p.flags))
  {
    TokensKeepGood(Split(opts, ','), Parsed(start, ""));
    var p := Parse(KNOWN_OPTS, opts, Parsed(start, ""));
    KnownRowsFound();
    UnparseReparse(KNOWN_OPTS, p.flags, p.extras);
    FlagsReparse(p.flags);
    ReparsedIsSameIff(p.flags);
  }
}
