/** What single mount options mean (early/helpers/mnt.cc): an option and its opposite write the same
    bit, and the recursive forms add one bit to the plain ones. */
module MountMeaning {
  import opened Text
  import opened MountTable
  import opened MountOptions

  /** An option that sets a bit, one that clears it, and their rows in the table. */
  datatype Opposite = Opposite(sets: string, clears: string, bit: Bit, row: nat, opposite: nat)

  const OPPOSITES: seq<Opposite> := [
    Opposite("ro", "rw", Rdonly, 27, 32),
    Opposite("sync", "async", Synchronous, 39, 0),
    Opposite("nodev", "dev", Nodev, 13, 3),
    Opposite("noexec", "exec", Noexec, 15, 6),
    Opposite("nosuid", "suid", Nosuid, 21, 37),
    Opposite("nosymfollow", "symfollow", Nosymfollow, 22, 38),
    Opposite("noatime", "atime", Noatime, 12, 1),
    Opposite("relatime", "norelatime", Relatime, 25, 19),
    Opposite("nodiratime", "diratime", Nodiratime, 14, 4),
    Opposite("strictatime", "nostrictatime", Strictatime, 36, 20),
    Opposite("iversion", "noiversion", IVersion, 7, 16),
    Opposite("lazytime", "nolazytime", Lazytime, 8, 17),
    Opposite("mand", "nomand", Mandlock, 10, 18),
    Opposite("silent", "loud", Silent, 33, 9)
  ]

  /** The bits that an option for this bit clears first: only one of the access times is kept. */
  function Rivals(bit: Bit): Flags {
    if bit == Noatime || bit == Relatime then {Noatime, Relatime} else {bit}
  }

  /** The row has the option, with these bits. */
  predicate InRow(row: nat, name: string, bit: Bit, invert: bool) {
    |KNOWN_OPTS| == 41 && row < 41 && row != SHARED && KNOWN_OPTS[row] == MntOpt(name, Rivals(bit), {bit}, invert)
  }

  lemma SettingRows0(k: nat)
    requires k < 5
    ensures |OPPOSITES| == 14 && InRow(OPPOSITES[k].row, OPPOSITES[k].sets, OPPOSITES[k].bit, false)
  {
  }

  lemma SettingRows5(k: nat)
    requires 5 <= k < 10
    ensures |OPPOSITES| == 14 && InRow(OPPOSITES[k].row, OPPOSITES[k].sets, OPPOSITES[k].bit, false)
  {
  }

  lemma SettingRows10(k: nat)
    requires 10 <= k < 14
    ensures |OPPOSITES| == 14 && InRow(OPPOSITES[k].row, OPPOSITES[k].sets, OPPOSITES[k].bit, false)
  {
  }

  lemma ClearingRows0(k: nat)
    requires k < 5
    ensures |OPPOSITES| == 14 && InRow(OPPOSITES[k].opposite, OPPOSITES[k].clears, OPPOSITES[k].bit, true)
  {
  }

  lemma ClearingRows5(k: nat)
    requires 5 <= k < 10
    ensures |OPPOSITES| == 14 && InRow(OPPOSITES[k].opposite, OPPOSITES[k].clears, OPPOSITES[k].bit, true)
  {
  }

  lemma ClearingRows10(k: nat)
    requires 10 <= k < 14
    ensures |OPPOSITES| == 14 && InRow(OPPOSITES[k].opposite, OPPOSITES[k].clears, OPPOSITES[k].bit, true)
  {
  }

  lemma Names0(k: nat)
    requires k < 5
    ensures |OPPOSITES| == 14 && Name(OPPOSITES[k].sets) && Name(OPPOSITES[k].clears)
  {
  }

  lemma Names5(k: nat)
    requires 5 <= k < 10
    ensures |OPPOSITES| == 14 && Name(OPPOSITES[k].sets) && Name(OPPOSITES[k].clears)
  {
  }

  lemma Names10(k: nat)
    requires 10 <= k < 14
    ensures |OPPOSITES| == 14 && Name(OPPOSITES[k].sets) && Name(OPPOSITES[k].clears)
  {
  }

  predicate Name(s: string) {
    s != "" && ',' !in s
  }

  lemma OppositeRows(k: nat)
    requires k < 14
    ensures |OPPOSITES| == 14 && Name(OPPOSITES[k].sets) && Name(OPPOSITES[k].clears)
    ensures InRow(OPPOSITES[k].row, OPPOSITES[k].sets, OPPOSITES[k].bit, false)
    ensures InRow(OPPOSITES[k].opposite, OPPOSITES[k].clears, OPPOSITES[k].bit, true)
  {
    hide *;
    if k < 5 {
      Names0(k);
      SettingRows0(k);
      ClearingRows0(k);
    } else if k < 10 {
      Names5(k);
      SettingRows5(k);
      ClearingRows5(k);
    } else {
      Names10(k);
      SettingRows10(k);
      ClearingRows10(k);
    }
  }

  /** An option on its own. */
  lemma OneOption(i: nat, p: Parsed)
    requires i < |KNOWN_OPTS| && i != SHARED && ',' !in KNOWN_OPTS[i].name && KNOWN_OPTS[i].name != ""
    ensures Parse(KNOWN_OPTS, KNOWN_OPTS[i].name, p) == p.(flags := ApplyOpt(KNOWN_OPTS[i], p.flags))
  {
    RowFound(i);
    var t := KNOWN_OPTS[i].name;
    OneToken(KNOWN_OPTS, t, p);
    hide KNOWN_OPTS;
  }

  lemma OneToken(table: seq<MntOpt>, t: string, p: Parsed)
    requires ',' !in t
    ensures Parse(table, t, p) == ParseToken(table, t, p)
  {
    SplitPiece(t, ',');
    hide ParseToken;
    assert ParseTokens(table, [t], p) == ParseTokens(table, [t][1..], ParseToken(table, t, p));
  }

  /** Each of these options sets its bit, and its opposite clears the same bit; of the access times
      either clears the other. Nothing else changes. */
  lemma OppositesWriteOneBit(k: nat, p: Parsed)
    requires k < |OPPOSITES|
    ensures var o := OPPOSITES[k];
            && Parse(KNOWN_OPTS, o.sets, p) == p.(flags := p.flags - Rivals(o.bit) + {o.bit})
            && Parse(KNOWN_OPTS, o.clears, p) == p.(flags := p.flags - Rivals(o.bit))
  {
    OppositeRows(k);
    var o := OPPOSITES[k];
    OneOption(o.row, p);
    OneOption(o.opposite, p);
    hide KNOWN_OPTS, OPPOSITES;
  }

  /** A recursive form, the bits it sets and the bits it clears first; for those that have one that
      is found, the plain form. */
  datatype Recursive = Recursive(name: string, plain: string, bit: Bit, rivals: Flags, row: nat, plainRow: nat)

  const RECURSIVES: seq<Recursive> := [
    Recursive("rbind", "bind", Bind, {Bind, Move, Remount}, 24, 2),
    Recursive("rprivate", "private", Private, {Private}, 28, 23),
    Recursive("rslave", "slave", Slave, {Slave}, 30, 35),
    Recursive("runbindable", "unbindable", Unbindable, {Unbindable}, 31, 40)
  ]

  lemma RecursiveRows(k: nat)
    requires k < |RECURSIVES|
    ensures var o := RECURSIVES[k];
            && o.row < |KNOWN_OPTS| && o.plainRow < |KNOWN_OPTS| && o.row != SHARED && o.plainRow != SHARED
            && KNOWN_OPTS[o.row] == MntOpt(o.name, o.rivals, {o.bit, Rec}, false)
            && KNOWN_OPTS[o.plainRow] == MntOpt(o.plain, o.rivals, {o.bit}, false)
            && ',' !in o.name && ',' !in o.plain && o.name != "" && o.plain != ""
  {
  }

  /** The plain form sets its bit, the recursive one the recursive bit too. */
  lemma RecursiveAddsOneBit(k: nat, p: Parsed)
    requires k < |RECURSIVES|
    ensures var o := RECURSIVES[k];
            && Parse(KNOWN_OPTS, o.plain, p) == p.(flags := p.flags - o.rivals + {o.bit})
            && Parse(KNOWN_OPTS, o.name, p).flags == Parse(KNOWN_OPTS, o.plain, p).flags + {Rec}
            && Parse(KNOWN_OPTS, o.name, p).extras == p.extras
  {
    RecursiveRows(k);
    var o := RECURSIVES[k];
    OneOption(o.row, p);
    OneOption(o.plainRow, p);
    hide KNOWN_OPTS, RECURSIVES;
  }

  /** Options that have neither. */
  datatype Single = Single(name: string, rivals: Flags, bits: Flags, row: nat)

  const OTHERS: seq<Single> := [
    Single("move", {Bind, Move, Remount}, {Move}, 11),
    Single("remount", {Bind, Move, Remount}, {Remount}, 26),
    Single("dirsync", {Dirsync}, {Dirsync}, 5),
    Single("rshared", {Shared}, {Shared, Rec}, 29)
  ]

  lemma OtherRows(k: nat)
    requires k < |OTHERS|
    ensures var o := OTHERS[k];
            && |KNOWN_OPTS| == 41 && o.row < 41 && o.row != SHARED && ',' !in o.name && o.name != ""
            && KNOWN_OPTS[o.row] == MntOpt(o.name, o.rivals, o.bits, false)
  {
  }

  lemma OtherOptions(k: nat, p: Parsed)
    requires k < |OTHERS|
    ensures Parse(KNOWN_OPTS, OTHERS[k].name, p) == p.(flags := p.flags - OTHERS[k].rivals + OTHERS[k].bits)
  {
    OtherRows(k);
    OneOption(OTHERS[k].row, p);
    hide KNOWN_OPTS, OTHERS;
  }

  /** "defaults" resets five flags and no others, and nothing is left over of it. */
  lemma DefaultsReset(p: Parsed)
    ensures Parse(KNOWN_OPTS, "defaults", p)
         == p.(flags := p.flags - {Rdonly, Nosuid, Nodev, Noexec, Synchronous})
  {
    OneToken(KNOWN_OPTS, "defaults", p);
    NotAnOption("defaults");
    hide KNOWN_OPTS;
  }

  /** A name that no row has is kept as it is. */
  lemma UnknownIsKept(t: string, p: Parsed)
    requires t != "" && ',' !in t && t != "defaults" && forall i :: 0 <= i < |KNOWN_OPTS| ==> KNOWN_OPTS[i].name != t
    ensures Parse(KNOWN_OPTS, t, p) == Parsed(p.flags, if p.extras == "" then t else p.extras + "," + t)
  {
    OneToken(KNOWN_OPTS, t, p);
    assert KNOWN_OPTS[SHARED].name == "shared";
    hide KNOWN_OPTS;
    LookupMisses(KNOWN_OPTS, t);
    SearchMissesOnlyShared(t);
  }

  lemma NotAnOption(t: string)
    requires t == "defaults"
    ensures Search(KNOWN_OPTS, t) == None
  {
    forall i | 0 <= i < |KNOWN_OPTS|
      ensures KNOWN_OPTS[i].name != t
    {
    }
    LookupMisses(KNOWN_OPTS, t);
    SearchMissesOnlyShared(t);
    hide KNOWN_OPTS;
  }
}
