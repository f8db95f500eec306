/** The mount option table (early/helpers/mnt.cc) and the search that gives up early. */
module MountTable {
  import opened Text

  /** The bits of the kernel's mount flag word, by the name of their MS_ constant. The code
      only ever combines flag words with `&`, `|` and `~`, so a word is its set of bits:
      `a & b` is `a * b`, `a | b` is `a + b` and `a & ~b` is `a - b`. */
  datatype Bit =
    | Rdonly | Nosuid | Nodev | Noexec | Synchronous | Remount | Mandlock | Dirsync | Nosymfollow
    | Noatime | Nodiratime | Bind | Move | Rec | Silent | Unbindable | Private
    | Slave | Shared | Relatime | IVersion | Strictatime | Lazytime | Other(n: nat)

  type Flags = set<Bit>

  const MS_TMASK: Flags := {Bind, Move, Remount}
  const MS_AMASK: Flags := {Noatime, Relatime}
  const PROPAGATION: Flags := {Shared, Private, Slave, Unbindable}
  const DEFAULTS_RESET: Flags := {Rdonly, Nosuid, Nodev, Noexec, Synchronous}

  datatype MntOpt = MntOpt(name: string, flagmask: Flags, flagset: Flags, invert: bool)

  const KNOWN_OPTS: seq<MntOpt> := [
    MntOpt("async", {Synchronous}, {Synchronous}, true),
    MntOpt("atime", MS_AMASK, {Noatime}, true),
    MntOpt("bind", MS_TMASK, {Bind}, false),
    MntOpt("dev", {Nodev}, {Nodev}, true),
    MntOpt("diratime", {Nodiratime}, {Nodiratime}, true),
    MntOpt("dirsync", {Dirsync}, {Dirsync}, false),
    MntOpt("exec", {Noexec}, {Noexec}, true),
    MntOpt("iversion", {IVersion}, {IVersion}, false),
    MntOpt("lazytime", {Lazytime}, {Lazytime}, false),
    MntOpt("loud", {Silent}, {Silent}, true),
    MntOpt("mand", {Mandlock}, {Mandlock}, false),
    MntOpt("move", MS_TMASK, {Move}, false),
    MntOpt("noatime", MS_AMASK, {Noatime}, false),
    MntOpt("nodev", {Nodev}, {Nodev}, false),
    MntOpt("nodiratime", {Nodiratime}, {Nodiratime}, false),
    MntOpt("noexec", {Noexec}, {Noexec}, false),
    MntOpt("noiversion", {IVersion}, {IVersion}, true),
    MntOpt("nolazytime", {Lazytime}, {Lazytime}, true),
    MntOpt("nomand", {Mandlock}, {Mandlock}, true),
    MntOpt("norelatime", MS_AMASK, {Relatime}, true),
    MntOpt("nostrictatime", {Strictatime}, {Strictatime}, true),
    MntOpt("nosuid", {Nosuid}, {Nosuid}, false),
    MntOpt("nosymfollow", {Nosymfollow}, {Nosymfollow}, false),
    MntOpt("private", {Private}, {Private}, false),
    MntOpt("rbind", MS_TMASK, {Bind, Rec}, false),
    MntOpt("relatime", MS_AMASK, {Relatime}, false),
    MntOpt("remount", MS_TMASK, {Remount}, false),
    MntOpt("ro", {Rdonly}, {Rdonly}, false),
    MntOpt("rprivate", {Private}, {Private, Rec}, false),
    MntOpt("rshared", {Shared}, {Shared, Rec}, false),
    MntOpt("rslave", {Slave}, {Slave, Rec}, false),
    MntOpt("runbindable", {Unbindable}, {Unbindable, Rec}, false),
    MntOpt("rw", {Rdonly}, {Rdonly}, true),
    MntOpt("silent", {Silent}, {Silent}, false),
    MntOpt("shared", {Shared}, {Shared}, false),
    MntOpt("slave", {Slave}, {Slave}, false),
    MntOpt("strictatime", {Strictatime}, {Strictatime}, false),
    MntOpt("suid", {Nosuid}, {Nosuid}, true),
    MntOpt("symfollow", {Nosymfollow}, {Nosymfollow}, true),
    MntOpt("sync", {Synchronous}, {Synchronous}, false),
    MntOpt("unbindable", {Unbindable}, {Unbindable}, false)
  ]

  /** The row a search without early exit would find. */
  function Lookup(table: seq<MntOpt>, t: string): Option<MntOpt> {
    if table == [] then None
    else if table[0].name == t then Some(table[0])
    else Lookup(table[1..], t)
  }

  /** The search of the parser: it gives up at the first row whose name is greater. */
  function Search(table: seq<MntOpt>, t: string): Option<MntOpt> {
    if table == [] then None
    else
      var c := StrCmp(t, table[0].name);
      if c == 0 then Some(table[0])
      else if c < 0 then None
      else Search(table[1..], t)
  }

  ghost predicate StrictlySorted(table: seq<MntOpt>) {
    forall i, j :: 0 <= i < j < |table| ==> StrCmp(table[i].name, table[j].name) < 0
  }

  /** On a strictly sorted table the early exit loses nothing. */
  lemma {:induction false} SortedSearchIsLookup(table: seq<MntOpt>, t: string)
    requires StrictlySorted(table)
    ensures Search(table, t) == Lookup(table, t)
  {
    if table != [] {
      SortedSearchIsLookup(table[1..], t);
      if StrCmp(t, table[0].name) < 0 {
        forall i | 0 <= i < |table| ensures table[i].name != t {
          if i > 0 { StrCmpTransitive(t, table[0].name, table[i].name); }
        }
        LookupMisses(table, t);
      }
    }
  }

  lemma {:induction false} LookupMisses(table: seq<MntOpt>, t: string)
    requires forall i :: 0 <= i < |table| ==> table[i].name != t
    ensures Lookup(table, t) == None
  {
    if table != [] { LookupMisses(table[1..], t); }
  }

  /** A row is found by both searches when every earlier name is smaller. */
  lemma {:induction false} BothFind(table: seq<MntOpt>, i: nat)
    requires i < |table|
    requires forall j :: 0 <= j < i ==> StrCmp(table[j].name, table[i].name) < 0
    ensures Search(table, table[i].name) == Some(table[i])
    ensures Lookup(table, table[i].name) == Some(table[i])
  {
    if i > 0 {
      StrCmpFlip(table[0].name, table[i].name);
      StrCmpFlip(table[i].name, table[0].name);
      BothFind(table[1..], i - 1);
    }
  }

  /** Whatever the early-exit search returns is a row of that name. */
  lemma {:induction false} SearchSound(table: seq<MntOpt>, t: string)
    ensures Search(table, t).Some? ==> exists i :: 0 <= i < |table| && Search(table, t) == Some(table[i]) && table[i].name == t
  {
    if table != [] {
      SearchSound(table[1..], t);
      if Search(table[1..], t).Some? {
        var i :| 0 <= i < |table[1..]| && Search(table[1..], t) == Some(table[1..][i]) && table[1..][i].name == t;
        assert table[i + 1] == table[1..][i];
      }
    }
  }

  /** A row is missed when an earlier row already compares greater. */
  lemma {:induction false} SearchBlocked(table: seq<MntOpt>, i: nat, t: string)
    requires i < |table| && StrCmp(t, table[i].name) < 0
    requires forall j :: 0 <= j < i ==> table[j].name != t
    ensures Search(table, t) == None
  {
    if i > 0 { SearchBlocked(table[1..], i - 1, t); }
  }

  // Rows 33 ("silent") and 34 ("shared") are the only neighbours out of order.
  const SILENT: nat := 33
  const SHARED: nat := 34

  ghost predicate Below(i: nat, j: nat)
    requires i < |KNOWN_OPTS| && j < |KNOWN_OPTS|
  {
    StrCmp(KNOWN_OPTS[i].name, KNOWN_OPTS[j].name) < 0
  }

  // The comparisons of neighbouring names, five rows at a time; the comparison itself is
  // hidden where only its outcome is carried over to the table.

  lemma Names0()
    ensures StrCmp("async", "atime") < 0
    ensures StrCmp("atime", "bind") < 0
    ensures StrCmp("bind", "dev") < 0
    ensures StrCmp("dev", "diratime") < 0
    ensures StrCmp("diratime", "dirsync") < 0
  {
  }

  lemma Rows0(i: nat)
    requires 0 <= i < 5
    ensures Below(i, i + 1)
  {
    hide StrCmp;
    Names0();
  }

  lemma Names5()
    ensures StrCmp("dirsync", "exec") < 0
    ensures StrCmp("exec", "iversion") < 0
    ensures StrCmp("iversion", "lazytime") < 0
    ensures StrCmp("lazytime", "loud") < 0
    ensures StrCmp("loud", "mand") < 0
  {
  }

  lemma Rows5(i: nat)
    requires 5 <= i < 10
    ensures Below(i, i + 1)
  {
    hide StrCmp;
    Names5();
  }

  lemma Names10()
    ensures StrCmp("mand", "move") < 0
    ensures StrCmp("move", "noatime") < 0
    ensures StrCmp("noatime", "nodev") < 0
    ensures StrCmp("nodev", "nodiratime") < 0
    ensures StrCmp("nodiratime", "noexec") < 0
  {
  }

  lemma Rows10(i: nat)
    requires 10 <= i < 15
    ensures Below(i, i + 1)
  {
    hide StrCmp;
    Names10();
  }

  lemma Names15()
    ensures StrCmp("noexec", "noiversion") < 0
    ensures StrCmp("noiversion", "nolazytime") < 0
    ensures StrCmp("nolazytime", "nomand") < 0
    ensures StrCmp("nomand", "norelatime") < 0
    ensures StrCmp("norelatime", "nostrictatime") < 0
  {
  }

  lemma Rows15(i: nat)
    requires 15 <= i < 20
    ensures Below(i, i + 1)
  {
    hide StrCmp;
    Names15();
  }

  lemma Names20()
    ensures StrCmp("nostrictatime", "nosuid") < 0
    ensures StrCmp("nosuid", "nosymfollow") < 0
    ensures StrCmp("nosymfollow", "private") < 0
    ensures StrCmp("private", "rbind") < 0
    ensures StrCmp("rbind", "relatime") < 0
  {
  }

  lemma Rows20(i: nat)
    requires 20 <= i < 25
    ensures Below(i, i + 1)
  {
    hide StrCmp;
    Names20();
  }

  lemma Names25()
    ensures StrCmp("relatime", "remount") < 0
    ensures StrCmp("remount", "ro") < 0
    ensures StrCmp("ro", "rprivate") < 0
    ensures StrCmp("rprivate", "rshared") < 0
    ensures StrCmp("rshared", "rslave") < 0
  {
  }

  lemma Rows25(i: nat)
    requires 25 <= i < 30
    ensures Below(i, i + 1)
  {
    hide StrCmp;
    Names25();
  }

  lemma Names30()
    ensures StrCmp("rslave", "runbindable") < 0
    ensures StrCmp("runbindable", "rw") < 0
    ensures StrCmp("rw", "silent") < 0
    ensures StrCmp("shared", "slave") < 0
  {
  }

  lemma Rows30(i: nat)
    requires 30 <= i < 35 && i != SILENT
    ensures Below(i, i + 1)
  {
    hide StrCmp;
    Names30();
  }

  lemma Names35()
    ensures StrCmp("slave", "strictatime") < 0
    ensures StrCmp("strictatime", "suid") < 0
    ensures StrCmp("suid", "symfollow") < 0
    ensures StrCmp("symfollow", "sync") < 0
    ensures StrCmp("sync", "unbindable") < 0
  {
  }

  lemma Rows35(i: nat)
    requires 35 <= i < 40
    ensures Below(i, i + 1)
  {
    hide StrCmp;
    Names35();
  }

  lemma SilentBelowSlave()
    ensures Below(SILENT, SHARED + 1)
  {
    assert StrCmp("silent", "slave") < 0;
  }

  lemma Adjacent(i: nat)
    requires i + 1 < |KNOWN_OPTS| && i != SILENT
    ensures Below(i, i + 1)
  {
    hide Below;
    if i < 5 { Rows0(i); } else if i < 10 { Rows5(i); } else if i < 15 { Rows10(i); }
    else if i < 20 { Rows15(i); } else if i < 25 { Rows20(i); } else if i < 30 { Rows25(i); }
    else if i < 35 { Rows30(i); } else { Rows35(i); }
  }

  lemma BelowTransitive(i: nat, j: nat, k: nat)
    requires i < |KNOWN_OPTS| && j < |KNOWN_OPTS| && k < |KNOWN_OPTS|
    requires Below(i, j) && Below(j, k)
    ensures Below(i, k)
  {
    StrCmpTransitive(KNOWN_OPTS[i].name, KNOWN_OPTS[j].name, KNOWN_OPTS[k].name);
  }

  /** Every row but "shared" comes after all the smaller names. */
  lemma {:induction false} RowsAscend(j: nat, i: nat)
    requires j < i < |KNOWN_OPTS| && i != SHARED
    ensures Below(j, i)
    decreases i
  {
    hide Below;
    if j + 1 == i {
      Adjacent(j);
    } else if i - 1 == SHARED {
      SilentBelowSlave();
      if j < SILENT {
        RowsAscend(j, SILENT);
        BelowTransitive(j, SILENT, i);
      }
    } else {
      RowsAscend(j, i - 1);
      Adjacent(i - 1);
      BelowTransitive(j, i - 1, i);
    }
  }

  /** Every row but "shared" is found under its own name. */
  lemma RowFound(i: nat)
    requires i < |KNOWN_OPTS| && i != SHARED
    ensures Search(KNOWN_OPTS, KNOWN_OPTS[i].name) == Some(KNOWN_OPTS[i])
    ensures Lookup(KNOWN_OPTS, KNOWN_OPTS[i].name) == Some(KNOWN_OPTS[i])
  {
    forall j | 0 <= j < i ensures StrCmp(KNOWN_OPTS[j].name, KNOWN_OPTS[i].name) < 0 {
      RowsAscend(j, i);
    }
    BothFind(KNOWN_OPTS, i);
  }

  lemma SharedMissed()
    ensures Search(KNOWN_OPTS, "shared") == None
    ensures Lookup(KNOWN_OPTS, "shared") != None
  {
    assert KNOWN_OPTS[SHARED].name == "shared";
    assert StrCmp("rw", "shared") < 0 && StrCmp("shared", "silent") < 0;
    forall j | 0 <= j < SILENT ensures KNOWN_OPTS[j].name != "shared" {
      if j < SILENT - 1 {
        RowsAscend(j, SILENT - 1);
        StrCmpTransitive(KNOWN_OPTS[j].name, "rw", "shared");
      }
    }
    SearchBlocked(KNOWN_OPTS, SILENT, "shared");
    LookupHits(KNOWN_OPTS, SHARED);
  }

  lemma {:induction false} LookupHits(table: seq<MntOpt>, i: nat)
    requires i < |table|
    ensures Lookup(table, table[i].name) != None
  {
    if i > 0 { LookupHits(table[1..], i - 1); }
  }

  /** On the table as shipped the early exit costs exactly one option: "shared". */
  lemma SearchMissesOnlyShared(t: string)
    ensures Search(KNOWN_OPTS, t) == Lookup(KNOWN_OPTS, t) <==> t != "shared"
  {
    if t == "shared" {
      SharedMissed();
    } else if i :| 0 <= i < |KNOWN_OPTS| && KNOWN_OPTS[i].name == t {
      assert KNOWN_OPTS[SHARED].name == "shared";
      RowFound(i);
    } else {
      LookupMisses(KNOWN_OPTS, t);
      SearchSound(KNOWN_OPTS, t);
    }
  }

  method FindOpt(optn: string) returns (optv: Option<MntOpt>)
    ensures optv == Search(KNOWN_OPTS, optn)
  {
    optv := None;
    var i := 0;
    while i < |KNOWN_OPTS|
      invariant 0 <= i <= |KNOWN_OPTS|
      invariant optv == None
      invariant Search(KNOWN_OPTS, optn) == Search(KNOWN_OPTS[i..], optn)
    {
      var cmpv := StrCmp(optn, KNOWN_OPTS[i].name);
      assert KNOWN_OPTS[i..][1..] == KNOWN_OPTS[i + 1..];
      if cmpv == 0 {
        optv := Some(KNOWN_OPTS[i]);
        break;
      } else if cmpv < 0 {
        break;
      }
      i := i + 1;
    }
  }
}
