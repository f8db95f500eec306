/** The files that kernel parameters are loaded from, and their order (early/helpers/sysctl.cc). */
module SysctlFiles {
  import opened Text

  /** A directory: its path, and the names of its regular files in the order it lists them. */
  datatype Directory = Directory(path: string, names: seq<string>)

  const SYS_PATH := "/etc/sysctl.conf"

  predicate IsConf(name: string) {
    |name| > 5 && name[|name| - 5..] == ".conf"
  }

  function FullPath(dir: string, name: string): string {
    dir + "/" + name
  }

  /** The first directory that has a configuration file of this name decides. */
  function FirstWith(dirs: seq<Directory>, name: string): Option<string> {
    if dirs == [] then None
    else if IsConf(name) && name in dirs[0].names then Some(FullPath(dirs[0].path, name))
    else FirstWith(dirs[1..], name)
  }

  /** The directory has a configuration file of this name. */
  predicate HasConf(dir: Directory, name: string) {
    |name| > 5 && ".conf" == name[|name| - 5..] && name in dir.names
  }

  /** The path of a name is that in the first directory with such a configuration file. */
  lemma {:induction false} FirstWithIff(dirs: seq<Directory>, name: string, path: string)
    ensures FirstWith(dirs, name) == Some(path)
       <==> exists d :: 0 <= d < |dirs| && HasConf(dirs[d], name) && path == dirs[d].path + "/" + name
                        && forall e :: 0 <= e < d ==> !HasConf(dirs[e], name)
  {
    if dirs == [] {
    } else if HasConf(dirs[0], name) {
    } else {
      FirstWithIff(dirs[1..], name, path);
      if FirstWith(dirs, name) == Some(path) {
        var d :| 0 <= d < |dirs[1..]| && HasConf(dirs[1..][d], name) && path == dirs[1..][d].path + "/" + name
                 && forall e :: 0 <= e < d ==> !HasConf(dirs[1..][e], name);
        forall e | 0 <= e < d + 1
          ensures !HasConf(dirs[e], name)
        {
          assert e > 0 ==> dirs[e] == dirs[1..][e - 1];
        }
        assert HasConf(dirs[d + 1], name);
      } else {
        forall d | 0 <= d < |dirs| && HasConf(dirs[d], name) && path == dirs[d].path + "/" + name
          ensures exists e :: 0 <= e < d && HasConf(dirs[e], name)
        {
          assert d > 0 && dirs[d] == dirs[1..][d - 1];
          var e :| 0 <= e < d - 1 && HasConf(dirs[1..][e], name);
          assert HasConf(dirs[e + 1], name);
        }
      }
    }
  }

  /** The names are those of the configuration files, each with the path that decides. */
  ghost predicate Collects(got: map<string, string>, dirs: seq<Directory>) {
    forall n :: (if n in got then Some(got[n]) else None) == FirstWith(dirs, n)
  }

  lemma {:induction false} FirstWithSnoc(dirs: seq<Directory>, dir: Directory, name: string)
    ensures FirstWith(dirs + [dir], name)
         == if FirstWith(dirs, name).Some? then FirstWith(dirs, name)
            else if IsConf(name) && name in dir.names then Some(FullPath(dir.path, name)) else None
  {
    if dirs == [] {
      assert [] + [dir] == [dir];
    } else {
      FirstWithSnoc(dirs[1..], dir, name);
      assert (dirs + [dir])[1..] == dirs[1..] + [dir];
    }
  }

  /** The loops over the directories in `main`. */
  method CollectFiles(dirs: seq<Directory>) returns (got: map<string, string>)
    ensures Collects(got, dirs)
  {
    got := map[];
    for d := 0 to |dirs|
      invariant Collects(got, dirs[..d])
    {
      ghost var before := got;
      var dir := dirs[d];
      for i := 0 to |dir.names|
        invariant forall n :: n in before ==> n in got && got[n] == before[n]
        invariant forall n :: n in got && n !in before
                              <==> n !in before && IsConf(n) && n in dir.names[..i]
        invariant forall n :: n in got && n !in before ==> got[n] == FullPath(dir.path, n)
      {
        var name := dir.names[i];
        assert dir.names[..i + 1] == dir.names[..i] + [name];
        if IsConf(name) && name !in got {
          got := got[name := FullPath(dir.path, name)];
        }
      }
      assert dir.names[..|dir.names|] == dir.names;
      forall n
        ensures (if n in got then Some(got[n]) else None) == FirstWith(dirs[..d + 1], n)
      {
        assert dirs[..d + 1] == dirs[..d] + [dir];
        FirstWithSnoc(dirs[..d], dir, n);
      }
    }
    assert dirs[..|dirs|] == dirs;
  }

  /** What sorting the names gives: each once, in the order of their bytes. */
  ghost predicate SortsNames(ord: seq<string>, got: map<string, string>) {
    && (forall i, j :: 0 <= i < j < |ord| ==> StrCmp(ord[i], ord[j]) < 0)
    && (forall n :: n in ord <==> n in got)
  }

  /** The order of loading does not depend on how the names were listed. */
  lemma {:induction false} OrderIsDetermined(a: seq<string>, b: seq<string>)
    requires forall i, j :: 0 <= i < j < |a| ==> StrCmp(a[i], a[j]) < 0
    requires forall i, j :: 0 <= i < j < |b| ==> StrCmp(b[i], b[j]) < 0
    requires forall n :: n in a <==> n in b
    ensures a == b
  {
    assert b != [] ==> b[0] in b;
    if a != [] {
      FirstIsSame(a, b);
      assert a[0] == b[0];
      forall n
        ensures n in a[1..] <==> n in b[1..]
      {
        TailOf(a, n);
        TailOf(b, n);
      }
      OrderIsDetermined(a[1..], b[1..]);
    }
  }

  lemma TailOf(a: seq<string>, n: string)
    requires a != [] && forall i, j :: 0 <= i < j < |a| ==> StrCmp(a[i], a[j]) < 0
    ensures n in a[1..] <==> n in a && n != a[0]
  {
    StrCmpFlip(a[0], a[0]);
    forall j | 0 < j < |a|
      ensures a[j] != a[0]
    {
      assert StrCmp(a[0], a[j]) < 0;
    }
    assert a == [a[0]] + a[1..];
  }

  lemma FirstIsSame(a: seq<string>, b: seq<string>)
    requires a != [] && forall i, j :: 0 <= i < j < |a| ==> StrCmp(a[i], a[j]) < 0
    requires forall i, j :: 0 <= i < j < |b| ==> StrCmp(b[i], b[j]) < 0
    requires forall n :: n in a <==> n in b
    ensures b != [] && a[0] == b[0]
  {
    assert a[0] in b;
    assert b[0] in a;
    var i :| 0 <= i < |b| && b[i] == a[0];
    var j :| 0 <= j < |a| && a[j] == b[0];
    StrCmpFlip(a[0], b[0]);
  }

  /** The files in the order of loading. */
  method LoadOrder(got: map<string, string>, ord: seq<string>, readable: bool) returns (files: seq<string>)
    requires SortsNames(ord, got)
    ensures |files| == |ord| + (if readable && "etc/sysctl.conf" !in got then 1 else 0)
    ensures forall i :: 0 <= i < |ord| ==> files[i] == got[ord[i]]
    ensures |files| > |ord| ==> files[|ord|] == SYS_PATH
  {
    files := [];
    for i := 0 to |ord|
      invariant |files| == i && forall k :: 0 <= k < i ==> files[k] == got[ord[k]]
    {
      assert ord[i] in ord;
      files := files + [got[ord[i]]];
    }
    if readable && "etc/sysctl.conf" !in got {
      files := files + [SYS_PATH];
    }
  }

  /** The guard for /etc/sysctl.conf compares a path with names of files, so it always lets the
      file be loaded, after all others, even when one called sysctl.conf was loaded. */
  lemma SysctlConfIsAlwaysLoaded(dirs: seq<Directory>, got: map<string, string>)
    requires Collects(got, dirs)
    requires forall d, i :: 0 <= d < |dirs| && 0 <= i < |dirs[d].names| ==> '/' !in dirs[d].names[i]
    ensures "etc/sysctl.conf" !in got
  {
    var path := "etc/sysctl.conf";
    assert path[3] == '/';
    NoSuchName(dirs, path);
  }

  lemma {:induction false} NoSuchName(dirs: seq<Directory>, name: string)
    requires '/' in name
    requires forall d, i :: 0 <= d < |dirs| && 0 <= i < |dirs[d].names| ==> '/' !in dirs[d].names[i]
    ensures FirstWith(dirs, name) == None
  {
    if dirs != [] {
      assert forall i :: 0 <= i < |dirs[0].names| ==> dirs[0].names[i] != name;
      NoSuchName(dirs[1..], name);
    }
  }
}
