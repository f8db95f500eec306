/** One uninterrupted run of the seed helper (early/helpers/seedrng.cc), as it changes the seed
    directory in place. Every call it makes is one step of `SeedProtocol`, so what that module
    proves of all its runs holds at every point of this one. */
module SeedRun {
  import opened SeedDurability
  import opened SeedProtocol
  import opened Text

  /** How the calls on one seed file turn out. */
  datatype FileCalls = FileCalls(opens: bool, fills: bool, unlinks: bool, syncs: bool, seeds: bool)

  /** How the calls that save the new seed turn out. */
  datatype SaveCalls = SaveCalls(draw: Draw, opens: bool, writes: bool, pieces: bool, syncs: bool, renames: bool)

  /** The exit status of the helper, bit by bit. */
  datatype Failure = OldSeed(name: Name) | NewSeedUnread | FileNotOpened | FileNotWritten | NotMadeCreditable

  /** Whether the calls on a seed file all turn out well that have to. */
  predicate FileOk(present: bool, content: Content, calls: FileCalls) {
    !present || (calls.opens && calls.fills && (content == Empty || (calls.unlinks && calls.syncs && calls.seeds)))
  }

  /** What can go wrong in saving the new seed; after the first of the file's failures nothing
      more is attempted. */
  function SaveFailures(calls: SaveCalls): set<Failure> {
    (if FilledByKernel(calls.draw) then {} else {NewSeedUnread}) +
    (if !calls.opens then {FileNotOpened}
     else if !calls.writes || !calls.syncs then {FileNotWritten}
     else if KernelReady(calls.draw) && !calls.renames then {NotMadeCreditable}
     else {})
  }

  /** Every failure is reported, and no other. */
  ghost predicate Reported(failures: set<Failure>, calls: SaveCalls) {
    && (NewSeedUnread in failures <==> !FilledByKernel(calls.draw))
    && (FileNotOpened in failures <==> !calls.opens)
    && (FileNotWritten in failures <==> calls.opens && !(calls.writes && calls.syncs))
    && (NotMadeCreditable in failures
        <==> calls.opens && calls.writes && calls.syncs && KernelReady(calls.draw) && !calls.renames)
  }

  lemma SaveFailuresReported(calls: SaveCalls)
    ensures Reported(SaveFailures(calls), calls) && forall n :: OldSeed(n) !in SaveFailures(calls)
  {
  }

  /** The entries of `d` are also in `e`. */
  ghost predicate Within(d: Directory, e: Directory) {
    forall n :: n in d ==> n in e && d[n] == e[n]
  }

  /** All versions are what is left of earlier ones. */
  ghost predicate OnlyLeft(before: seq<Directory>, after: seq<Directory>) {
    forall v :: v in after ==> exists w :: w in before && Within(v, w)
  }

  lemma OnlyLeftTransitive(a: seq<Directory>, b: seq<Directory>, c: seq<Directory>)
    requires OnlyLeft(a, b) && OnlyLeft(b, c)
    ensures OnlyLeft(a, c)
  {
    forall v | v in c
      ensures exists w :: w in a && Within(v, w)
    {
      var u :| u in b && Within(v, u);
      var w :| w in a && Within(u, w);
      assert Within(v, w);
    }
  }

  lemma OnlyLeftOfItself(a: seq<Directory>)
    ensures OnlyLeft(a, a)
  {
    assert forall v: Directory :: Within(v, v);
  }

  lemma OnlyLeftWithout(a: seq<Directory>, name: Name)
    requires a != []
    ensures OnlyLeft(a, a + [a[|a| - 1] - {name}]) && OnlyLeft(a, [a[|a| - 1] - {name}])
  {
    var last := a[|a| - 1];
    assert last in a && Within(last - {name}, last);
    assert forall v: Directory :: v in a ==> Within(v, v);
  }

  function SavedName(draw: Draw): Name {
    if KernelReady(draw) then Creditable else NonCreditable
  }

  class SeedDirectory {
    var versions: seq<Directory>
    var files: map<nat, File>
    var created: nat
    var fed: seq<Feed>
    var runs: nat
    var ready: set<nat>
    var drawn: set<nat>
    /** Everything that has happened to the directory so far. */
    ghost var history: seq<Step>

    ghost function At(p: Process): State
      reads this
    {
      State(versions, files, created, fed, runs, ready, drawn, p)
    }

    /** With the helper at `p`, this is a state the protocol can reach. */
    ghost predicate Valid(p: Process)
      reads this
    {
      Steps(Initial, history, At(p)) && Inv(At(p))
    }

    constructor ()
      ensures Valid(Idle) && runs == 0 && versions == [map[]]
    {
      versions, files, created, fed, runs, ready, drawn := [map[]], map[], 0, [], 0, {}, {};
      history := [];
      new;
      InitialOk();
    }

    ghost method Record(p: Process, step: Step, before: State)
      requires Steps(Initial, history, before) && Inv(before) && Enabled(before, step)
      requires At(p) == Apply(before, step)
      modifies this`history
      ensures Valid(p) && history == old(history) + [step]
    {
      StepsSnoc(Initial, history, before, step);
      StepKeepsInv(before, step);
      history := history + [step];
      hide Inv, Enabled, Apply;
    }

    function Listing(): Directory
      requires versions != []
      reads this
    {
      versions[|versions| - 1]
    }

    ghost predicate Present(name: Name)
      reads this
    {
      versions != [] && name in Listing()
    }

    /** The content of the seed file of this name, if there is one. */
    ghost function Stored(name: Name): Content
      reads this
    {
      if versions != [] && name in Listing() && Listing()[name] in files then files[Listing()[name]].now else Empty
    }

    /** How a call on the seed file `name` leaves the directory: the other name is untouched, and
        the seed has been given to the kernel only if its name is gone. */
    twostate predicate Used(name: Name, content: Content, fully: bool, skip: bool)
      reads this
    {
      && old(versions) != [] && versions != []
      && Listing() - {name} == old(Listing()) - {name} && OnlyLeft(old(versions), versions)
      && (name in Listing() ==> name in old(Listing()) && Listing()[name] == old(Listing())[name])
      && (if fully && content != Empty
          then name !in Listing() && fed == old(fed) + [Feed(content, name == Creditable && !skip)]
          else fed == old(fed))
    }

    /** `seed_from_file_if_exists`: read the seed, make sure nobody reads it again, and only
        then hand it to the kernel. */
    method SeedFromFileIfExists(run: nat, name: Name, calls: FileCalls, skip: bool) returns (ok: bool)
      requires Valid(Opening(run, name))
      modifies this`versions, this`fed, this`history
      ensures Valid(AfterFile(run, name))
      ensures ok == FileOk(old(Present(name)), old(Stored(name)), calls)
      ensures ok <==> !old(Present(name)) || (calls.opens && calls.fills && (
                        old(Stored(name)) == Empty || (calls.unlinks && calls.syncs && calls.seeds)))
      ensures Used(name, old(Stored(name)), ok, skip)
    {
      hide Steps, Inv, OnlyLeft;
      OnlyLeftOfItself(versions);
      ghost var content := Stored(name);
      var present := HasEntry(run, name);
      var seed := ReadSeedFile(run, name, calls);
      if seed == None {
        return !present;
      }
      ok := TakeOutAndFeed(run, name, seed.value.0, seed.value.1, calls, skip);
    }

    method HasEntry(run: nat, name: Name) returns (present: bool)
      requires Valid(Opening(run, name))
      ensures versions != [] && present == Present(name)
    {
      hide Steps, ContentsOk, FedOk, CreditOk;
      present := name in Listing();
    }

    method ReadSeedFile(run: nat, name: Name, calls: FileCalls) returns (seed: Option<(nat, Content)>)
      requires Valid(Opening(run, name))
      modifies this`history
      ensures seed.Some? <==> Present(name) && calls.opens && calls.fills
      ensures seed.None? ==> Valid(AfterFile(run, name))
      ensures seed.Some? ==> Valid(Unlinking(run, name, seed.value.0, seed.value.1)) && seed.value.1 == Stored(name)
    {
      hide Steps, ContentsOk, FedOk, CreditOk;
      ghost var opening := At(Opening(run, name));
      if name !in Listing() || !calls.opens {
        Record(AfterFile(run, name), OpenSeed(false), opening);
        return None;
      }
      var file := Listing()[name];
      Record(Reading(run, name, file), OpenSeed(true), opening);
      ghost var reading := At(Reading(run, name, file));
      if !calls.fills {
        Record(AfterFile(run, name), ReadSeed(false), reading);
        return None;
      }
      var content := files[file].now;
      Record(Unlinking(run, name, file, content), ReadSeed(true), reading);
      return Some((file, content));
    }

    method TakeOutAndFeed(run: nat, name: Name, file: nat, content: Content, calls: FileCalls, skip: bool)
      returns (ok: bool)
      requires Valid(Unlinking(run, name, file, content))
      modifies this`versions, this`fed, this`history
      ensures Valid(AfterFile(run, name))
      ensures ok <==> content == Empty || (calls.unlinks && calls.syncs && calls.seeds)
      ensures Used(name, content, ok, skip)
    {
      hide Steps, DirectoriesOk, ContentsOk, FedOk, CreditOk, OnlyLeft;
      var gone := TakeOut(run, name, file, content, calls.unlinks, calls.syncs);
      if !gone || content == Empty {
        return content == Empty;
      }
      ghost var feeding := At(Feeding(run, name, file, content));
      if calls.seeds {
        fed := fed + [Feed(content, name == Creditable && !skip)];
      }
      Record(AfterFile(run, name), FeedSeed(calls.seeds, skip), feeding);
      ok := calls.seeds;
    }

    method TakeOut(run: nat, name: Name, file: nat, content: Content, unlinks: bool, syncs: bool)
      returns (gone: bool)
      requires Valid(Unlinking(run, name, file, content))
      modifies this`versions, this`history
      ensures gone <==> unlinks && syncs
      ensures Valid(if gone && content != Empty then Feeding(run, name, file, content) else AfterFile(run, name))
      ensures Used(name, content, false, false)
      ensures gone ==> name !in Listing()
    {
      hide Steps, ContentsOk, FedOk, CreditOk, CreditWorthy, TakenOut, OnlyLeft;
      OnlyLeftOfItself(versions);
      OnlyLeftWithout(versions, name);
      ghost var unlinking := At(Unlinking(run, name, file, content));
      if !unlinks {
        Record(AfterFile(run, name), UnlinkSeed(false), unlinking);
        return false;
      }
      versions := versions + [Listing() - {name}];
      Record(SyncingDirectory(run, name, file, content), UnlinkSeed(true), unlinking);
      ghost var syncing := At(SyncingDirectory(run, name, file, content));
      if syncs {
        versions := [Listing()];
      }
      Record(if syncs && content != Empty then Feeding(run, name, file, content) else AfterFile(run, name),
             SyncDirectory(syncs), syncing);
      gone := syncs;
    }

    /** The new seed is in the current directory, under the name its run's generator earned, and
        its content is synced. */
    ghost predicate Saved(run: nat, draw: Draw)
      reads this
    {
      && versions != [] && SavedName(draw) in Listing() && Listing()[SavedName(draw)] in files
      && files[Listing()[SavedName(draw)]] == File(Whole(run), {Whole(run)})
    }

    /** What the disk may show after a power failure: from some version on the file of the new
        seed, under either name; in the versions before it, which were not made for it, only what
        is left of a directory from before the run. */
    ghost predicate SavedSince(before: seq<Directory>, file: nat, first: nat)
      reads this
    {
      && first < |versions|
      && (forall k :: first <= k < |versions| ==> NamesFile(versions[k], file))
      && (forall k :: 0 <= k < first ==> !NamesFile(versions[k], file) && OnlyLeft(before, [versions[k]]))
    }

    /** The second half of `main`: draw a new seed and save it. */
    method SaveSeed(run: nat, calls: SaveCalls) returns (failures: set<Failure>)
      requires Valid(Drawing(run))
      modifies this`versions, this`files, this`created, this`ready, this`drawn, this`history
      ensures Valid(Idle)
      ensures failures == SaveFailures(calls) && Reported(failures, calls)
      ensures failures <= {NewSeedUnread} ==> Saved(run, calls.draw)
      ensures failures <= {NewSeedUnread}
          ==> forall v :: v in versions ==> v in old(versions) || NamesFile(v, Listing()[SavedName(calls.draw)])
    {
      hide Steps, ContentsOk, FedOk, CreditOk, CreditWorthy, TakenOut, DirectoriesOk, ProcessOk;
      var creditable := DrawSeed(run, calls.draw);
      SaveFailuresReported(calls);
      failures := if ReadNewSeed(calls.draw).1 then {} else {NewSeedUnread};
      var file := OpenNew(run, creditable, calls.opens);
      if file == None {
        assert FileNotOpened in failures + {FileNotOpened};
        return failures + {FileNotOpened};
      }
      var written := WriteNew(run, creditable, file.value, calls);
      if !written {
        assert FileNotWritten in failures + {FileNotWritten};
        return failures + {FileNotWritten};
      }
      if creditable {
        var renamed := Publish(run, file.value, calls.renames);
        if !renamed {
          failures := failures + {NotMadeCreditable};
          assert NotMadeCreditable in failures;
        }
      }
    }

    method DrawSeed(run: nat, draw: Draw) returns (creditable: bool)
      requires Valid(Drawing(run))
      modifies this`ready, this`drawn, this`history
      ensures Valid(Creating(run, creditable))
      ensures creditable == KernelReady(draw)
    {
      hide Steps, ContentsOk, FedOk, CreditOk, CreditWorthy, TakenOut, DirectoriesOk;
      ghost var drawing := At(Drawing(run));
      var (r, read) := ReadNewSeed(draw);
      creditable := r;
      if creditable {
        ready := ready + {run};
      }
      if read {
        drawn := drawn + {run};
      }
      Record(Creating(run, creditable), SeedProtocol.DrawSeed(draw), drawing);
    }

    method OpenNew(run: nat, creditable: bool, works: bool) returns (file: Option<nat>)
      requires Valid(Creating(run, creditable))
      modifies this`versions, this`files, this`created, this`history
      ensures file.None? <==> !works
      ensures works ==> versions != [] && NonCreditable in Listing() && Listing()[NonCreditable] == file.value
      ensures works ==> forall v :: v in versions ==> v in old(versions) || NamesFile(v, file.value)
      ensures Valid(if works then Writing(run, creditable, file.value) else Idle)
    {
      hide Steps, ContentsOk, FedOk, CreditOk, CreditWorthy, TakenOut;
      ghost var creating := At(Creating(run, creditable));
      if !works {
        Record(Idle, CreateNew(false), creating);
        return None;
      }
      var i := created;
      if NonCreditable in Listing() {
        i := Listing()[NonCreditable];
        files := files[i := Write(files[i], Empty)];
      } else {
        versions := versions + [Listing()[NonCreditable := i]];
        files := files[i := File(Empty, {Empty})];
        created := created + 1;
      }
      Record(Writing(run, creditable, i), CreateNew(true), creating);
      return Some(i);
    }

    /** `write_full`, in one piece or more, and `fsync`. */
    method WriteNew(run: nat, creditable: bool, file: nat, calls: SaveCalls) returns (ok: bool)
      requires Valid(Writing(run, creditable, file))
      modifies this`files, this`history
      ensures ok <==> calls.writes && calls.syncs
      ensures Valid(if ok && creditable then Publishing(run, file) else Idle)
      ensures ok ==> file in files && files[file] == File(Whole(run), {Whole(run)})
    {
      hide Steps, ContentsOk, FedOk, CreditOk, TakenOut;
      if calls.pieces {
        ghost var writing := At(Writing(run, creditable, file));
        CurrentIsAVersion(writing);
        files := files[file := Write(files[file], Torn(run))];
        Record(Writing(run, creditable, file), WritePart, writing);
      }
      ghost var writing := At(Writing(run, creditable, file));
      CurrentIsAVersion(writing);
      if !calls.writes {
        Record(Idle, SeedProtocol.WriteNew(false), writing);
        return false;
      }
      files := files[file := Write(files[file], Whole(run))];
      Record(SyncingFile(run, creditable, file), SeedProtocol.WriteNew(true), writing);
      ghost var syncing := At(SyncingFile(run, creditable, file));
      if calls.syncs {
        files := files[file := File(files[file].now, {files[file].now})];
      }
      Record(if calls.syncs && creditable then Publishing(run, file) else Idle, SyncNew(calls.syncs), syncing);
      ok := calls.syncs;
    }

    method Publish(run: nat, file: nat, works: bool) returns (ok: bool)
      requires Valid(Publishing(run, file))
      modifies this`versions, this`history
      ensures Valid(Idle) && ok == works
      ensures ok ==> versions != [] && Creditable in Listing() && Listing()[Creditable] == file
      ensures ok ==> forall v :: v in versions ==> v in old(versions) || NamesFile(v, file)
    {
      hide Steps, ContentsOk, FedOk, CreditOk, CreditWorthy, TakenOut;
      ghost var publishing := At(Publishing(run, file));
      if works {
        var d := Listing();
        versions := versions + [(d - {NonCreditable})[Creditable := d[NonCreditable]]];
      }
      Record(Idle, PublishNew(works), publishing);
      ok := works;
    }

    ghost predicate Given(from: nat, seed: Content)
      reads this
    {
      exists k :: from <= k < |fed| && fed[k].seed == seed
    }

    ghost function OldFailures(nonCreditable: FileCalls, creditable: FileCalls): set<Failure>
      reads this
    {
      (if FileOk(Present(NonCreditable), Stored(NonCreditable), nonCreditable) then {} else {OldSeed(NonCreditable)}) +
      (if FileOk(Present(Creditable), Stored(Creditable), creditable) then {} else {OldSeed(Creditable)})
    }

    /** The first half of `main`: the two old seeds, the one that earns no credit first. */
    method FeedOldSeeds(run: nat, nonCreditable: FileCalls, creditable: FileCalls, skip: bool)
      returns (failures: set<Failure>)
      requires Valid(Opening(run, NonCreditable))
      modifies this`versions, this`fed, this`history
      ensures Valid(Drawing(run)) && old(fed) <= fed && OnlyLeft(old(versions), versions)
      ensures failures == old(OldFailures(nonCreditable, creditable))
      ensures failures == {} ==> forall n :: old(Stored(n)) == Empty || Given(old(|fed|), old(Stored(n)))
    {
      hide Steps, Inv, OnlyLeft;
      failures := {};
      var ok := SeedFromFileIfExists(run, NonCreditable, nonCreditable, skip);
      if !ok {
        failures := failures + {OldSeed(NonCreditable)};
      }
      assert Stored(Creditable) == old(Stored(Creditable)) && Present(Creditable) == old(Present(Creditable)) by {
        assert forall n :: n == Creditable && n in Listing() ==> n in Listing() - {NonCreditable};
        assert forall n :: n == Creditable && n in old(Listing()) ==> n in old(Listing()) - {NonCreditable};
      }
      label Second:
      ok := SeedFromFileIfExists(run, Creditable, creditable, skip);
      OnlyLeftTransitive(old(versions), old@Second(versions), versions);
      if !ok {
        failures := failures + {OldSeed(Creditable)};
      }
      if failures == {} {
        forall n | old(Stored(n)) != Empty
          ensures Given(old(|fed|), old(Stored(n)))
        {
          if n == NonCreditable {
            assert fed[old(|fed|)].seed == old(Stored(n));
          } else {
            assert fed[old@Second(|fed|)].seed == old(Stored(n));
          }
        }
      }
    }

    /** `main`. Status 0 means that the kernel was given every seed that was stored, and that
        this run's seed is in the current directory with its content synced. The directory is not
        synced after that, so a power failure keeps the seed exactly from some version on
        (`SavedSince`, and `SeedDurability.SeedSurvivesIff` for what is found then). Whatever
        fails, the directory is left in a state of the protocol. */
    method Run(nonCreditable: FileCalls, creditable: FileCalls, skip: bool, save: SaveCalls)
      returns (failures: set<Failure>)
      requires Valid(Idle)
      modifies this
      ensures Valid(Idle) && runs == old(runs) + 1 && old(fed) <= fed
      ensures failures == old(OldFailures(nonCreditable, creditable)) + SaveFailures(save) && Reported(failures, save)
      ensures failures == {} ==> Saved(old(runs), save.draw)
      ensures failures == {} ==> exists first :: SavedSince(old(versions), Listing()[SavedName(save.draw)], first)
      ensures failures == {} ==> forall n :: old(Stored(n)) == Empty || Given(old(|fed|), old(Stored(n)))
    {
      hide Valid, SaveFailures, FileOk, OnlyLeft;
      var run := Start();
      assert forall n :: Stored(n) == old(Stored(n)) && Present(n) == old(Present(n));
      failures := FeedOldSeeds(run, nonCreditable, creditable, skip);
      ghost var left := versions;
      var rest := SaveSeed(run, save);
      SaveFailuresReported(save);
      failures := failures + rest;
      if failures == {} {
        VersionsAfterSave(old(versions), left, Listing()[SavedName(save.draw)], SavedName(save.draw));
      }
    }

    lemma VersionsAfterSave(before: seq<Directory>, left: seq<Directory>, file: nat, name: Name)
      requires Valid(Idle) && versions != [] && name in Listing() && Listing()[name] == file
      requires OnlyLeft(before, left) && forall v :: v in versions ==> v in left || NamesFile(v, file)
      ensures exists first :: SavedSince(before, file, first)
    {
      hide Inv, Steps;
      var s := At(Idle);
      assert Current(s) == Listing() && NamesFile(Current(s), file);
      var first := FirstNaming(s, file);
      forall k | 0 <= k < first
        ensures OnlyLeft(before, [versions[k]])
      {
        assert versions[k] in versions;
      }
      assert SavedSince(before, file, first);
    }

    method Start() returns (run: nat)
      requires Valid(Idle)
      modifies this`runs, this`history
      ensures run == old(runs) && runs == run + 1 && Valid(Opening(run, NonCreditable))
    {
      hide Steps, ContentsOk, FedOk, CreditOk, CreditWorthy, TakenOut, DirectoriesOk;
      ghost var idle := At(Idle);
      run := runs;
      runs := runs + 1;
      Record(Opening(run, NonCreditable), Begin, idle);
    }
  }
}
