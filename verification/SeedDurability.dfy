/** What a power failure leaves of a saved seed (early/helpers/seedrng.cc): the content of the
    file is synced, its entry in the directory is not. */
module SeedDurability {
  import opened SeedProtocol

  ghost predicate NamesFile(d: Directory, i: nat) {
    exists n :: n in d && d[n] == i
  }

  /** Once a version names a file that is still named now, all later versions do. */
  ghost predicate Lasting(s: State) {
    forall i: nat, k: nat, l: nat ::
      k <= l < |s.versions| && NamesFile(Current(s), i) && NamesFile(s.versions[k], i) ==> NamesFile(s.versions[l], i)
  }

  /** The new version names nothing that the one before did not, except a file that no version
      has named. */
  lemma ChangeKeepsLasting(s: State, t: State)
    requires s.versions != [] && t.versions != [] && Lasting(s) && t.versions == s.versions + [Current(t)]
    requires forall i: nat :: NamesFile(Current(t), i)
               ==> NamesFile(Current(s), i) || forall v :: v in s.versions ==> !NamesFile(v, i)
    ensures Lasting(t)
  {
    hide NamesFile;
    forall i: nat, k: nat, l: nat
      | k <= l < |t.versions| && NamesFile(Current(t), i) && NamesFile(t.versions[k], i)
      ensures NamesFile(t.versions[l], i)
    {
      if l < |s.versions| {
        assert t.versions[k] == s.versions[k] && s.versions[k] in s.versions;
        assert t.versions[l] == s.versions[l];
      }
    }
  }

  lemma UnlinkKeepsLasting(s: State, ok: bool)
    requires Inv(s) && Lasting(s) && Enabled(s, UnlinkSeed(ok))
    ensures Lasting(Apply(s, UnlinkSeed(ok)))
  {
    if ok {
      hide ContentsOk, FedOk, CreditOk, Lasting;
      ChangeKeepsLasting(s, Apply(s, UnlinkSeed(ok)));
    }
  }

  lemma CreateKeepsLasting(s: State, ok: bool)
    requires Inv(s) && Lasting(s) && Enabled(s, CreateNew(ok))
    ensures Lasting(Apply(s, CreateNew(ok)))
  {
    if ok && NonCreditable !in Current(s) {
      hide ContentsOk, FedOk, CreditOk, Lasting;
      var t := Apply(s, CreateNew(ok));
      assert forall v :: v in s.versions ==> !NamesFile(v, s.created);
      assert forall n :: n in Current(t) ==> (n in Current(s) && Current(t)[n] == Current(s)[n]) || Current(t)[n] == s.created;
      ChangeKeepsLasting(s, t);
    }
  }

  lemma PublishKeepsLasting(s: State, ok: bool)
    requires Inv(s) && Lasting(s) && Enabled(s, PublishNew(ok))
    ensures Lasting(Apply(s, PublishNew(ok)))
  {
    if ok && NonCreditable in Current(s) {
      hide ContentsOk, FedOk, CreditOk, Lasting;
      var t := Apply(s, PublishNew(ok));
      assert forall n :: n in Current(t) ==> exists m :: m in Current(s) && Current(s)[m] == Current(t)[n] by {
        forall n | n in Current(t)
          ensures exists m :: m in Current(s) && Current(s)[m] == Current(t)[n]
        {
          var m := if n == Creditable then NonCreditable else n;
          assert m in Current(s) && Current(s)[m] == Current(t)[n];
        }
      }
      ChangeKeepsLasting(s, t);
    }
  }

  lemma SameOrOneVersion(s: State, t: State)
    requires Lasting(s) && (t.versions == s.versions || |t.versions| == 1)
    ensures Lasting(t)
  {
    hide NamesFile;
    if t.versions == s.versions && s.versions != [] {
      assert Current(t) == Current(s);
    }
  }

  lemma StepKeepsLasting(s: State, step: Step)
    requires Inv(s) && Lasting(s) && Enabled(s, step)
    ensures Lasting(Apply(s, step))
  {
    match step
    case UnlinkSeed(ok) => UnlinkKeepsLasting(s, ok);
    case CreateNew(ok) => CreateKeepsLasting(s, ok);
    case PublishNew(ok) => PublishKeepsLasting(s, ok);
    case _ =>
      hide ContentsOk, FedOk, CreditOk, ProcessOk;
      SameOrOneVersion(s, Apply(s, step));
  }

  lemma {:induction false} StepsKeepLasting(s: State, steps: seq<Step>, t: State)
    requires Inv(s) && Lasting(s) && Steps(s, steps, t)
    ensures Inv(t) && Lasting(t)
    decreases |steps|
  {
    hide Inv, Lasting, Enabled, Apply;
    if steps != [] {
      StepKeepsInv(s, steps[0]);
      StepKeepsLasting(s, steps[0]);
      StepsKeepLasting(Apply(s, steps[0]), steps[1..], t);
    }
  }

  lemma ReachableLasts(s: State)
    requires Reachable(s)
    ensures Inv(s) && Lasting(s)
  {
    InitialOk();
    var steps :| Steps(Initial, steps, s);
    StepsKeepLasting(Initial, steps, s);
  }

  /** The first version that names a file which the current one names; from it on all do. */
  lemma FirstNaming(s: State, i: nat) returns (first: nat)
    requires Reachable(s) && s.versions != [] && NamesFile(Current(s), i)
    ensures first < |s.versions|
    ensures forall k :: 0 <= k < |s.versions| ==> (NamesFile(s.versions[k], i) <==> first <= k)
  {
    ReachableLasts(s);
    first := 0;
    while !NamesFile(s.versions[first], i)
      invariant first < |s.versions| && forall k :: 0 <= k < first ==> !NamesFile(s.versions[k], i)
      decreases |s.versions| - first
    {
      assert first != |s.versions| - 1;
      first := first + 1;
    }
    assert NamesFile(s.versions[first], i);
  }

  /** Some name in the directory leads to the whole seed of the run. */
  ghost predicate HoldsSeed(s: State, run: nat) {
    s.versions != [] && exists n :: n in Current(s) && Current(s)[n] in s.files && s.files[Current(s)[n]].now == Whole(run)
  }

  /** A saved and synced seed survives a power failure exactly when the version of the directory
      that survives is the one in which its file was created, or a later one. */
  lemma SeedSurvivesIff(s: State, run: nat, i: nat) returns (first: nat)
    requires Reachable(s) && s.versions != [] && NamesFile(Current(s), i)
    requires i in s.files && s.files[i] == File(Whole(run), {Whole(run)})
    ensures first < |s.versions|
    ensures forall k :: 0 <= k < |s.versions| ==> (NamesFile(s.versions[k], i) <==> first <= k)
    ensures forall k: nat, contents :: Enabled(s, PowerFail(k, contents))
              ==> (HoldsSeed(Apply(s, PowerFail(k, contents)), run) <==> first <= k)
  {
    first := FirstNaming(s, i);
    ReachableLasts(s);
    forall k: nat, contents | Enabled(s, PowerFail(k, contents))
      ensures HoldsSeed(Apply(s, PowerFail(k, contents)), run) <==> first <= k
    {
      SurvivesInVersion(s, run, i, k, contents);
    }
  }

  lemma SurvivesInVersion(s: State, run: nat, i: nat, k: nat, contents: map<nat, Content>)
    requires Inv(s) && i in s.files && s.files[i] == File(Whole(run), {Whole(run)}) && Enabled(s, PowerFail(k, contents))
    ensures HoldsSeed(Apply(s, PowerFail(k, contents)), run) <==> NamesFile(s.versions[k], i)
  {
    hide FedOk, CreditOk, ProcessOk;
    var t := Apply(s, PowerFail(k, contents));
    assert Current(t) == s.versions[k] && s.versions[k] in s.versions;
    assert Written(s, i, Whole(run));
    forall n | n in Current(t)
      ensures t.files[Current(t)[n]].now == Whole(run) <==> Current(t)[n] == i
    {
      var j := Current(t)[n];
      assert j in s.files && contents[j] in s.files[j].survivors;
      assert contents[j] == Whole(run) ==> Written(s, j, Whole(run));
    }
  }

  /** A run in which every call works, and a power failure after it that leaves no seed at all:
      neither the creation nor the renaming of the file had reached the disk. */
  lemma SuccessfulRunCanBeLost(d: Draw) returns (steps: seq<Step>, s: State, contents: map<nat, Content>)
    requires KernelReady(d) && FilledByKernel(d)
    ensures Steps(Initial, steps, s) && s.process == Idle && HoldsSeed(s, 0) && 0 in s.ready && 0 in s.drawn
    ensures Enabled(s, PowerFail(0, contents)) && Apply(s, PowerFail(0, contents)).versions == [map[]]
  {
    steps, s := FirstRun(d);
    hide Steps;
    contents := map[0 := Whole(0)];
    assert Creditable in Current(s) && Current(s)[Creditable] == 0;
  }
}
