/** The seed files (early/helpers/seedrng.cc): what a run of the helper does to them, step by
    step, when it may be killed or the power may fail between any two steps.

    Directory changes reach the disk in the order they were made, a rename as a whole; until
    the directory is synced any prefix of them may survive a power failure. File contents
    written but not synced may come back as anything that was in the file since its last sync. */
module SeedProtocol {
  import opened Text

  datatype Name = NonCreditable | Creditable

  /** The content of a seed file: which run wrote it, and whether all of it. */
  datatype Content = Empty | Torn(run: nat) | Whole(run: nat)

  /** A file: its content now, and all contents a power failure may leave in it. */
  datatype File = File(now: Content, survivors: set<Content>)

  type Directory = map<Name, nat>

  /** One seed handed to the kernel. */
  datatype Feed = Feed(seed: Content, credited: bool)

  /** Where the running helper is. */
  datatype Process =
    | Idle
    | Opening(run: nat, name: Name)
    | Reading(run: nat, name: Name, file: nat)
    | Unlinking(run: nat, name: Name, file: nat, content: Content)
    | SyncingDirectory(run: nat, name: Name, file: nat, content: Content)
    | Feeding(run: nat, name: Name, file: nat, content: Content)
    | Drawing(run: nat)
    | Creating(run: nat, ready: bool)
    | Writing(run: nat, ready: bool, file: nat)
    | SyncingFile(run: nat, ready: bool, file: nat)
    | Publishing(run: nat, file: nat)

  /** `versions` lists the directory as it is on disk and after each change made since;
      `files` holds the files 0, 1, … `created - 1`; `runs` counts the runs begun, `ready`
      holds those to which the kernel reported a ready
      generator, `drawn` those that got their new seed from the kernel. */
  datatype State = State(
    versions: seq<Directory>, files: map<nat, File>, created: nat, fed: seq<Feed>,
    runs: nat, ready: set<nat>, drawn: set<nat>, process: Process)

  const Initial := State([map[]], map[], 0, [], 0, {}, {}, Idle)

  function Current(s: State): Directory
    requires s.versions != []
  {
    s.versions[|s.versions| - 1]
  }

  /** The outcomes of the calls of `read_new_seed`. */
  datatype Random = Full | NotImplemented | Failed
  datatype Draw = Draw(nonblocking: Random, pollReady: bool, randomOpens: bool, insecure: bool, urandom: bool)

  /** `read_new_seed`: whether the seed may be credited, and whether it was read at all. */
  function ReadNewSeed(d: Draw): (r: (bool, bool)) {
    if d.nonblocking == Full then (true, true)
    else if d.nonblocking == NotImplemented then
      if !d.randomOpens then (false, false) else (d.pollReady, d.urandom)
    else if d.insecure then (false, true)
    else (false, d.urandom)
  }

  /** The kernel reports a ready generator: it hands out the whole seed without blocking, or it is
      too old for that and polling its device says so. */
  predicate KernelReady(d: Draw) {
    d.nonblocking == Full || (d.nonblocking == NotImplemented && d.randomOpens && d.pollReady)
  }

  /** Some read from the kernel filled the new seed. */
  predicate FilledByKernel(d: Draw) {
    || d.nonblocking == Full
    || (d.nonblocking == Failed && (d.insecure || d.urandom))
    || (d.nonblocking == NotImplemented && d.randomOpens && d.urandom)
  }

  /** An old kernel that reports ready, and a failure to read from it afterwards. */
  predicate ReadyButUnread(d: Draw) {
    d.nonblocking == NotImplemented && d.randomOpens && d.pollReady && !d.urandom
  }

  datatype Step =
    | Begin
    | OpenSeed(ok: bool)
    | ReadSeed(ok: bool)
    | UnlinkSeed(ok: bool)
    | SyncDirectory(ok: bool)
    | FeedSeed(ok: bool, skipCredit: bool)
    | DrawSeed(draw: Draw)
    | CreateNew(ok: bool)
    | WritePart
    | WriteNew(ok: bool)
    | SyncNew(ok: bool)
    | PublishNew(ok: bool)
    | Kill
    | PowerFail(version: nat, contents: map<nat, Content>)

  function AfterFile(run: nat, name: Name): Process {
    if name == NonCreditable then Opening(run, Creditable) else Drawing(run)
  }

  function Change(s: State, d: Directory): State {
    s.(versions := s.versions + [d])
  }

  /** Every content the file has, or may have after a power failure. */
  function Write(f: File, c: Content): File {
    File(c, f.survivors + {c})
  }

  ghost predicate PowerFailPossible(s: State, version: nat, contents: map<nat, Content>) {
    version < |s.versions| && contents.Keys == s.files.Keys
    && forall i :: i in s.files ==> contents[i] in s.files[i].survivors
  }

  /** Whether a step can be taken: the process is at it, and the outcome is possible. */
  ghost predicate Enabled(s: State, step: Step) {
    s.versions != [] &&
    match step
    case Begin => s.process == Idle
    case OpenSeed(ok) => s.process.Opening? && (ok ==> s.process.name in Current(s))
    case ReadSeed(_) => s.process.Reading? && s.process.file in s.files
    case UnlinkSeed(ok) => s.process.Unlinking? && (ok ==> s.process.name in Current(s))
    case SyncDirectory(_) => s.process.SyncingDirectory?
    case FeedSeed(_, _) => s.process.Feeding?
    case DrawSeed(_) => s.process.Drawing?
    case CreateNew(_) =>
      s.process.Creating? && (NonCreditable in Current(s) ==> Current(s)[NonCreditable] in s.files)
    case WritePart => s.process.Writing? && s.process.file in s.files
    case WriteNew(_) => s.process.Writing? && s.process.file in s.files
    case SyncNew(_) => s.process.SyncingFile? && s.process.file in s.files
    case PublishNew(_) => s.process.Publishing?
    case Kill => s.process != Idle
    case PowerFail(v, c) => PowerFailPossible(s, v, c)
  }

  function Apply(s: State, step: Step): State
    requires Enabled(s, step)
  {
    var p := s.process;
    match step
    case Begin => s.(runs := s.runs + 1, process := Opening(s.runs, NonCreditable))
    case OpenSeed(ok) =>
      s.(process := if ok then Reading(p.run, p.name, Current(s)[p.name]) else AfterFile(p.run, p.name))
    case ReadSeed(ok) =>
      s.(process := if ok then Unlinking(p.run, p.name, p.file, s.files[p.file].now) else AfterFile(p.run, p.name))
    case UnlinkSeed(ok) =>
      if ok then Change(s, Current(s) - {p.name}).(process := SyncingDirectory(p.run, p.name, p.file, p.content))
      else s.(process := AfterFile(p.run, p.name))
    case SyncDirectory(ok) =>
      if ok then
        s.(versions := [Current(s)],
           process := if p.content == Empty then AfterFile(p.run, p.name) else Feeding(p.run, p.name, p.file, p.content))
      else s.(process := AfterFile(p.run, p.name))
    case FeedSeed(ok, skip) =>
      s.(fed := if ok then s.fed + [Feed(p.content, p.name == Creditable && !skip)] else s.fed,
         process := AfterFile(p.run, p.name))
    case DrawSeed(d) =>
      var (ready, drawn) := ReadNewSeed(d);
      s.(ready := if ready then s.ready + {p.run} else s.ready,
         drawn := if drawn then s.drawn + {p.run} else s.drawn,
         process := Creating(p.run, ready))
    case CreateNew(ok) =>
      if !ok then s.(process := Idle)
      else if NonCreditable in Current(s) then
        var i := Current(s)[NonCreditable];
        s.(files := s.files[i := Write(s.files[i], Empty)], process := Writing(p.run, p.ready, i))
      else
        var i := s.created;
        Change(s, Current(s)[NonCreditable := i]).(
          files := s.files[i := File(Empty, {Empty})], created := s.created + 1, process := Writing(p.run, p.ready, i))
    case WritePart => s.(files := s.files[p.file := Write(s.files[p.file], Torn(p.run))])
    case WriteNew(ok) =>
      if ok then
        s.(files := s.files[p.file := Write(s.files[p.file], Whole(p.run))], process := SyncingFile(p.run, p.ready, p.file))
      else s.(process := Idle)
    case SyncNew(ok) =>
      if ok then
        var f := s.files[p.file];
        s.(files := s.files[p.file := File(f.now, {f.now})], process := if p.ready then Publishing(p.run, p.file) else Idle)
      else s.(process := Idle)
    case PublishNew(ok) =>
      if ok && NonCreditable in Current(s) then
        var d := Current(s);
        Change(s, (d - {NonCreditable})[Creditable := d[NonCreditable]]).(process := Idle)
      else s.(process := Idle)
    case Kill => s.(process := Idle)
    case PowerFail(v, c) =>
      s.(versions := [s.versions[v]],
         files := map i | i in s.files :: if i in c then File(c[i], {c[i]}) else s.files[i],
         process := Idle)
  }

  // ---- What every reachable state keeps.

  ghost predicate FedRun(s: State, run: nat) {
    exists k :: 0 <= k < |s.fed| && s.fed[k].seed != Empty && s.fed[k].seed.run == run
  }

  /** The runs whose seeds may be in files or in the kernel: all begun ones, except the one
      that is still at work. */
  function Bound(s: State): nat {
    if s.process == Idle || s.runs == 0 then s.runs else s.runs - 1
  }

  ghost predicate Written(s: State, i: nat, c: Content) {
    i in s.files && c in s.files[i].survivors && c != Empty
  }

  /** The file the running helper writes its seed to. */
  function Target(s: State): Option<nat> {
    if s.process.Writing? || s.process.SyncingFile? || s.process.Publishing? then Some(s.process.file) else None
  }

  /** Files exist, are numbered in order, and one directory never names one file twice. */
  ghost predicate DirectoriesOk(s: State) {
    && s.versions != []
    && (forall i: nat :: i in s.files <==> i < s.created)
    && (forall v, n :: v in s.versions && n in v ==> v[n] in s.files)
    && (forall v :: v in s.versions && NonCreditable in v && Creditable in v ==> v[NonCreditable] != v[Creditable])
    && (forall v :: v in s.versions && Creditable in v && NonCreditable in Current(s) ==> v[Creditable] != Current(s)[NonCreditable])
  }

  /** A seed is in one file only, and seeds come from runs that have begun. */
  ghost predicate ContentsOk(s: State) {
    && (forall i :: i in s.files ==> s.files[i].now in s.files[i].survivors)
    && (forall i: nat, c :: Written(s, i, c) ==> c.run < Bound(s) || (Target(s) == Some(i) && c.run == Bound(s)))
    && (forall i: nat, j: nat, c, d :: Written(s, i, c) && Written(s, j, d) && c.run == d.run ==> i == j)
  }

  ghost predicate Named(s: State, i: nat) {
    exists v, n :: v in s.versions && n in v && v[n] == i
  }

  /** No file that some directory version names holds a seed the kernel was given; no seed was
      given twice; only whole seeds of ready runs were credited. */
  ghost predicate FedOk(s: State) {
    && (forall i: nat, c :: Named(s, i) && Written(s, i, c) ==> !FedRun(s, c.run))
    && FeedsOk(s)
  }

  ghost predicate FeedsOk(s: State) {
    && (forall k :: 0 <= k < |s.fed| ==> s.fed[k].seed != Empty && s.fed[k].seed.run < Bound(s))
    && (forall j, k :: 0 <= j < k < |s.fed| ==> s.fed[j].seed.run != s.fed[k].seed.run)
    && (forall k :: 0 <= k < |s.fed| && s.fed[k].credited ==> s.fed[k].seed.Whole? && s.fed[k].seed.run in s.ready)
  }

  ghost predicate CreditWorthy(s: State, i: nat) {
    i in s.files && s.files[i].now.Whole? && s.files[i].survivors == {s.files[i].now} && s.files[i].now.run in s.ready
  }

  /** The creditable name only ever leads to a whole, synced seed of a ready run. */
  ghost predicate CreditOk(s: State) {
    forall v :: v in s.versions && Creditable in v ==> CreditWorthy(s, v[Creditable])
  }

  ghost predicate ProcessOk(s: State) {
    var p := s.process;
    && s.versions != []
    && (p != Idle ==> p.run + 1 == s.runs)
    && (p.Reading? || p.Unlinking? ==> p.name in Current(s) && Current(s)[p.name] == p.file)
    && (p.Unlinking? ==> p.file in s.files && p.content == s.files[p.file].now)
    && (p.SyncingDirectory? || p.Feeding? ==> TakenOut(s, p.name, p.file, p.content))
    && (p.Feeding? ==> p.content != Empty && s.versions == [Current(s)])
    && (p.Creating? || p.Writing? || p.SyncingFile? ==> (p.ready ==> p.run in s.ready))
    && (p.Writing? || p.SyncingFile? || p.Publishing? ==> NonCreditable in Current(s) && Current(s)[NonCreditable] == p.file)
    && (p.SyncingFile? ==> p.file in s.files && s.files[p.file].now == Whole(p.run))
    && (p.Publishing? ==> CreditWorthy(s, p.file) && s.files[p.file].now == Whole(p.run))
  }

  /** The file that was just unlinked: the directory no longer names it, and its seed is new
      to the kernel. */
  ghost predicate TakenOut(s: State, name: Name, file: nat, content: Content) {
    && s.versions != []
    && file in s.files && content == s.files[file].now
    && (forall n :: n in Current(s) ==> Current(s)[n] != file)
    && (content != Empty ==> !FedRun(s, content.run))
    && (name == Creditable ==> CreditWorthy(s, file))
  }

  ghost predicate Inv(s: State) {
    DirectoriesOk(s) && ContentsOk(s) && FedOk(s) && CreditOk(s) && ProcessOk(s)
  }

  lemma InitialOk()
    ensures Inv(Initial)
  {
  }

  lemma CurrentIsAVersion(s: State)
    requires s.versions != []
    ensures Current(s) in s.versions
  {
  }

  /** A directory version after a step was there before it, unless the step made it. */
  lemma VersionsAfter(s: State, step: Step, v: Directory)
    requires Enabled(s, step) && v in Apply(s, step).versions
    ensures v in s.versions || (step.UnlinkSeed? && v == Current(s) - {s.process.name})
         || (step.CreateNew? && NonCreditable !in Current(s) && v == Current(s)[NonCreditable := s.created])
         || (step.PublishNew? && NonCreditable in Current(s)
             && v == (Current(s) - {NonCreditable})[Creditable := Current(s)[NonCreditable]])
  {
    CurrentIsAVersion(s);
  }

  /** A step puts no seed into a file except the running helper's own into its target. */
  lemma WrittenAfter(s: State, step: Step, i: nat, c: Content)
    requires Inv(s) && Enabled(s, step) && Written(Apply(s, step), i, c)
    ensures Written(s, i, c) || (Target(s) == Some(i) && c.run == Bound(s) == s.process.run)
  {
    hide FedOk, CreditOk;
  }

  lemma BoundGrows(s: State, step: Step)
    requires Inv(s) && Enabled(s, step)
    ensures Bound(s) <= Bound(Apply(s, step))
    ensures Target(s).Some? && Target(Apply(s, step)) != Target(s) ==> Bound(s) < Bound(Apply(s, step))
    ensures s.process != Idle ==> s.process.run == Bound(s)
  {
    hide DirectoriesOk, ContentsOk, FedOk, CreditOk;
  }

  /** The directory does not change, or less of it may be found after a power failure. */
  lemma FewerVersions(s: State, t: State)
    requires DirectoriesOk(s) && t.versions != [] && t.files.Keys == s.files.Keys && t.created == s.created
    requires (forall v :: v in t.versions ==> v in s.versions) && (t.versions == s.versions || t.versions == [Current(t)])
    ensures DirectoriesOk(t)
  {
    CurrentIsAVersion(t);
  }

  lemma UnlinkKeepsDirectories(s: State, ok: bool)
    requires DirectoriesOk(s) && Enabled(s, UnlinkSeed(ok))
    ensures DirectoriesOk(Apply(s, UnlinkSeed(ok)))
  {
    CurrentIsAVersion(s);
    if ok {
      var t := Apply(s, UnlinkSeed(ok));
      assert Current(t) == Current(s) - {s.process.name};
    }
  }

  lemma CreateKeepsDirectories(s: State, ok: bool)
    requires DirectoriesOk(s) && Enabled(s, CreateNew(ok))
    ensures DirectoriesOk(Apply(s, CreateNew(ok)))
  {
    CurrentIsAVersion(s);
    if ok && NonCreditable !in Current(s) {
      var t := Apply(s, CreateNew(ok));
      assert Current(t) == Current(s)[NonCreditable := s.created];
      assert forall v, n :: v in s.versions && n in v ==> v[n] < s.created;
    }
  }

  lemma PublishKeepsDirectories(s: State, ok: bool)
    requires DirectoriesOk(s) && Enabled(s, PublishNew(ok))
    ensures DirectoriesOk(Apply(s, PublishNew(ok)))
  {
    CurrentIsAVersion(s);
    if ok && NonCreditable in Current(s) {
      var t, d := Apply(s, PublishNew(ok)), Current(s);
      assert Current(t) == (d - {NonCreditable})[Creditable := d[NonCreditable]];
    }
  }

  lemma StepKeepsDirectories(s: State, step: Step)
    requires Inv(s) && Enabled(s, step)
    ensures DirectoriesOk(Apply(s, step))
  {
    hide FedOk, CreditOk, ContentsOk, DirectoriesOk;
    match step
    case UnlinkSeed(ok) => UnlinkKeepsDirectories(s, ok);
    case CreateNew(ok) => CreateKeepsDirectories(s, ok);
    case PublishNew(ok) => PublishKeepsDirectories(s, ok);
    case _ => OtherKeepsDirectories(s, step);
  }

  lemma OtherKeepsDirectories(s: State, step: Step)
    requires DirectoriesOk(s) && Enabled(s, step) && !step.UnlinkSeed? && !step.CreateNew? && !step.PublishNew?
    ensures DirectoriesOk(Apply(s, step))
  {
    CurrentIsAVersion(s);
    var t := Apply(s, step);
    assert t.files.Keys == s.files.Keys;
    hide DirectoriesOk;
    FewerVersions(s, t);
  }

  lemma StepKeepsContents(s: State, step: Step)
    requires Inv(s) && Enabled(s, step)
    ensures ContentsOk(Apply(s, step))
  {
    var t := Apply(s, step);
    BoundGrows(s, step);
    StepKeepsNow(s, step);
    forall i: nat, c | Written(t, i, c)
      ensures Written(s, i, c) || (Target(s) == Some(i) && c.run == Bound(s) == s.process.run)
    {
      WrittenAfter(s, step, i, c);
    }
    hide Apply, Enabled, DirectoriesOk, FedOk, CreditOk, ProcessOk, Written, Bound, Target;
  }

  lemma StepKeepsNow(s: State, step: Step)
    requires Inv(s) && Enabled(s, step)
    ensures forall i :: i in Apply(s, step).files ==> Apply(s, step).files[i].now in Apply(s, step).files[i].survivors
  {
    hide DirectoriesOk, FedOk, CreditOk;
  }

  lemma NamedAfter(s: State, step: Step, i: nat)
    requires Inv(s) && Enabled(s, step) && Named(Apply(s, step), i)
    ensures Named(s, i) || (step.CreateNew? && i == s.created)
  {
    hide FedOk, CreditOk, ContentsOk;
    CurrentIsAVersion(s);
    var v, n :| v in Apply(s, step).versions && n in v && v[n] == i;
    VersionsAfter(s, step, v);
    hide Apply, Enabled, ProcessOk;
  }

  /** A new file is empty, and the seeds that other files may hold are not in it. */
  lemma NewFileHoldsNothing(s: State, step: Step, c: Content)
    requires Inv(s) && Enabled(s, step) && step.CreateNew?
    ensures !Written(Apply(s, step), s.created, c)
  {
    hide FedOk, CreditOk, ContentsOk;
  }

  lemma NotFedYet(s: State, run: nat)
    requires FeedsOk(s) && Bound(s) <= run
    ensures !FedRun(s, run)
  {
  }

  lemma StepKeepsUnfed(s: State, step: Step, i: nat, c: Content)
    requires Inv(s) && Enabled(s, step)
    requires Named(Apply(s, step), i) && Written(Apply(s, step), i, c)
    ensures !FedRun(s, c.run)
  {
    WrittenAfter(s, step, i, c);
    NamedAfter(s, step, i);
    if step.CreateNew? && i == s.created {
      NewFileHoldsNothing(s, step, c);
    }
    if Bound(s) <= c.run {
      NotFedYet(s, c.run);
    }
  }

  lemma FeedIsOld(s: State, step: Step)
    requires Inv(s) && Enabled(s, step) && step.FeedSeed?
    ensures s.process.content.run < Bound(s)
  {
    hide DirectoriesOk, CreditOk;
    assert Written(s, s.process.file, s.process.content);
  }

  /** The seed about to be fed is new to the kernel. */
  lemma FeedIsNew(s: State, step: Step, k: nat)
    requires Inv(s) && Enabled(s, step) && step.FeedSeed? && k < |s.fed|
    ensures s.fed[k].seed.run != s.process.content.run
  {
    hide DirectoriesOk, CreditOk;
    var p := s.process;
    assert Written(s, p.file, p.content);
    assert s.fed[k].seed.run == p.content.run ==> FedRun(s, p.content.run);
  }

  lemma FeedTakesOut(s: State, step: Step, i: nat, c: Content)
    requires Inv(s) && Enabled(s, step) && step.FeedSeed? && Named(s, i) && Written(s, i, c)
    ensures c.run != s.process.content.run
  {
    hide CreditOk, FedOk;
    assert Written(s, s.process.file, s.process.content);
    var v, n :| v in s.versions && n in v && v[n] == i;
    assert v == Current(s);
  }

  lemma StepKeepsFeeds(s: State, step: Step)
    requires Inv(s) && Enabled(s, step)
    ensures FeedsOk(Apply(s, step))
  {
    var t := Apply(s, step);
    BoundGrows(s, step);
    if step.FeedSeed? {
      FeedIsOld(s, step);
      forall k: nat | k < |s.fed| {
        FeedIsNew(s, step, k);
      }
    }
  }

  lemma StepKeepsFed(s: State, step: Step)
    requires Inv(s) && Enabled(s, step)
    ensures FedOk(Apply(s, step))
  {
    var t := Apply(s, step);
    StepKeepsFeeds(s, step);
    forall i: nat, c | Named(t, i) && Written(t, i, c)
      ensures !FedRun(t, c.run)
    {
      StepKeepsUnfed(s, step, i, c);
      if step.FeedSeed? {
        FeedTakesOut(s, step, i, c);
      }
    }
  }

  lemma StepKeepsCredit(s: State, step: Step)
    requires Inv(s) && Enabled(s, step)
    ensures CreditOk(Apply(s, step))
  {
    hide FedOk, ContentsOk;
  }

  lemma UnlinkTakesOut(s: State, step: Step)
    requires Inv(s) && Enabled(s, step) && step.UnlinkSeed? && step.ok
    ensures ProcessOk(Apply(s, step))
  {
    var p, t := s.process, Apply(s, step);
    CurrentIsAVersion(s);
    assert Named(s, p.file);
    assert Current(t) == Current(s) - {p.name};
    forall n | n in Current(t)
      ensures Current(t)[n] != p.file
    {
      assert n != p.name;
      assert NonCreditable in Current(s) && Creditable in Current(s);
    }
    assert p.content != Empty ==> Written(s, p.file, p.content);
  }

  lemma StepKeepsProcess(s: State, step: Step)
    requires Inv(s) && Enabled(s, step)
    ensures ProcessOk(Apply(s, step))
  {
    CurrentIsAVersion(s);
    if step.UnlinkSeed? && step.ok {
      UnlinkTakesOut(s, step);
    }
  }

  lemma StepKeepsInv(s: State, step: Step)
    requires Inv(s) && Enabled(s, step)
    ensures Inv(Apply(s, step))
  {
    StepKeepsDirectories(s, step);
    StepKeepsContents(s, step);
    StepKeepsFed(s, step);
    StepKeepsCredit(s, step);
    StepKeepsProcess(s, step);
    hide *;
  }

  // ---- Whole runs: any number of boots, runs of the helper, kills and power failures.

  ghost predicate Steps(s: State, steps: seq<Step>, t: State)
    decreases |steps|
  {
    if steps == [] then s == t else Enabled(s, steps[0]) && Steps(Apply(s, steps[0]), steps[1..], t)
  }

  lemma {:induction false} StepsSnoc(s: State, steps: seq<Step>, t: State, step: Step)
    requires Steps(s, steps, t) && Enabled(t, step)
    ensures Steps(s, steps + [step], Apply(t, step))
    decreases |steps|
  {
    if steps != [] {
      StepsSnoc(Apply(s, steps[0]), steps[1..], t, step);
      assert (steps + [step])[1..] == steps[1..] + [step];
    }
    hide Apply, Enabled;
  }

  ghost predicate Reachable(t: State) {
    exists steps :: Steps(Initial, steps, t)
  }

  lemma {:induction false} StepsKeepInv(s: State, steps: seq<Step>, t: State)
    requires Inv(s) && Steps(s, steps, t)
    ensures Inv(t)
    decreases |steps|
  {
    if steps != [] {
      StepKeepsInv(s, steps[0]);
      StepsKeepInv(Apply(s, steps[0]), steps[1..], t);
    }
  }

  /** However often the helper is killed and the power fails, the kernel gets the seed saved by
      one run at most once. */
  lemma SeedFedAtMostOnce(t: State, j: nat, k: nat)
    requires Reachable(t) && j < k < |t.fed|
    ensures t.fed[j].seed != Empty && t.fed[k].seed != Empty && t.fed[j].seed.run != t.fed[k].seed.run
  {
    InitialOk();
    var steps :| Steps(Initial, steps, t);
    StepsKeepInv(Initial, steps, t);
  }

  // ---- What the steps say about the runs.

  /** How many runs were begun. */
  function Begun(steps: seq<Step>): nat {
    if steps == [] then 0 else Begun(steps[..|steps| - 1]) + (if steps[|steps| - 1].Begin? then 1 else 0)
  }

  /** The run drew its new seed, and these were the outcomes. */
  ghost predicate Drew(steps: seq<Step>, run: nat, d: Draw) {
    exists k :: DrewAt(steps, k, run, d)
  }

  ghost predicate DrewAt(steps: seq<Step>, k: nat, run: nat, d: Draw) {
    k < |steps| && steps[k] == DrawSeed(d) && Begun(steps[..k]) == run + 1
  }

  lemma {:induction false} StepsLast(s: State, steps: seq<Step>, t: State) returns (before: State)
    requires Steps(s, steps, t) && steps != []
    ensures Steps(s, steps[..|steps| - 1], before)
    ensures Enabled(before, steps[|steps| - 1]) && t == Apply(before, steps[|steps| - 1])
    decreases |steps|
  {
    hide Enabled, Apply;
    if |steps| == 1 {
      before := s;
    } else {
      before := StepsLast(Apply(s, steps[0]), steps[1..], t);
      assert steps[..|steps| - 1][1..] == steps[1..][..|steps| - 2];
    }
  }

  lemma DrewLonger(steps: seq<Step>, step: Step, run: nat, d: Draw)
    ensures Drew(steps + [step], run, d)
       <==> Drew(steps, run, d) || (step == DrawSeed(d) && Begun(steps) == run + 1)
  {
    var longer := steps + [step];
    hide Begun;
    assert longer[..|steps|] == steps;
    forall k: nat | k < |steps|
      ensures DrewAt(longer, k, run, d) <==> DrewAt(steps, k, run, d)
    {
      assert longer[..k] == steps[..k];
    }
    assert step == DrawSeed(d) && Begun(steps) == run + 1 ==> DrewAt(longer, |steps|, run, d);
  }

  ghost predicate SomeDraw(steps: seq<Step>, run: nat, ready: bool) {
    exists d :: Drew(steps, run, d) && Answers(d, ready)
  }

  predicate Answers(d: Draw, ready: bool) {
    if ready then KernelReady(d) else FilledByKernel(d)
  }

  /** The runs that count as ready are those whose draw the kernel answered so, and those that
      count as drawn are those whose seed some read filled. */
  lemma {:induction false} RunsAre(steps: seq<Step>, t: State)
    requires Steps(Initial, steps, t)
    ensures DrawsOnce(t) && t.runs == Begun(steps)
    ensures forall run: nat :: run in t.ready <==> SomeDraw(steps, run, true)
    ensures forall run: nat :: run in t.drawn <==> SomeDraw(steps, run, false)
    decreases |steps|
  {
    if steps != [] {
      var before, last := steps[..|steps| - 1], steps[|steps| - 1];
      var s := StepsLast(Initial, steps, t);
      assert steps == before + [last];
      RunsAre(before, s);
      StepDraws(s, last);
      forall run: nat, ready: bool
        ensures SomeDraw(steps, run, ready)
           <==> SomeDraw(before, run, ready) || (last.DrawSeed? && s.process.run == run && Answers(last.draw, ready))
      {
        SomeDrawLonger(before, last, run, ready);
      }
      StepReadies(s, last);
      hide Enabled, Apply, SomeDraw, KernelReady, FilledByKernel;
    } else {
      assert forall run: nat, ready: bool :: !SomeDraw(steps, run, ready);
    }
  }

  lemma SomeDrawLonger(steps: seq<Step>, step: Step, run: nat, ready: bool)
    ensures SomeDraw(steps + [step], run, ready)
       <==> SomeDraw(steps, run, ready) || (step.DrawSeed? && Begun(steps) == run + 1 && Answers(step.draw, ready))
  {
    forall d
      ensures Drew(steps + [step], run, d) <==> Drew(steps, run, d) || (step == DrawSeed(d) && Begun(steps) == run + 1)
    {
      DrewLonger(steps, step, run, d);
    }
    hide Drew, Begun, KernelReady, FilledByKernel;
    assert step.DrawSeed? && Begun(steps) == run + 1 ==> Drew(steps + [step], run, step.draw);
  }

  lemma StepReadies(s: State, step: Step)
    requires Enabled(s, step)
    ensures var t := Apply(s, step);
            && t.runs == s.runs + (if step.Begin? then 1 else 0)
            && t.ready == s.ready + (if step.DrawSeed? && KernelReady(step.draw) then {s.process.run} else {})
            && t.drawn == s.drawn + (if step.DrawSeed? && FilledByKernel(step.draw) then {s.process.run} else {})
  {
  }

  /** The run has begun, and is not before its draw. */
  ghost predicate PastDraw(s: State, run: nat) {
    run < s.runs && !(BeforeDraw(s.process) && s.process.run == run)
  }

  lemma StepStaysPast(s: State, step: Step, run: nat)
    requires DrawsOnce(s) && Enabled(s, step) && (PastDraw(s, run) || (step.DrawSeed? && s.process.run == run))
    ensures PastDraw(Apply(s, step), run)
  {
  }

  lemma {:induction false} DrawsAreOver(steps: seq<Step>, t: State, run: nat, d: Draw)
    requires Steps(Initial, steps, t) && Drew(steps, run, d)
    ensures PastDraw(t, run)
    decreases |steps|
  {
    var before, last := steps[..|steps| - 1], steps[|steps| - 1];
    var s := StepsLast(Initial, steps, t);
    assert steps == before + [last];
    RunsAre(before, s);
    DrewLonger(before, last, run, d);
    hide Drew, Apply;
    if Drew(before, run, d) {
      DrawsAreOver(before, s, run, d);
    }
    StepStaysPast(s, last, run);
  }

  /** No run draws twice. */
  lemma {:induction false} DrawsAreUnique(steps: seq<Step>, t: State, run: nat, c: Draw, d: Draw)
    requires Steps(Initial, steps, t) && Drew(steps, run, c) && Drew(steps, run, d)
    ensures c == d
    decreases |steps|
  {
    var before, last := steps[..|steps| - 1], steps[|steps| - 1];
    var s := StepsLast(Initial, steps, t);
    assert steps == before + [last];
    RunsAre(before, s);
    DrewLonger(before, last, run, c);
    DrewLonger(before, last, run, d);
    if Drew(before, run, c) && Drew(before, run, d) {
      DrawsAreUnique(before, s, run, c, d);
    } else if Drew(before, run, c) {
      DrawsAreOver(before, s, run, c);
    } else if Drew(before, run, d) {
      DrawsAreOver(before, s, run, d);
    }
    hide Drew;
  }

  /** Whatever version of the directory is found after a power failure, the creditable name in
      it leads to a seed that was written in full and synced, by a run whose draw the kernel
      answered with a ready generator; no older or partial content can come back in its place. */
  lemma CreditableSeedIsSound(steps: seq<Step>, t: State, v: Directory)
    requires Steps(Initial, steps, t) && v in t.versions && Creditable in v
    ensures v[Creditable] in t.files
    ensures exists run: nat, d :: Drew(steps, run, d) && KernelReady(d)
                                  && t.files[v[Creditable]] == File(Whole(run), {Whole(run)})
  {
    InitialOk();
    StepsKeepInv(Initial, steps, t);
    RunsAre(steps, t);
    hide Drew, KernelReady, Steps;
    var run := t.files[v[Creditable]].now.run;
    assert SomeDraw(steps, run, true);
  }

  /** Entropy is only ever credited for whole seeds of runs with a ready generator. */
  lemma CreditedFeedsAreSound(steps: seq<Step>, t: State, k: nat)
    requires Steps(Initial, steps, t) && k < |t.fed| && t.fed[k].credited
    ensures t.fed[k].seed.Whole? && exists d :: Drew(steps, t.fed[k].seed.run, d) && KernelReady(d)
  {
    InitialOk();
    StepsKeepInv(Initial, steps, t);
    RunsAre(steps, t);
    hide Drew, KernelReady, Steps;
    assert SomeDraw(steps, t.fed[k].seed.run, true);
  }

  // ---- Ready runs whose seed holds nothing new from the kernel.

  /** A run draws once, after which it is past drawing. */
  ghost predicate DrawsOnce(s: State) {
    && (forall run :: run in s.ready + s.drawn ==> run < s.runs)
    && (s.process != Idle ==> s.process.run + 1 == s.runs)
    && (BeforeDraw(s.process) ==> s.process.run !in s.ready + s.drawn)
  }

  predicate BeforeDraw(p: Process) {
    p.Opening? || p.Reading? || p.Unlinking? || p.SyncingDirectory? || p.Feeding? || p.Drawing?
  }

  lemma StepDraws(s: State, step: Step)
    requires DrawsOnce(s) && Enabled(s, step)
    ensures DrawsOnce(Apply(s, step))
    ensures Apply(s, step).ready - Apply(s, step).drawn
         == s.ready - s.drawn + (if step.DrawSeed? && ReadyButUnread(step.draw) then {s.process.run} else {})
  {
  }

  ghost predicate AllReadyDrawsRead(steps: seq<Step>) {
    forall k :: 0 <= k < |steps| && steps[k].DrawSeed? ==> !ReadyButUnread(steps[k].draw)
  }

  lemma {:induction false} StepsDraw(s: State, steps: seq<Step>, t: State)
    requires DrawsOnce(s) && Steps(s, steps, t)
    ensures DrawsOnce(t)
    ensures t.ready <= t.drawn <==> s.ready <= s.drawn && AllReadyDrawsRead(steps)
    decreases |steps|
  {
    if steps != [] {
      var first, rest := steps[0], steps[1..];
      StepDraws(s, first);
      StepsDraw(Apply(s, first), rest, t);
      AllReadyDrawsReadSplit(steps);
      hide Apply, Enabled, AllReadyDrawsRead, ReadyButUnread, DrawsOnce;
    }
  }

  lemma AllReadyDrawsReadSplit(steps: seq<Step>)
    requires steps != []
    ensures AllReadyDrawsRead(steps)
       <==> (steps[0].DrawSeed? ==> !ReadyButUnread(steps[0].draw)) && AllReadyDrawsRead(steps[1..])
  {
    assert forall k :: 0 < k < |steps| ==> steps[k] == steps[1..][k - 1];
    hide ReadyButUnread;
    assert forall k :: 0 <= k < |steps[1..]| ==> steps[1..][k] == steps[k + 1];
  }

  /** Every run the kernel called ready got its seed from the kernel exactly when no draw
      failed after such an answer. */
  lemma ReadyRunsDrewIff(steps: seq<Step>, t: State)
    requires Steps(Initial, steps, t)
    ensures t.ready <= t.drawn <==> AllReadyDrawsRead(steps)
  {
    StepsDraw(Initial, steps, t);
  }

  /** The first run ever, up to the drawing of its seed. */
  lemma FirstDraw(d: Draw) returns (steps: seq<Step>, s: State)
    requires KernelReady(d)
    ensures Steps(Initial, steps, s)
    ensures s == State([map[]], map[], 0, [], 1, {0}, if ReadNewSeed(d).1 then {0} else {}, Creating(0, true))
  {
    steps, s := [], Initial;
    steps, s := Take(steps, s, Begin);
    steps, s := Take(steps, s, OpenSeed(false));
    steps, s := Take(steps, s, OpenSeed(false));
    steps, s := Take(steps, s, DrawSeed(d));
    hide Steps;
  }

  /** The first run ever, when the kernel is ready and every call works. */
  lemma FirstRun(d: Draw) returns (steps: seq<Step>, s: State)
    requires KernelReady(d)
    ensures Steps(Initial, steps, s)
    ensures s == State([map[], map[NonCreditable := 0], map[Creditable := 0]], map[0 := File(Whole(0), {Whole(0)})], 1, [],
                       1, {0}, if ReadNewSeed(d).1 then {0} else {}, Idle)
  {
    hide Steps;
    steps, s := FirstDraw(d);
    steps, s := Take(steps, s, CreateNew(true));
    assert s.versions == [map[], map[NonCreditable := 0]];
    steps, s := Take(steps, s, WriteNew(true));
    steps, s := Take(steps, s, SyncNew(true));
    steps, s := Take(steps, s, PublishNew(true));
    assert s.versions[2] == map[Creditable := 0];
  }

  /** When one did, the seed of a run that got nothing from the kernel ends up creditable. */
  lemma CreditableWithoutNewSeed(d: Draw) returns (steps: seq<Step>, t: State)
    requires ReadyButUnread(d)
    ensures Steps(Initial, steps, t) && t.versions != [] && Creditable in Current(t) && Current(t)[Creditable] in t.files
    ensures t.files[Current(t)[Creditable]].now == Whole(0) && 0 !in t.drawn
  {
    steps, t := FirstRun(d);
    hide Steps;
  }

  lemma Take(steps: seq<Step>, s: State, step: Step) returns (longer: seq<Step>, t: State)
    requires Steps(Initial, steps, s) && Enabled(s, step)
    ensures longer == steps + [step] && t == Apply(s, step) && Steps(Initial, longer, t)
  {
    StepsSnoc(Initial, steps, s, step);
    longer, t := steps + [step], Apply(s, step);
  }
}
