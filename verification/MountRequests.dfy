/** Mount and remount requests (early/helpers/mnt.cc) as calls of the kernel or a helper. */
module MountRequests {
  import opened Text
  import opened MountTable
  import opened MountOptions
  import opened MountPrinter

  /** What reaches the kernel or a helper program, in order. */
  datatype Call = Mount(flags: Flags, data: Option<string>) | Helper(options: string)

  /** The outcomes of the calls: whether a helper program exists and how running it ends,
      whether the mount and the propagation change succeed. */
  datatype Outcomes = Outcomes(helperPresent: bool, helperStatus: int, mountOk: bool, propagationOk: bool)

  datatype Run = Run(ret: int, calls: seq<Call>)

  /** The part of a request that needs a call of its own, and the rest. */
  function PropagationPart(flags: Flags): (r: Flags)
    ensures r == {} <==> flags !! PROPAGATION
  {
    var b := flags * PROPAGATION;
    if b == {} then {} else
      assert b <= flags * (PROPAGATION + {Rec});
      flags * (PROPAGATION + {Rec})
  }

  function MountPart(flags: Flags): (r: Flags)
    ensures r !! PROPAGATION && r + PropagationPart(flags) == flags
  {
    flags - PropagationPart(flags)
  }

  /** The calls a mount request makes. */
  function MountRun(flags: Flags, eopts: string, helper: bool, env: Outcomes): Run {
    var propagation := PropagationPart(flags);
    var base := MountPart(flags);
    var help := Helper(Unparse(KNOWN_OPTS, base, eopts));
    var mount := Mount(base, Some(eopts));
    if helper && env.helperPresent then Run(env.helperStatus, [help])
    else if !env.mountOk then
      if env.helperPresent then Run(env.helperStatus, [mount, help]) else Run(1, [mount])
    else if propagation == {} then Run(0, [mount])
    else Run(if env.propagationOk then 0 else 1, [mount, Mount(propagation, None)])
  }

  method DoMountRaw(flags: Flags, eopts: string, helper: bool, env: Outcomes) returns (ret: int, calls: seq<Call>)
    ensures Run(ret, calls) == MountRun(flags, eopts, helper, env)
  {
    hide KNOWN_OPTS;
    var base, pflags := flags, flags;
    calls := [];
    if pflags * PROPAGATION != {} {
      pflags := pflags * (PROPAGATION + {Rec});
      base := base - (PROPAGATION + {Rec});
    }
    assert base == MountPart(flags);
    assert pflags * PROPAGATION == flags * PROPAGATION;
    var options := UnparseMntopts(base, eopts);
    if helper && env.helperPresent {
      return env.helperStatus, [Helper(options)];
    }
    calls := [Mount(base, Some(eopts))];
    if !env.mountOk {
      if !env.helperPresent {
        return 1, calls;
      }
      return env.helperStatus, calls + [Helper(options)];
    }
    if pflags * PROPAGATION != {} {
      calls := calls + [Mount(pflags, None)];
      if !env.propagationOk {
        return 1, calls;
      }
    }
    ret := 0;
  }

  /** The union of the flags the kernel was asked for. */
  function Asked(calls: seq<Call>): Flags {
    if calls == [] then {} else (if calls[0].Mount? then calls[0].flags else {}) + Asked(calls[1..])
  }

  lemma AskedUnfold(calls: seq<Call>)
    requires 1 <= |calls| <= 2
    ensures Asked(calls) == (if calls[0].Mount? then calls[0].flags else {})
                          + (if |calls| == 2 && calls[1].Mount? then calls[1].flags else {})
  {
    if |calls| == 2 {
      assert calls[1..] == [calls[1]];
      AskedUnfold([calls[1]]);
    }
  }

  /** No kernel call mixes a propagation change with a mount, and a request served by the
      kernel alone asks for exactly the requested flags. */
  lemma RequestConserved(flags: Flags, eopts: string, helper: bool, env: Outcomes)
    ensures var run := MountRun(flags, eopts, helper, env);
      && (forall c :: c in run.calls && c.Mount? ==> c.flags !! PROPAGATION || c.flags <= PROPAGATION + {Rec})
      && (env.mountOk && !(helper && env.helperPresent) ==> Asked(run.calls) == flags)
  {
    hide KNOWN_OPTS;
    AskedUnfold(MountRun(flags, eopts, helper, env).calls);
  }

  /** The propagation change is made exactly when one was requested and the kernel's own
      mount succeeded: a helper that serves the request drops it. */
  lemma PropagationMadeIff(flags: Flags, eopts: string, helper: bool, env: Outcomes)
    ensures Asked(MountRun(flags, eopts, helper, env).calls) !! PROPAGATION
       <==> flags !! PROPAGATION || !env.mountOk || (helper && env.helperPresent)
  {
    hide KNOWN_OPTS;
    AskedUnfold(MountRun(flags, eopts, helper, env).calls);
    RequestConserved(flags, eopts, helper, env);
  }

  /** A request succeeds exactly when the helper that ran did, or the kernel's mount and the
      propagation change did; the mount passes the left-over text on, the propagation change
      nothing, and it comes last. */
  lemma RunReports(flags: Flags, eopts: string, helper: bool, env: Outcomes)
    ensures var run := MountRun(flags, eopts, helper, env);
      && (run.ret == 0 <==> if env.helperPresent && (helper || !env.mountOk) then env.helperStatus == 0
                            else env.mountOk && (flags !! PROPAGATION || env.propagationOk))
      && (forall c :: c in run.calls && c.Mount? ==> c.data == if c.flags !! PROPAGATION then Some(eopts) else None)
      && (run.calls != [] && forall i :: 0 <= i < |run.calls| - 1 ==> run.calls[i].Mount? && run.calls[i].flags !! PROPAGATION)
  {
    hide KNOWN_OPTS, Unparse;
  }

  /** A helper runs exactly when there is one and it is asked first or the mount fails. */
  lemma HelperRunsIff(flags: Flags, eopts: string, helper: bool, env: Outcomes)
    ensures (exists c :: c in MountRun(flags, eopts, helper, env).calls && c.Helper?)
       <==> env.helperPresent && (helper || !env.mountOk)
  {
    hide KNOWN_OPTS;
    var calls := MountRun(flags, eopts, helper, env).calls;
    if env.helperPresent && (helper || !env.mountOk) {
      assert calls[|calls| - 1] in calls && calls[|calls| - 1].Helper?;
    }
  }

  lemma HelperGetsPrinted(flags: Flags, eopts: string, helper: bool, env: Outcomes, c: Call)
    requires c in MountRun(flags, eopts, helper, env).calls && c.Helper?
    ensures c.options == Unparse(KNOWN_OPTS, MountPart(flags), eopts)
  {
    hide KNOWN_OPTS, Unparse;
  }

  lemma PrintedReadsBackIff(p: Parsed)
    requires Good(KNOWN_OPTS, p)
    ensures var base := MountPart(p.flags);
            Parse(KNOWN_OPTS, Unparse(KNOWN_OPTS, base, p.extras), Parsed({}, "")) == Parsed(base, p.extras)
            <==> Bind !in base && Rec !in base
  {
    KnownRowsFound();
    var base := MountPart(p.flags);
    FlagsReparse(base);
    UnparseReparse(KNOWN_OPTS, base, p.extras);
    hide KNOWN_OPTS;
    ReparsedIsSameIff(base);
  }

  /** Whenever a helper runs, first or after a failed mount, what it reads back from its option
      string is the mount request without the propagation bits exactly when neither bind nor rec
      is left in it. */
  lemma HelperReadsRequestIff(opts: string, start: Flags, helper: bool, env: Outcomes, c: Call)
    requires GoodFlags(start) && c.Helper?
    requires var p := Parse(KNOWN_OPTS, opts, Parsed(start, ""));
             c in MountRun(p.flags, p.extras, helper, env).calls
    ensures var p := Parse(KNOWN_OPTS, opts, Parsed(start, ""));
            var base := MountPart(p.flags);
            Parse(KNOWN_OPTS, c.options, Parsed({}, "")) == Parsed(base, p.extras) <==> Bind !in base && Rec !in base
  {
    TokensKeepGood(Split(opts, ','), Parsed(start, ""));
    var p := Parse(KNOWN_OPTS, opts, Parsed(start, ""));
    hide KNOWN_OPTS, Unparse, GoodFlags, MountPart;
    HelperGetsPrinted(p.flags, p.extras, helper, env, c);
    PrintedReadsBackIff(p);
  }

  /** One line of the kernel's mount table. */
  datatype MountEntry = MountEntry(dir: string, opts: string)

  /** The first entry for the target. */
  function FirstAt(mtab: seq<MountEntry>, tgt: string): (r: Option<MountEntry>)
    ensures r.None? ==> forall i :: 0 <= i < |mtab| ==> mtab[i].dir != tgt
    ensures r.Some? ==> exists i :: 0 <= i < |mtab| && mtab[i] == r.value && r.value.dir == tgt
                                    && forall j :: 0 <= j < i ==> mtab[j].dir != tgt
  {
    if mtab == [] then None else if mtab[0].dir == tgt then Some(mtab[0]) else FirstAt(mtab[1..], tgt)
  }

  /** A remount is one mount request whose flags and left-over text come from a single parse
      of the entry's current options followed by the requested ones. */
  method DoRemount(mtab: seq<MountEntry>, tgt: string, opts: string, env: Outcomes) returns (ret: int, calls: seq<Call>)
    ensures FirstAt(mtab, tgt) == None ==> ret == 1 && calls == []
    ensures FirstAt(mtab, tgt).Some? ==>
      var p := Parse(KNOWN_OPTS, FirstAt(mtab, tgt).value.opts + [','] + opts, Parsed({Silent, Remount}, ""));
      calls == MountRun(p.flags, p.extras, false, env).calls
      && (ret == 0 <==> MountRun(p.flags, p.extras, false, env).ret == 0)
  {
    hide KNOWN_OPTS;
    var rmflags, mtabEopts := {Silent, Remount}, "";
    var n := 0;
    while n < |mtab| && mtab[n].dir != tgt
      invariant 0 <= n <= |mtab|
      invariant FirstAt(mtab, tgt) == FirstAt(mtab[n..], tgt)
    {
      n := n + 1;
    }
    if n == |mtab| {
      return 1, [];
    }
    rmflags, mtabEopts := ParseMntopts(Some(mtab[n].opts), rmflags, mtabEopts);
    rmflags, mtabEopts := ParseMntopts(Some(opts), rmflags, mtabEopts);
    ParseAppend(KNOWN_OPTS, mtab[n].opts, opts, Parsed({Silent, Remount}, ""));
    ret, calls := DoMountRaw(rmflags, mtabEopts, false, env);
    if ret != 0 {
      ret := 1;
    }
  }
}
