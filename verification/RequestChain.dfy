/** The request chain of one device (early/helpers/devmon.cc): events about the device start a
    chain of requests to dinit, whose replies come back in any order. */
module RequestChain {
  import opened Text

  type Service = string
  type Handle = nat

  /** The fields of `device` that the chain works on. */
  datatype Device = Device(
    dropping: set<Service>, adding: set<Service>, next: set<Service>,
    deviceSvc: Option<Handle>, pendingSvcs: int,
    removed: bool, processing: bool, removal: bool, pending: bool, hasTag: bool)

  const Fresh := Device({}, {}, {}, None, 0, false, false, false, false, false)

  /** A request whose reply comes back to the device. */
  datatype Call = LoadDevice | DependDevice | LoadService(service: Service, drop: bool)

  /** An event about a tagged device. */
  datatype Event = Event(removed: bool, services: set<Service>)

  /** A chain: the event it was started for, and what it set out to do. */
  datatype Chain = Chain(event: int, removal: bool, adding: set<Service>, dropping: set<Service>, coalesced: bool)

  /** The device, the replies it waits for (`waiting` are its entries in `map_svcdev`, with the
      service behind each handle), and what has happened so far: `settled` are the service
      requests of the latest chain that are done with, `linked` is whether that chain asked for
      the system to depend on the device service or not to, if it did ask, `ended` counts the
      times a reply led back to `process`, `signals` is what `ready` is called with, whoever is told
      then (see `DeviceIndex`). */
  datatype State = State(
    dev: Device, calls: set<Call>, waiting: map<Handle, Service>, aborted: bool, settled: set<Call>, linked: Option<bool>,
    tagged: seq<Event>, chains: seq<Chain>, ended: nat, signals: seq<bool>)

  const Initial := State(Fresh, {}, map[], false, {}, None, [], [], 0, [])

  /** Whether the requests that `process` makes can be issued. */
  datatype Issue = Issue(closes: bool, loads: bool)

  /** `device::process` */
  function Process(s: State, issue: Issue, reply: bool): State {
    var called := s.(ended := if reply then s.ended + 1 else s.ended);
    if s.dev.deviceSvc.Some? && !issue.closes then
      called.(dev := s.dev.(processing := false, pending := false), aborted := true)
    else if !s.dev.pending then
      Shuffled(called).(dev := Shuffled(called).dev.(processing := false))
    else
      Started(Shuffled(called), issue.loads, reply)
  }

  /** Tell the clients what the chain made of the device, and move the service sets on. */
  function Shuffled(s: State): State {
    s.(dev := s.dev.(deviceSvc := None, dropping := s.dev.adding, adding := s.dev.next, next := {}),
       signals := s.signals + [!s.dev.removal])
  }

  /** Start a chain, when the request can be issued. */
  function Started(s: State, loads: bool, reply: bool): State {
    var d := s.dev.(pending := false, removal := s.dev.removed, processing := loads);
    if !loads then s.(dev := d, aborted := true)
    else
      s.(dev := d, calls := s.calls + {LoadDevice}, settled := {}, linked := None,
         chains := s.chains + [Chain(|s.tagged| - 1, d.removed, d.adding, d.dropping, reply)])
  }

  datatype Step =
    | Udev(removed: bool, tag: bool, services: set<Service>, issue: Issue)
    | DeviceLoaded(handle: Handle, issued: bool)
    | DeviceNotLoaded(issue: Issue)
    | DeviceDepended(issued: bool)
    | ServiceNotLoaded(service: Service, drop: bool, issue: Issue)
    | ServiceLoaded(service: Service, drop: bool, handle: Handle, started: bool, issued: bool, issue: Issue)
    | ServiceEvent(handle: Handle, issue: Issue)
    | LoadFailed(call: Call)

  /** Replies come to requests that were made; handles are new; nothing happens after an abort. */
  ghost predicate Enabled(s: State, step: Step) {
    !s.aborted &&
    match step
    case Udev(_, _, _, _) => true
    case DeviceLoaded(_, _) => LoadDevice in s.calls
    case DeviceNotLoaded(_) => LoadDevice in s.calls
    case DeviceDepended(_) => DependDevice in s.calls
    case ServiceNotLoaded(n, drop, _) => LoadService(n, drop) in s.calls
    case ServiceLoaded(n, drop, h, _, _, _) => LoadService(n, drop) in s.calls && h !in s.waiting
    case ServiceEvent(h, _) => h in s.waiting
    case LoadFailed(call) => call in s.calls && !call.DependDevice?
  }

  /** `--dev->pending_svcs`, and on to `process` when that was the last. */
  function CountDown(s: State, issue: Issue): State {
    var t := s.(dev := s.dev.(pendingSvcs := s.dev.pendingSvcs - 1));
    if t.dev.pendingSvcs == 0 then Process(t, issue, true) else t
  }

  /** `handle_device_dinit`, after the caller has set `removed` */
  function HandleEvent(s: State, removed: bool, tag: bool, services: set<Service>, issue: Issue): State {
    var d := s.dev.(removed := removed, hasTag := s.dev.hasTag || tag);
    if !d.hasTag then s.(dev := d, signals := s.signals + [!removed])
    else
      var t := Noted(s, Event(removed, if removed then {} else services));
      if d.processing then t else Process(t, issue, false)
  }

  /** An event about a tagged device is kept until it can be processed; only the latest is. */
  function Noted(s: State, event: Event): State {
    var d := s.dev.(removed := event.removed, hasTag := true, next := event.services, pending := true);
    s.(dev := d, tagged := s.tagged + [event])
  }

  function Settle(s: State, call: Call): State {
    s.(calls := s.calls - {call}, settled := s.settled + {call})
  }

  function Requests(services: set<Service>, drop: bool): set<Call> {
    set n | n in services :: LoadService(n, drop)
  }

  /** One callback, or one event about the device. */
  function Apply(s: State, step: Step): State
    requires Enabled(s, step)
  {
    var d := s.dev;
    match step
    case Udev(removed, tag, services, issue) => HandleEvent(s, removed, tag, services, issue)
    case DeviceLoaded(h, issued) =>
      s.(dev := d.(deviceSvc := Some(h)), calls := s.calls - {LoadDevice} + (if issued then {DependDevice} else {}),
         linked := Some(!d.removal), aborted := !issued)
    case DeviceNotLoaded(issue) =>
      Process(s.(dev := d.(deviceSvc := None), calls := s.calls - {LoadDevice}), issue, true)
    case DeviceDepended(issued) =>
      s.(dev := d.(pendingSvcs := |d.dropping| + |d.adding|), aborted := !issued,
         calls := s.calls - {DependDevice} + Requests(d.dropping, true) + Requests(d.adding, false))
    case ServiceNotLoaded(n, drop, issue) =>
      CountDown(Settle(s, LoadService(n, drop)), issue)
    case ServiceLoaded(n, drop, h, started, issued, issue) =>
      var t := s.(calls := s.calls - {LoadService(n, drop)});
      if drop || started then
        if issued then CountDown(Settle(s, LoadService(n, drop)), issue) else t.(aborted := true)
      else t.(waiting := s.waiting[h := n], aborted := !issued)
    case ServiceEvent(h, issue) =>
      CountDown(s.(waiting := s.waiting - {h}, settled := s.settled + {LoadService(s.waiting[h], false)}), issue)
    case LoadFailed(call) => s.(calls := s.calls - {call}, aborted := true)
  }

  // ---- What every state of a run keeps.

  function Loads(calls: set<Call>): set<Call> {
    set c | c in calls && c.LoadService?
  }

  /** The counter is the number of service loads and service events still to come. */
  ghost predicate Counted(s: State) {
    s.dev.pendingSvcs == |Loads(s.calls)| + |s.waiting.Keys|
  }

  /** One chain at most: nothing is outstanding between chains, and in a chain first the device
      service is loaded, then made a dependency, then the services are waited for. */
  ghost predicate OneChain(s: State) {
    && (!s.dev.processing ==> s.calls == {} && s.waiting == map[] && s.dev.deviceSvc == None)
    && (LoadDevice in s.calls ==> s.calls == {LoadDevice} && s.waiting == map[] && s.dev.deviceSvc == None)
    && (DependDevice in s.calls ==> s.calls == {DependDevice} && s.waiting == map[])
  }

  /** Chains were started for tagged events, in order, each with the flag and the services of
      its event; between chains there is no event left over. */
  ghost predicate ChainsFollowEvents(s: State) {
    && (forall k :: 0 <= k < |s.chains| ==> StartedFor(s.tagged, s.chains[k]))
    && (forall j, k :: 0 <= j < k < |s.chains| ==> s.chains[j].event < s.chains[k].event)
    && (s.chains != [] && s.dev.pending ==> Last(s.chains).event < |s.tagged| - 1)
    && (!s.dev.processing ==> !s.dev.pending)
    && (!s.dev.pending ==> (s.tagged == [] <==> s.chains == []))
    && (!s.dev.pending && s.chains != [] ==> Last(s.chains).event == |s.tagged| - 1)
  }

  ghost predicate StartedFor(tagged: seq<Event>, c: Chain) {
    0 <= c.event < |tagged| && tagged[c.event] == Event(c.removal, c.adding)
  }

  /** The device's own fields agree with the latest event and the latest chain. */
  ghost predicate FieldsFollow(s: State) {
    var d := s.dev;
    && (!d.hasTag ==> s.tagged == [] && !d.processing)
    && (s.tagged != [] ==> d.hasTag && d.removed == Last(s.tagged).removed)
    && (d.pending ==> s.tagged != [] && d.next == Last(s.tagged).services)
    && (!d.pending ==> d.next == {})
    && d.removal == (s.chains != [] && Last(s.chains).removal)
    && (d.processing ==> s.chains != [] && d.removal == Last(s.chains).removal
                         && d.adding == Last(s.chains).adding && d.dropping == Last(s.chains).dropping)
    && (!d.processing ==> d.adding == {})
    && (s.linked.Some? ==> s.chains != [] && s.linked.value == !Last(s.chains).removal)
  }

  /** Every chain was left by one reply, except the one in flight; the previous chain's services
      are dropped exactly when the next event came before its end. */
  ghost predicate ChainsEnd(s: State) {
    && |s.chains| == s.ended + (if s.dev.processing then 1 else 0)
    && EachDropsPrevious(s.chains)
  }

  ghost predicate EachDropsPrevious(chains: seq<Chain>) {
    forall k :: 0 <= k < |chains| ==> DropsPrevious(chains, k)
  }

  ghost predicate DropsPrevious(chains: seq<Chain>, k: nat)
    requires k < |chains|
  {
    if chains[k].coalesced then k > 0 && chains[k].dropping == chains[k - 1].adding else chains[k].dropping == {}
  }

  ghost predicate Signalled(s: State) {
    !s.dev.processing && s.signals != [] ==> Last(s.signals) == !s.dev.removed
  }

  ghost predicate Inv(s: State) {
    s.aborted || (Counted(s) && OneChain(s) && ChainsFollowEvents(s) && FieldsFollow(s) && ChainsEnd(s) && Signalled(s))
  }

  lemma InitialOk()
    ensures Inv(Initial)
  {
  }

  lemma {:induction false} RequestsCount(services: set<Service>, drop: bool)
    ensures |Requests(services, drop)| == |services|
    decreases |services|
  {
    if services != {} {
      var n :| n in services;
      RequestsCount(services - {n}, drop);
      assert Requests(services, drop) == Requests(services - {n}, drop) + {LoadService(n, drop)};
    }
  }

  lemma LoadsOfRequests(a: set<Service>, b: set<Service>)
    ensures |Loads(Requests(a, true) + Requests(b, false))| == |a| + |b|
  {
    RequestsCount(a, true);
    RequestsCount(b, false);
    var all := Requests(a, true) + Requests(b, false);
    assert Loads(all) == all;
    assert Requests(a, true) !! Requests(b, false);
  }

  lemma LoadsWithout(calls: set<Call>, c: Call)
    requires c in calls && c.LoadService?
    ensures |Loads(calls - {c})| == |Loads(calls)| - 1
  {
    assert Loads(calls - {c}) == Loads(calls) - {c};
  }

  lemma OneMoreDrops(chains: seq<Chain>, c: Chain)
    requires EachDropsPrevious(chains) && DropsPrevious(chains + [c], |chains|)
    ensures EachDropsPrevious(chains + [c])
  {
    forall k | 0 <= k < |chains|
      ensures DropsPrevious(chains + [c], k)
    {
      assert DropsPrevious(chains, k);
    }
  }

  lemma QuietAfterProcess(s: State, issue: Issue, reply: bool)
    requires !s.aborted && s.calls == {} && s.waiting == map[] && s.dev.pendingSvcs == 0
    ensures Process(s, issue, reply).aborted || (Counted(Process(s, issue, reply)) && OneChain(Process(s, issue, reply)))
  {
    assert Loads({LoadDevice}) == {};
    assert Loads({}) == {};
    assert s.waiting.Keys == {};
  }

  /** `process`, called by the last reply of a chain. */
  lemma ProcessOnReply(s: State, issue: Issue)
    requires !s.aborted && s.dev.processing && s.calls == {} && s.waiting == map[] && s.dev.pendingSvcs == 0
    requires ChainsFollowEvents(s) && FieldsFollow(s) && ChainsEnd(s)
    ensures Inv(Process(s, issue, true))
  {
    hide EachDropsPrevious, Counted, OneChain, Loads;
    QuietAfterProcess(s, issue, true);
    var d := s.dev;
    if d.pending {
      OneMoreDrops(s.chains, Chain(|s.tagged| - 1, d.removed, d.next, d.adding, true));
    }
  }

  /** `process`, called for an event between chains. */
  lemma ProcessOnEvent(s: State, event: Event, issue: Issue)
    requires Inv(s) && !s.aborted && !s.dev.processing
    ensures Inv(Process(Noted(s, event), issue, false))
  {
    NoLoads();
    QuietAfterProcess(Noted(s, event), issue, false);
    HistoryAfterEvent(s, event, issue);
    hide Process, Noted, ChainsFollowEvents, FieldsFollow, ChainsEnd, Signalled, Counted, OneChain;
  }

  lemma HistoryAfterEvent(s: State, event: Event, issue: Issue)
    requires !s.aborted && !s.dev.processing
    requires ChainsFollowEvents(s) && FieldsFollow(s) && ChainsEnd(s)
    ensures var t := Process(Noted(s, event), issue, false);
            t.aborted || (ChainsFollowEvents(t) && FieldsFollow(t) && ChainsEnd(t) && Signalled(t))
  {
    hide EachDropsPrevious;
    OneMoreDrops(s.chains, Chain(|s.tagged|, event.removed, event.services, {}, false));
  }

  lemma NoLoads()
    ensures Loads({}) == {}
  {
  }

  lemma EventWhileProcessing(s: State, event: Event)
    requires Inv(s) && !s.aborted && s.dev.processing
    ensures Inv(Noted(s, event))
  {
  }

  lemma UdevKeepsInv(s: State, step: Step)
    requires Inv(s) && Enabled(s, step) && step.Udev?
    ensures Inv(Apply(s, step))
  {
    var event := Event(step.removed, if step.removed then {} else step.services);
    if s.dev.hasTag || step.tag {
      if s.dev.processing {
        EventWhileProcessing(s, event);
      } else {
        ProcessOnEvent(s, event, step.issue);
      }
      hide Process, Inv;
    }
  }

  lemma CountDownKeepsInv(s: State, issue: Issue)
    requires !s.aborted && s.dev.processing && s.dev.pendingSvcs == |Loads(s.calls)| + |s.waiting.Keys| + 1
    requires LoadDevice !in s.calls && DependDevice !in s.calls
    requires ChainsFollowEvents(s) && FieldsFollow(s) && ChainsEnd(s)
    ensures Inv(CountDown(s, issue))
  {
    var t := s.(dev := s.dev.(pendingSvcs := s.dev.pendingSvcs - 1));
    assert Loads(s.calls) == s.calls;
    if t.dev.pendingSvcs == 0 {
      ProcessOnReply(t, issue);
    }
  }

  lemma DeviceLoadedKeepsInv(s: State, h: Handle, issued: bool)
    requires Inv(s) && Enabled(s, DeviceLoaded(h, issued))
    ensures Inv(Apply(s, DeviceLoaded(h, issued)))
  {
    assert s.calls - {LoadDevice} == {};
    assert Loads({DependDevice}) == Loads({LoadDevice}) == {};
    hide EachDropsPrevious, StartedFor;
  }

  lemma DeviceNotLoadedKeepsInv(s: State, issue: Issue)
    requires Inv(s) && Enabled(s, DeviceNotLoaded(issue))
    ensures Inv(Apply(s, DeviceNotLoaded(issue)))
  {
    hide EachDropsPrevious, StartedFor, Process;
    assert Loads({LoadDevice}) == {};
    assert s.calls - {LoadDevice} == {};
    ProcessOnReply(s.(dev := s.dev.(deviceSvc := None), calls := s.calls - {LoadDevice}), issue);
  }

  lemma DeviceDependedKeepsInv(s: State, issued: bool)
    requires Inv(s) && Enabled(s, DeviceDepended(issued))
    ensures Inv(Apply(s, DeviceDepended(issued)))
  {
    hide EachDropsPrevious, StartedFor;
    LoadsOfRequests(s.dev.dropping, s.dev.adding);
    assert s.calls - {DependDevice} + Requests(s.dev.dropping, true) + Requests(s.dev.adding, false)
        == Requests(s.dev.dropping, true) + Requests(s.dev.adding, false);
    hide Loads;
  }

  lemma ServiceReplyKeepsInv(s: State, step: Step)
    requires Inv(s) && Enabled(s, step) && (step.ServiceNotLoaded? || step.ServiceLoaded?)
    ensures Inv(Apply(s, step))
  {
    hide EachDropsPrevious, StartedFor, CountDown;
    var call := LoadService(step.service, step.drop);
    LoadsWithout(s.calls, call);
    CountDownKeepsInv(Settle(s, call), step.issue);
    hide Loads;
  }

  lemma StepKeepsInv(s: State, step: Step)
    requires Inv(s) && Enabled(s, step)
    ensures Inv(Apply(s, step))
  {
    match step
    case Udev(_, _, _, _) => UdevKeepsInv(s, step);
    case DeviceLoaded(h, issued) => DeviceLoadedKeepsInv(s, h, issued);
    case DeviceNotLoaded(issue) => DeviceNotLoadedKeepsInv(s, issue);
    case DeviceDepended(issued) => DeviceDependedKeepsInv(s, issued);
    case ServiceNotLoaded(_, _, _) => ServiceReplyKeepsInv(s, step);
    case ServiceLoaded(_, _, _, _, _, _) => ServiceReplyKeepsInv(s, step);
    case ServiceEvent(h, issue) =>
      CountDownKeepsInv(s.(waiting := s.waiting - {h}, settled := s.settled + {LoadService(s.waiting[h], false)}), issue);
      hide CountDown, Counted, ChainsFollowEvents, FieldsFollow, ChainsEnd;
    case LoadFailed(_) =>
  }

  // ---- Whole runs: every interleaving of events and replies.

  ghost predicate Steps(s: State, steps: seq<Step>, t: State)
    decreases |steps|
  {
    if steps == [] then s == t else Enabled(s, steps[0]) && Steps(Apply(s, steps[0]), steps[1..], t)
  }

  ghost predicate Reachable(t: State) {
    exists steps :: Steps(Initial, steps, t)
  }

  lemma {:induction false} StepsKeepInv(s: State, steps: seq<Step>, t: State)
    requires Inv(s) && Steps(s, steps, t)
    ensures Inv(t)
    decreases |steps|
  {
    hide Inv, Apply, Enabled;
    if steps != [] {
      StepKeepsInv(s, steps[0]);
      StepsKeepInv(Apply(s, steps[0]), steps[1..], t);
    }
  }

  lemma {:induction false} StepsSnoc(s: State, steps: seq<Step>, t: State, step: Step)
    requires Steps(s, steps, t) && Enabled(t, step)
    ensures Steps(s, steps + [step], Apply(t, step))
    decreases |steps|
  {
    if steps != [] {
      StepsSnoc(Apply(s, steps[0]), steps[1..], t, step);
      assert (steps + [step])[1..] == steps[1..] + [step];
    }
    hide Apply, Enabled;
  }

  lemma ReachableStep(s: State, step: Step)
    requires Reachable(s) && Enabled(s, step)
    ensures Reachable(Apply(s, step))
  {
    var steps :| Steps(Initial, steps, s);
    StepsSnoc(Initial, steps, s, step);
    hide Apply, Enabled, Steps;
  }

  lemma ReachableOk(t: State)
    requires Reachable(t)
    ensures Inv(t)
  {
    InitialOk();
    var steps :| Steps(Initial, steps, t);
    StepsKeepInv(Initial, steps, t);
  }

  /** `pending_svcs` counts the outstanding service loads and the awaited service events; it
      never goes below zero. */
  lemma CounterIsExact(t: State)
    requires Reachable(t) && !t.aborted
    ensures t.dev.pendingSvcs == |Loads(t.calls)| + |t.waiting.Keys|
    ensures t.dev.pendingSvcs >= 0
  {
    ReachableOk(t);
  }

  /** A reply that settles one of the awaited services. */
  predicate Settles(step: Step) {
    step.ServiceNotLoaded? || step.ServiceEvent? || (step.ServiceLoaded? && (step.drop || step.started) && step.issued)
  }

  lemma ProcessEnds(s: State, issue: Issue, reply: bool)
    ensures Process(s, issue, reply).ended == s.ended + (if reply then 1 else 0)
  {
  }

  lemma CountDownEnds(s: State, issue: Issue)
    ensures CountDown(s, issue).ended == s.ended + (if s.dev.pendingSvcs == 1 then 1 else 0)
  {
    hide Process;
    ProcessEnds(s.(dev := s.dev.(pendingSvcs := s.dev.pendingSvcs - 1)), issue, true);
  }

  lemma EventEnds(s: State, step: Step)
    requires Enabled(s, step) && step.Udev?
    ensures Apply(s, step).ended == s.ended
  {
    hide Process;
    ProcessEnds(Noted(s, Event(step.removed, if step.removed then {} else step.services)), step.issue, false);
  }

  /** A reply leads back to `process` exactly when the device service could not be loaded, or
      when it settles the last service still awaited. */
  lemma BackToProcessIff(s: State, step: Step)
    requires Reachable(s) && Enabled(s, step)
    ensures Apply(s, step).ended == s.ended + 1
       <==> step.DeviceNotLoaded? || (Settles(step) && |Loads(s.calls)| + |s.waiting.Keys| == 1)
    ensures Apply(s, step).ended == s.ended || Apply(s, step).ended == s.ended + 1
  {
    ReachableOk(s);
    hide Reachable, OneChain, ChainsFollowEvents, FieldsFollow, ChainsEnd, Signalled;
    hide Process, CountDown, HandleEvent, Loads, Requests;
    match step
    case Udev(_, _, _, _) => EventEnds(s, step);
    case DeviceNotLoaded(issue) =>
      ProcessEnds(s.(dev := s.dev.(deviceSvc := None), calls := s.calls - {LoadDevice}), issue, true);
    case ServiceNotLoaded(n, drop, issue) => CountDownEnds(Settle(s, LoadService(n, drop)), issue);
    case ServiceLoaded(n, drop, _, _, _, issue) => CountDownEnds(Settle(s, LoadService(n, drop)), issue);
    case ServiceEvent(h, issue) =>
      CountDownEnds(s.(waiting := s.waiting - {h}, settled := s.settled + {LoadService(s.waiting[h], false)}), issue);
    case _ =>
  }

  /** So every chain is left exactly once: as many times as chains were started, but for the one
      in flight. */
  lemma EveryChainEndsOnce(t: State)
    requires Reachable(t) && !t.aborted
    ensures |t.chains| == t.ended + (if t.dev.processing then 1 else 0)
  {
    ReachableOk(t);
  }

  /** The step from `s` to `t` started a chain when nothing was outstanding, and for the latest
      event, with that event's flag and services. */
  ghost predicate StartsLatest(s: State, t: State) {
    && t.chains != [] && t.chains == s.chains + [Last(t.chains)] && t.tagged != []
    && Last(t.chains).event == |t.tagged| - 1
    && Last(t.tagged) == Event(Last(t.chains).removal, Last(t.chains).adding)
    && t.calls == {LoadDevice} && t.waiting == map[]
    && (s.dev.processing ==> t.ended == s.ended + 1)
  }

  lemma ProcessStartsLatest(s: State, issue: Issue, reply: bool)
    requires s.calls == {} && s.waiting == map[] && FieldsFollow(s) && s.dev.processing == reply
    ensures var t := Process(s, issue, reply); t.aborted || t.chains == s.chains || StartsLatest(s, t)
  {
  }

  lemma CountDownStartsLatest(s: State, issue: Issue)
    requires s.dev.processing && s.dev.pendingSvcs == |Loads(s.calls)| + |s.waiting.Keys| + 1
    requires LoadDevice !in s.calls && DependDevice !in s.calls && FieldsFollow(s)
    ensures var t := CountDown(s, issue); t.aborted || t.chains == s.chains || StartsLatest(s, t)
  {
    hide Process, StartsLatest;
    if s.dev.pendingSvcs == 1 {
      assert Loads(s.calls) == s.calls;
      ProcessStartsLatest(s.(dev := s.dev.(pendingSvcs := 0)), issue, true);
      SameStart(s, s.(dev := s.dev.(pendingSvcs := 0)), CountDown(s, issue));
    }
  }

  lemma SameStart(s: State, u: State, t: State)
    requires s.chains == u.chains && s.dev.processing == u.dev.processing && s.ended == u.ended
    ensures StartsLatest(s, t) == StartsLatest(u, t)
  {
  }

  lemma UdevStartsLatest(s: State, step: Step)
    requires Inv(s) && Enabled(s, step) && step.Udev?
    ensures var t := Apply(s, step); t.aborted || t.chains == s.chains || StartsLatest(s, t)
  {
    hide Process, StartsLatest, ChainsFollowEvents, ChainsEnd, Counted, Signalled;
    var event := Event(step.removed, if step.removed then {} else step.services);
    if (s.dev.hasTag || step.tag) && !s.dev.processing {
      ProcessOnNotedStartsLatest(s, event, step.issue);
    }
  }

  lemma ProcessOnNotedStartsLatest(s: State, event: Event, issue: Issue)
    requires s.calls == {} && s.waiting == map[] && !s.dev.processing
    ensures var t := Process(Noted(s, event), issue, false); t.aborted || t.chains == s.chains || StartsLatest(s, t)
  {
  }

  lemma StepStartsLatest(s: State, step: Step)
    requires Reachable(s) && Enabled(s, step) && Apply(s, step).chains != s.chains && !Apply(s, step).aborted
    ensures StartsLatest(s, Apply(s, step))
  {
    ReachableOk(s);
    hide Process, CountDown, StartsLatest, ChainsFollowEvents, ChainsEnd, Signalled, HandleEvent;
    match step
    case Udev(_, _, _, _) => UdevStartsLatest(s, step);
    case DeviceNotLoaded(issue) =>
      var u := s.(dev := s.dev.(deviceSvc := None), calls := s.calls - {LoadDevice});
      assert u.calls == {};
      ProcessStartsLatest(u, issue, true);
      SameStart(s, u, Apply(s, step));
    case ServiceNotLoaded(n, drop, issue) =>
      SettlingStartsLatest(s, step, issue);
    case ServiceLoaded(n, drop, h, started, issued, issue) =>
      SettlingStartsLatest(s, step, issue);
    case ServiceEvent(h, issue) =>
      var u := s.(waiting := s.waiting - {h}, settled := s.settled + {LoadService(s.waiting[h], false)});
      CountDownStartsLatest(u, issue);
      SameStart(s, u, Apply(s, step));
    case _ =>
  }

  lemma SettlingStartsLatest(s: State, step: Step, issue: Issue)
    requires Inv(s) && Enabled(s, step) && (step.ServiceNotLoaded? || step.ServiceLoaded?)
    ensures var call := LoadService(step.service, step.drop);
            var t := CountDown(Settle(s, call), issue);
            t.aborted || t.chains == s.chains || StartsLatest(s, t)
  {
    hide Process, CountDown, StartsLatest, ChainsFollowEvents, ChainsEnd, Signalled;
    var call := LoadService(step.service, step.drop);
    LoadsWithout(s.calls, call);
    CountDownStartsLatest(Settle(s, call), issue);
    SameStart(s, Settle(s, call), CountDown(Settle(s, call), issue));
  }

  // ---- The events, as the steps say them.

  /** What the device is to know of an event: a removal needs no services. */
  function EventOf(step: Step): Event
    requires step.Udev?
  {
    Event(step.removed, if step.removed then {} else step.services)
  }

  /** The events from the first tagged one on. */
  function EventsOf(steps: seq<Step>, tagged: bool): seq<Event> {
    if steps == [] then []
    else if !steps[0].Udev? then EventsOf(steps[1..], tagged)
    else
      var now := tagged || steps[0].tag;
      (if now then [EventOf(steps[0])] else []) + EventsOf(steps[1..], now)
  }

  /** The latest event of all. */
  function LatestEvent(steps: seq<Step>): Option<Event> {
    if steps == [] then None
    else if LatestEvent(steps[1..]).Some? then LatestEvent(steps[1..])
    else if steps[0].Udev? then Some(EventOf(steps[0])) else None
  }

  lemma {:induction false} LatestIsLast(steps: seq<Step>, tagged: bool)
    ensures EventsOf(steps, tagged) != [] ==> LatestEvent(steps) == Some(Last(EventsOf(steps, tagged)))
    ensures tagged && LatestEvent(steps).Some? ==> EventsOf(steps, tagged) != []
  {
    if steps != [] {
      LatestIsLast(steps[1..], tagged || (steps[0].Udev? && steps[0].tag));
    }
  }

  /** `process` does not touch the latest event, and starts a chain for it. */
  lemma ProcessUses(s: State, issue: Issue, reply: bool)
    ensures var t := Process(s, issue, reply);
            && t.tagged == s.tagged && t.dev.hasTag == s.dev.hasTag && t.dev.removed == s.dev.removed
            && (s.dev.pending && !t.aborted
                ==> t.dev.processing && t.dev.removal == s.dev.removed && t.dev.adding == s.dev.next && LoadDevice in t.calls)
            && (!t.aborted ==> t.dev.deviceSvc == None && (t.dev.processing <==> s.dev.pending))
            && t.waiting == s.waiting && t.dev.pendingSvcs == s.dev.pendingSvcs
  {
  }

  /** An event about a tagged device is kept, or a chain is started for it. */
  lemma HandleEventUses(s: State, removed: bool, tag: bool, services: set<Service>, issue: Issue)
    ensures var t := HandleEvent(s, removed, tag, services, issue);
            var event := Event(removed, if removed then {} else services);
            && t.dev.hasTag == (s.dev.hasTag || tag) && t.dev.removed == removed
            && t.tagged == s.tagged + (if t.dev.hasTag then [event] else [])
            && (t.dev.hasTag && s.dev.processing ==> t.dev.pending && t.dev.next == event.services)
            && (t.dev.hasTag && !s.dev.processing && !t.aborted
                ==> && t.dev.processing && t.dev.removal == removed && t.dev.adding == event.services
                    && LoadDevice in t.calls)
  {
    hide Process;
    ProcessUses(Noted(s, Event(removed, if removed then {} else services)), issue, false);
  }

  lemma CountDownUses(s: State, issue: Issue)
    ensures var t := CountDown(s, issue);
            && t.tagged == s.tagged && t.dev.hasTag == s.dev.hasTag
            && t.waiting == s.waiting && t.dev.pendingSvcs == s.dev.pendingSvcs - 1
  {
    hide Process;
    ProcessUses(s.(dev := s.dev.(pendingSvcs := s.dev.pendingSvcs - 1)), issue, true);
  }

  lemma StepNotes(s: State, step: Step)
    requires Enabled(s, step)
    ensures var t, now := Apply(s, step), s.dev.hasTag || (step.Udev? && step.tag);
            t.dev.hasTag == now && t.tagged == s.tagged + (if step.Udev? && now then [EventOf(step)] else [])
  {
    hide HandleEvent, Process, CountDown;
    match step
    case Udev(removed, tag, services, issue) => HandleEventUses(s, removed, tag, services, issue);
    case DeviceNotLoaded(issue) =>
      ProcessUses(s.(dev := s.dev.(deviceSvc := None), calls := s.calls - {LoadDevice}), issue, true);
    case ServiceNotLoaded(n, drop, issue) => CountDownUses(Settle(s, LoadService(n, drop)), issue);
    case ServiceLoaded(n, drop, _, _, _, issue) => CountDownUses(Settle(s, LoadService(n, drop)), issue);
    case ServiceEvent(h, issue) =>
      CountDownUses(s.(waiting := s.waiting - {h}, settled := s.settled + {LoadService(s.waiting[h], false)}), issue);
    case _ =>
  }

  /** What is kept of the events is what the steps of the run say: each event from the first
      tagged one on, with its own flag and its own services. */
  lemma {:induction false} EventsAreNoted(s: State, steps: seq<Step>, t: State)
    requires Steps(s, steps, t)
    ensures t.tagged == s.tagged + EventsOf(steps, s.dev.hasTag)
    decreases |steps|
  {
    hide Apply, Enabled, EventOf;
    if steps != [] {
      var u, first, rest := Apply(s, steps[0]), steps[0], steps[1..];
      StepNotes(s, first);
      EventsAreNoted(u, rest, t);
      assert EventsOf(steps, s.dev.hasTag)
          == (if first.Udev? && u.dev.hasTag then [EventOf(first)] else []) + EventsOf(rest, u.dev.hasTag);
      hide EventsOf, Steps;
    }
  }

  /** A chain is only started when the previous one is over and nothing is outstanding, and then
      for the latest event of the run, with that event's flag and services. */
  lemma ChainStartsWithLatestEvent(steps: seq<Step>, s: State, step: Step)
    requires Steps(Initial, steps, s) && Enabled(s, step)
    requires Apply(s, step).chains != s.chains && !Apply(s, step).aborted
    ensures var t := Apply(s, step);
            && StartsLatest(s, t)
            && LatestEvent(steps + [step]) == Some(Event(Last(t.chains).removal, Last(t.chains).adding))
  {
    StepStartsLatest(s, step);
    StepsSnoc(Initial, steps, s, step);
    EventsAreNoted(Initial, steps + [step], Apply(s, step));
    LatestIsLast(steps + [step], false);
    hide Apply, Enabled, Steps, LatestEvent, EventsOf;
  }

  // ---- When the connection is given up.

  /** `process` fails: the old handle is not closed, or the next chain does not get going. */
  predicate ProcessFails(dev: Device, issue: Issue) {
    (dev.deviceSvc.Some? && !issue.closes) || (dev.pending && !issue.loads)
  }

  ghost predicate LastAwaited(s: State) {
    |Loads(s.calls)| + |s.waiting.Keys| == 1
  }

  lemma CountDownFails(s: State, issue: Issue)
    requires !s.aborted
    ensures CountDown(s, issue).aborted <==> s.dev.pendingSvcs == 1 && ProcessFails(s.dev, issue)
  {
  }

  lemma EventFails(s: State, removed: bool, tag: bool, services: set<Service>, issue: Issue)
    requires !s.aborted && (!s.dev.processing ==> s.dev.deviceSvc == None)
    ensures HandleEvent(s, removed, tag, services, issue).aborted
       <==> (s.dev.hasTag || tag) && !s.dev.processing && !issue.loads
  {
  }

  /** The connection is given up exactly when a request that the step has to make cannot be
      issued, or a load fails. */
  lemma AbortsIff(s: State, step: Step)
    requires Reachable(s) && Enabled(s, step)
    ensures Apply(s, step).aborted <==>
      match step
      case Udev(_, tag, _, issue) => (s.dev.hasTag || tag) && !s.dev.processing && !issue.loads
      case DeviceLoaded(_, issued) => !issued
      case DeviceNotLoaded(issue) => s.dev.pending && !issue.loads
      case DeviceDepended(issued) => !issued
      case ServiceNotLoaded(_, _, issue) => LastAwaited(s) && ProcessFails(s.dev, issue)
      case ServiceLoaded(_, drop, _, started, issued, issue) =>
        !issued || ((drop || started) && LastAwaited(s) && ProcessFails(s.dev, issue))
      case ServiceEvent(_, issue) => LastAwaited(s) && ProcessFails(s.dev, issue)
      case LoadFailed(_) => true
  {
    ReachableOk(s);
    hide Reachable, ChainsFollowEvents, FieldsFollow, ChainsEnd, Signalled, CountDown, HandleEvent, Loads;
    match step
    case Udev(removed, tag, services, issue) => EventFails(s, removed, tag, services, issue);
    case ServiceNotLoaded(n, drop, issue) => CountDownFails(Settle(s, LoadService(n, drop)), issue);
    case ServiceLoaded(n, drop, _, _, _, issue) => CountDownFails(Settle(s, LoadService(n, drop)), issue);
    case ServiceEvent(h, issue) =>
      CountDownFails(s.(waiting := s.waiting - {h}, settled := s.settled + {LoadService(s.waiting[h], false)}), issue);
    case _ =>
  }

  /** However many events were coalesced, when the chain is over nothing is pending, the latest
      event has been dealt with, the system depends on the device service exactly when the
      device is there (if it could be loaded), and `ready` was last called with what the event said. */
  lemma RestMeansUpToDate(t: State)
    requires Reachable(t) && !t.aborted && !t.dev.processing
    ensures !t.dev.pending && t.calls == {} && t.waiting == map[]
    ensures t.tagged != [] ==> t.chains != [] && Last(t.chains).event == |t.tagged| - 1
    ensures t.linked.Some? ==> t.linked.value == !t.dev.removed
    ensures t.signals != [] ==> Last(t.signals) == !t.dev.removed
  {
    ReachableOk(t);
  }

  /** A chain drops the services of the one before it exactly when it was started by the end of
      that one; a chain started between chains drops nothing. */
  lemma OnlyCoalescedChainsDrop(t: State, k: nat)
    requires Reachable(t) && !t.aborted && k < |t.chains|
    ensures t.chains[k].coalesced ==> k > 0 && t.chains[k].dropping == t.chains[k - 1].adding
    ensures !t.chains[k].coalesced ==> t.chains[k].dropping == {}
  {
    ReachableOk(t);
    assert DropsPrevious(t.chains, k);
  }

  // ---- A chain waits for all of its services.

  /** What the chain in flight asks of dinit: to drop these services and to add those. */
  function Wanted(d: Device): set<Call> {
    Requests(d.dropping, true) + Requests(d.adding, false)
  }

  function Awaited(waiting: map<Handle, Service>): set<Call> {
    set h | h in waiting :: LoadService(waiting[h], false)
  }

  /** While services are waited for, every one of them is being loaded, awaits its event, or is
      done with; and no other service is. */
  ghost predicate Accounted(s: State) {
    s.dev.processing && LoadDevice !in s.calls && DependDevice !in s.calls
    ==> Wanted(s.dev) == s.calls + Awaited(s.waiting) + s.settled
  }

  ghost predicate NoneSettledYet(s: State) {
    LoadDevice in s.calls || DependDevice in s.calls ==> s.settled == {}
  }

  ghost predicate WaitsForAll(s: State) {
    s.aborted || (Accounted(s) && NoneSettledYet(s))
  }

  lemma ProcessWaitsForAll(s: State, issue: Issue, reply: bool)
    requires LoadDevice !in s.calls && DependDevice !in s.calls
    ensures WaitsForAll(Process(s, issue, reply))
  {
  }

  lemma SettlingWaitsForAll(s: State, issue: Issue)
    requires LoadDevice !in s.calls && DependDevice !in s.calls && Accounted(s)
    ensures WaitsForAll(CountDown(s, issue))
  {
    hide Requests;
    var t := s.(dev := s.dev.(pendingSvcs := s.dev.pendingSvcs - 1));
    ProcessWaitsForAll(t, issue, true);
    hide Process;
  }

  lemma OneMoreAwaited(waiting: map<Handle, Service>, h: Handle, n: Service)
    requires h !in waiting
    ensures Awaited(waiting[h := n]) == Awaited(waiting) + {LoadService(n, false)}
  {
    var more := waiting[h := n];
    assert more[h] == n;
    forall c | c in Awaited(waiting) + {LoadService(n, false)}
      ensures c in Awaited(more)
    {
      if c in Awaited(waiting) {
        var g :| g in waiting && c == LoadService(waiting[g], false);
        assert more[g] == waiting[g];
      } else {
        assert c == LoadService(more[h], false);
      }
    }
  }

  lemma StepWaitsForAll(s: State, step: Step)
    requires Inv(s) && WaitsForAll(s) && Enabled(s, step)
    ensures WaitsForAll(Apply(s, step))
  {
    hide ChainsFollowEvents, FieldsFollow, ChainsEnd, Signalled, Counted, WaitsForAll, Apply;
    match step
    case Udev(_, _, _, _) => EventWaitsForAll(s, step);
    case ServiceLoaded(_, _, _, _, _, _) => ServiceLoadedWaitsForAll(s, step);
    case ServiceEvent(h, issue) => ServiceEventWaitsForAll(s, h, issue);
    case ServiceNotLoaded(_, _, _) => ServiceNotLoadedWaitsForAll(s, step);
    case _ => DeviceReplyWaitsForAll(s, step);
  }

  lemma DeviceReplyWaitsForAll(s: State, step: Step)
    requires OneChain(s) && WaitsForAll(s) && Enabled(s, step)
    requires step.DeviceLoaded? || step.DeviceNotLoaded? || step.DeviceDepended? || step.LoadFailed?
    ensures WaitsForAll(Apply(s, step))
  {
    hide Requests, Process;
    if step.DeviceNotLoaded? {
      ProcessWaitsForAll(s.(dev := s.dev.(deviceSvc := None), calls := s.calls - {LoadDevice}), step.issue, true);
    } else if step.DeviceDepended? {
      assert s.calls - {DependDevice} == {};
    }
  }

  lemma ServiceNotLoadedWaitsForAll(s: State, step: Step)
    requires OneChain(s) && WaitsForAll(s) && Enabled(s, step) && step.ServiceNotLoaded?
    ensures WaitsForAll(Apply(s, step))
  {
    hide CountDown, Requests, Awaited;
    SettlingWaitsForAll(Settle(s, LoadService(step.service, step.drop)), step.issue);
  }

  lemma ServiceLoadedWaitsForAll(s: State, step: Step)
    requires OneChain(s) && WaitsForAll(s) && Enabled(s, step) && step.ServiceLoaded?
    ensures WaitsForAll(Apply(s, step))
  {
    hide CountDown, Requests;
    var call := LoadService(step.service, step.drop);
    if step.drop || step.started {
      SettlingWaitsForAll(Settle(s, call), step.issue);
    } else {
      OneMoreAwaited(s.waiting, step.handle, step.service);
    }
    hide Awaited;
  }

  lemma ServiceEventWaitsForAll(s: State, h: Handle, issue: Issue)
    requires OneChain(s) && WaitsForAll(s) && Enabled(s, ServiceEvent(h, issue))
    ensures WaitsForAll(Apply(s, ServiceEvent(h, issue)))
  {
    hide CountDown, Requests;
    var call := LoadService(s.waiting[h], false);
    OneMoreAwaited(s.waiting - {h}, h, s.waiting[h]);
    assert s.waiting == (s.waiting - {h})[h := s.waiting[h]];
    hide Awaited;
    SettlingWaitsForAll(s.(waiting := s.waiting - {h}, settled := s.settled + {call}), issue);
  }

  lemma EventWaitsForAll(s: State, step: Step)
    requires WaitsForAll(s) && step.Udev? && Enabled(s, step)
    requires !s.dev.processing ==> s.calls == {}
    ensures WaitsForAll(Apply(s, step))
  {
    hide Process, Requests;
    var event := Event(step.removed, if step.removed then {} else step.services);
    if !s.dev.processing {
      ProcessWaitsForAll(Noted(s, event), step.issue, false);
    }
  }

  lemma {:induction false} StepsWaitForAll(s: State, steps: seq<Step>, t: State)
    requires Inv(s) && WaitsForAll(s) && Steps(s, steps, t)
    ensures WaitsForAll(t)
    decreases |steps|
  {
    hide Inv, Apply, Enabled, WaitsForAll;
    if steps != [] {
      StepKeepsInv(s, steps[0]);
      StepWaitsForAll(s, steps[0]);
      StepsWaitForAll(Apply(s, steps[0]), steps[1..], t);
    }
  }

  /** The request that a reply settles. */
  function SettledBy(s: State, step: Step): Call
    requires Enabled(s, step) && Settles(step)
  {
    if step.ServiceEvent? then LoadService(s.waiting[step.handle], false) else LoadService(step.service, step.drop)
  }

  /** When a chain whose device service was loaded ends, everything it set out to drop and to
      add is settled: it could not be loaded, was dropped, had been started already, or has
      reported an event. */
  lemma ChainEndsWhenAllSettled(s: State, step: Step)
    requires Reachable(s) && Enabled(s, step) && Settles(step) && Apply(s, step).ended == s.ended + 1
    ensures s.chains != []
    ensures Requests(Last(s.chains).dropping, true) + Requests(Last(s.chains).adding, false)
         == s.settled + {SettledBy(s, step)}
  {
    ReachableWaits(s);
    ReachableOk(s);
    BackToProcessIff(s, step);
    LastToSettle(s, step);
    hide ChainsFollowEvents, ChainsEnd, Signalled, Counted, OneChain, Apply, Requests, Awaited, Loads, Reachable;
  }

  lemma ReachableWaits(t: State)
    requires Reachable(t)
    ensures WaitsForAll(t)
  {
    var steps :| Steps(Initial, steps, t);
    InitialOk();
    StepsWaitForAll(Initial, steps, t);
  }

  lemma LastToSettle(s: State, step: Step)
    requires !s.aborted && OneChain(s) && Enabled(s, step) && Settles(step) && |Loads(s.calls)| + |s.waiting.Keys| == 1
    ensures s.calls + Awaited(s.waiting) == {SettledBy(s, step)}
    ensures LoadDevice !in s.calls && DependDevice !in s.calls
  {
    assert Loads(s.calls) == s.calls;
    if step.ServiceEvent? {
      OnlyElement(s.waiting.Keys, step.handle);
      assert Awaited(s.waiting) == {SettledBy(s, step)};
    } else {
      OnlyElement(s.calls, SettledBy(s, step));
      assert Awaited(s.waiting) == {};
    }
  }

  lemma OnlyElement<T>(q: set<T>, x: T)
    requires x in q
    ensures |q| <= 1 ==> q == {x}
    ensures |q| >= 1
  {
    assert |q - {x}| == |q| - 1;
    if |q| <= 1 {
      assert q - {x} == {};
    }
  }

  // ---- Chains that never end.

  /** In a chain, and no reply will come. */
  ghost predicate Stuck(s: State) {
    !s.aborted && s.dev.processing && s.calls == {} && s.waiting == map[]
  }

  lemma CountDownNeverSticks(s: State, issue: Issue)
    requires !s.aborted && s.dev.pendingSvcs == |Loads(s.calls)| + |s.waiting.Keys| + 1
    ensures !Stuck(CountDown(s, issue))
  {
    if s.calls == {} && s.waiting == map[] {
      assert Loads(s.calls) == {};
    }
  }

  lemma ProcessNeverSticks(s: State, issue: Issue, reply: bool)
    ensures !Stuck(Process(s, issue, reply))
  {
  }

  lemma EventNeverSticks(s: State, step: Step)
    requires Enabled(s, step) && step.Udev?
    ensures Stuck(Apply(s, step)) <==> Stuck(s)
  {
    hide Process;
    if !s.dev.processing {
      ProcessNeverSticks(Noted(s, Event(step.removed, if step.removed then {} else step.services)), step.issue, false);
    }
  }

  lemma DependingSticksIff(s: State, issued: bool)
    requires Inv(s) && Enabled(s, DeviceDepended(issued))
    ensures Stuck(Apply(s, DeviceDepended(issued))) <==> issued && s.dev.dropping == {} && s.dev.adding == {}
  {
    hide ChainsEnd, Signalled, ChainsFollowEvents, Counted, FieldsFollow;
    assert s.calls - {DependDevice} == {};
    var t := Apply(s, DeviceDepended(issued));
    assert forall n :: n in s.dev.dropping ==> LoadService(n, true) in t.calls;
    assert forall n :: n in s.dev.adding ==> LoadService(n, false) in t.calls;
    if s.dev.dropping != {} {
      var n :| n in s.dev.dropping;
      assert LoadService(n, true) in t.calls;
    } else if s.dev.adding != {} {
      var n :| n in s.dev.adding;
      assert LoadService(n, false) in t.calls;
    }
  }

  /** A step leaves a device stuck exactly when it was before, or when the device service was
      loaded and made a dependency while there is nothing to drop and nothing to add. */
  lemma GetsStuckIff(s: State, step: Step)
    requires Reachable(s) && Enabled(s, step)
    ensures Stuck(Apply(s, step)) <==>
            Stuck(s) || (step.DeviceDepended? && step.issued && s.dev.dropping == {} && s.dev.adding == {})
  {
    ReachableOk(s);
    hide ChainsEnd, Signalled, ChainsFollowEvents, FieldsFollow, CountDown, Process, Requests, HandleEvent;
    match step
    case Udev(_, _, _, _) => EventNeverSticks(s, step);
    case DeviceNotLoaded(issue) =>
      ProcessNeverSticks(s.(dev := s.dev.(deviceSvc := None), calls := s.calls - {LoadDevice}), issue, true);
    case DeviceDepended(issued) => DependingSticksIff(s, issued);
    case ServiceNotLoaded(n, drop, issue) =>
      LoadsWithout(s.calls, LoadService(n, drop));
      CountDownNeverSticks(Settle(s, LoadService(n, drop)), issue);
    case ServiceLoaded(n, drop, h, started, issued, issue) =>
      LoadsWithout(s.calls, LoadService(n, drop));
      CountDownNeverSticks(Settle(s, LoadService(n, drop)), issue);
    case ServiceEvent(h, issue) =>
      CountDownNeverSticks(s.(waiting := s.waiting - {h}, settled := s.settled + {LoadService(s.waiting[h], false)}), issue);
    case _ =>
  }

  /** A device that is in a chain and not stuck still has a reply to come. */
  lemma NotStuckMeansReply(s: State) returns (step: Step)
    requires Reachable(s) && !s.aborted && s.dev.processing && !Stuck(s)
    ensures Enabled(s, step) && !step.Udev?
  {
    ReachableOk(s);
    var issue := Issue(true, true);
    if LoadDevice in s.calls {
      step := DeviceNotLoaded(issue);
    } else if DependDevice in s.calls {
      step := DeviceDepended(true);
    } else if s.waiting != map[] {
      var h :| h in s.waiting;
      step := ServiceEvent(h, issue);
    } else {
      var call :| call in s.calls;
      step := ServiceNotLoaded(call.service, call.drop, issue);
    }
  }

  /** Once stuck, a device stays stuck: events are noted, and no chain is ever started. */
  lemma {:induction false} StuckForever(s: State, steps: seq<Step>, t: State)
    requires Inv(s) && Stuck(s) && Steps(s, steps, t)
    ensures Stuck(t) && t.chains == s.chains && t.signals == s.signals
    decreases |steps|
  {
    if steps != [] {
      StepKeepsInv(s, steps[0]);
      StuckForever(Apply(s, steps[0]), steps[1..], t);
    }
  }

  /** So the removal of a tagged device that is between chains is the last thing that ever
      happens to it, when its service can be loaded. */
  lemma RemovalSticks(s: State, issue: Issue, h: Handle) returns (t: State)
    requires Reachable(s) && !s.aborted && !s.dev.processing && s.dev.hasTag && issue.loads
    ensures Steps(s, [Udev(true, true, {}, issue), DeviceLoaded(h, true), DeviceDepended(true)], t)
    ensures Stuck(t) && t.dev.removed
  {
    ReachableOk(s);
    var s1 := RemovalStarts(s, issue);
    var s2, last2 := Apply(s1, DeviceLoaded(h, true)), [DeviceLoaded(h, true), DeviceDepended(true)];
    assert s2.calls == {DependDevice} by {
      assert {LoadDevice} - {LoadDevice} + {DependDevice} == {DependDevice};
    }
    t := Apply(s2, DeviceDepended(true));
    assert t.calls == {} by {
      assert Requests({}, true) == Requests({}, false) == {};
      assert {DependDevice} - {DependDevice} == {};
    }
    hide Apply, Requests, FieldsFollow, OneChain, Counted, ChainsFollowEvents, ChainsEnd;
    assert Steps(s2, [DeviceDepended(true)], t);
    assert last2[1..] == [DeviceDepended(true)];
    assert Steps(s1, last2, t);
    var all := [Udev(true, true, {}, issue), DeviceLoaded(h, true), DeviceDepended(true)];
    assert all[1..] == last2;
  }

  lemma RemovalStarts(s: State, issue: Issue) returns (t: State)
    requires Inv(s) && !s.aborted && !s.dev.processing && s.dev.hasTag && issue.loads
    ensures t == Apply(s, Udev(true, true, {}, issue))
    ensures t.calls == {LoadDevice} && t.waiting == map[] && !t.aborted
    ensures t.dev.dropping == t.dev.adding == {} && t.dev.processing && t.dev.removed
  {
    t := Apply(s, Udev(true, true, {}, issue));
    hide ChainsEnd, Signalled, ChainsFollowEvents, Counted;
  }

  // ---- How a step changes what `ready` was called with.

  lemma ProcessSignals(s: State, issue: Issue, reply: bool)
    ensures var t := Process(s, issue, reply); t.aborted || t.signals == s.signals + [!s.dev.removal]
    ensures var t := Process(s, issue, reply); t.aborted || t.dev.processing == s.dev.pending
  {
  }

  /** A device that is there and between chains has been signalled as there. */
  lemma RestingRemoval(s: State)
    requires Reachable(s) && !s.aborted && !s.dev.processing && !s.dev.removed
    ensures !s.dev.removal
  {
    ReachableOk(s);
    hide Counted, OneChain, ChainsEnd, Signalled;
    if s.chains != [] {
      assert StartedFor(s.tagged, s.chains[|s.chains| - 1]);
    }
  }

  /** An event about an untagged device signals what it says. One about a tagged device signals
      nothing in a chain; between chains it signals what the previous chain was for. */
  lemma EventSignals(s: State, removed: bool, tag: bool, services: set<Service>, issue: Issue)
    requires Reachable(s) && !s.aborted
    ensures var t := HandleEvent(s, removed, tag, services, issue);
            t.aborted ||
            if !s.dev.hasTag && !tag then t.signals == s.signals + [!removed] && !t.dev.processing
            else t.dev.processing && t.signals == if s.dev.processing then s.signals else s.signals + [!s.dev.removal]
  {
    ReachableOk(s);
    hide Process, Counted, OneChain, ChainsFollowEvents, ChainsEnd, Signalled;
    var event := Event(removed, if removed then {} else services);
    ProcessSignals(Noted(s, event), issue, false);
  }

  lemma CountDownSignals(s: State, issue: Issue)
    requires s.dev.processing
    ensures var t := CountDown(s, issue);
            t.aborted || (t.signals == s.signals && t.dev.processing) || t.signals == s.signals + [!s.dev.removal]
  {
    hide Process;
    ProcessSignals(s.(dev := s.dev.(pendingSvcs := s.dev.pendingSvcs - 1)), issue, true);
  }

  /** A reply signals once, when it ends the chain, and when none is started then, it signals
      whether the device is there. */
  lemma ReplySignals(s: State, r: Step)
    requires Reachable(s) && Enabled(s, r) && !r.Udev?
    ensures var t := Apply(s, r);
            t.aborted || (t.signals == s.signals && t.dev.processing)
            || (t.signals != [] && t.signals == s.signals + [Last(t.signals)]
                && (!t.dev.processing ==> Last(t.signals) == !t.dev.removed))
  {
    ReachableOk(s);
    StepKeepsInv(s, r);
    ReplySignalsOnce(s, r);
    hide Apply, Counted, OneChain, ChainsFollowEvents, FieldsFollow, ChainsEnd;
  }

  lemma ReplySignalsOnce(s: State, r: Step)
    requires Inv(s) && Enabled(s, r) && !r.Udev?
    ensures var t := Apply(s, r);
            t.aborted || (t.signals == s.signals && t.dev.processing) || t.signals == s.signals + [!s.dev.removal]
  {
    hide Process, CountDown, Counted, ChainsFollowEvents, FieldsFollow, ChainsEnd, Signalled;
    match r
    case DeviceNotLoaded(issue) =>
      ProcessSignals(s.(dev := s.dev.(deviceSvc := None), calls := s.calls - {LoadDevice}), issue, true);
    case ServiceNotLoaded(n, drop, issue) =>
      CountDownSignals(Settle(s, LoadService(n, drop)), issue);
    case ServiceLoaded(n, drop, h, started, issued, issue) =>
      CountDownSignals(Settle(s, LoadService(n, drop)), issue);
    case ServiceEvent(h, issue) =>
      CountDownSignals(s.(waiting := s.waiting - {h}, settled := s.settled + {LoadService(s.waiting[h], false)}), issue);
    case _ =>
  }
}
