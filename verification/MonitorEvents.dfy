/** What the device monitor knows is what the events of the run say (early/helpers/devmon.cc): a
    device is there when the last event about its path added it, under the name and the address
    of that event. */
module MonitorEvents {
  import opened Text
  import opened DeviceIndex
  import opened MonitorProofs
  import opened MonitorRuns
  import RequestChain

  /** What is known of a device that is there and not a USB device. */
  datatype Known = Known(subsys: string, name: string, address: string)

  /** The last event about the path decides. A device that is there keeps its subsystem. */
  function Learnt(was: Option<Known>, step: Step, path: string): Option<Known> {
    match step
    case Added(d, _) =>
      if d.subsys == USB || d.syspath != path then was
      else
        var subsys := if was.Some? then was.value.subsys else d.subsys;
        if subsys == NET then Some(Known(NET, OrElse(d.sysname, ""), OrElse(d.address, "")))
        else Some(Known(subsys, OrElse(d.devnode, ""), ""))
    case Deleted(d, _) => if d.subsys == USB || d.syspath != path then was else None
    case _ => was
  }

  function LearntFrom(was: Option<Known>, steps: seq<Step>, path: string): Option<Known>
    decreases |steps|
  {
    if steps == [] then was else LearntFrom(Learnt(was, steps[0], path), steps[1..], path)
  }

  function KnownFrom(steps: seq<Step>, path: string): Option<Known> {
    LearntFrom(None, steps, path)
  }

  /** Ids of USB devices are not system paths, and no other device is removed under the number of
      a USB device. */
  ghost predicate Apart(t: Tables, step: Step) {
    match step
    case Added(d, _) => Key(d) in t.sys ==> (t.sys[Key(d)].subsys == USB <==> d.subsys == USB)
    case Deleted(d, _) =>
      && (d.subsys != USB ==> d.devnum !in t.usb)
      && (d.subsys == USB && d.syspath in t.sys ==> t.sys[d.syspath].subsys == USB)
    case _ => true
  }

  ghost predicate StepsApart(t: Tables, steps: seq<Step>, u: Tables)
    decreases |steps|
  {
    if steps == [] then t == u
    else Enabled(t, steps[0]) && Apart(t, steps[0]) && StepsApart(Apply(t, steps[0]), steps[1..], u)
  }

  /** What the tables hold of a device that is there and not a USB device. */
  function Held(t: Tables, path: string): Option<Known> {
    if path in t.sys && !t.sys[path].Removed() && t.sys[path].subsys != USB then
      Some(Known(t.sys[path].subsys, t.sys[path].name, t.sys[path].mac))
    else None
  }

  /** Devices that are not there have lost their name and address, only interfaces have an
      address, and `map_usb` leads to USB devices. */
  ghost predicate KindsOk(t: Tables) {
    && (forall k :: k in t.sys && t.sys[k].Removed() ==> t.sys[k].name == "" && t.sys[k].mac == "")
    && (forall k :: k in t.sys && t.sys[k].subsys != NET ==> t.sys[k].mac == "")
    && (forall n :: n in t.usb ==> t.usb[n] in t.sys && t.sys[t.usb[n]].subsys == USB)
  }

  lemma FiledIsLearnt(t: Tables, d: Udev)
    requires KindsOk(t) && Apart(t, Added(d, RequestChain.Issue(true, true))) && !(d.subsys == USB && d.ids == None)
    ensures var e := FiledEntry(t, d);
            && (e.subsys == USB <==> d.subsys == USB) && (e.subsys != NET ==> e.mac == "")
            && (d.subsys != USB ==>
                  Some(Known(e.subsys, e.name, e.mac)) == Learnt(Held(t, d.syspath), Added(d, RequestChain.Issue(true, true)), d.syspath))
  {
  }

  /** One entry changes; an entry that is not there is cleared, and only interfaces have addresses. */
  lemma OneEntryKeepsKinds(t: Tables, u: Tables, key: string)
    requires KindsOk(t) && key in u.sys && u.sys == t.sys[key := u.sys[key]]
    requires u.sys[key].Removed() ==> u.sys[key].name == "" && u.sys[key].mac == ""
    requires u.sys[key].subsys != NET ==> u.sys[key].mac == ""
    requires key in t.sys && t.sys[key].subsys == USB ==> u.sys[key].subsys == USB
    requires forall n :: n in u.usb ==> (n in t.usb && u.usb[n] == t.usb[n]) || (u.usb[n] == key && u.sys[key].subsys == USB)
    ensures KindsOk(u) && forall p :: p != key ==> Held(u, p) == Held(t, p)
  {
  }

  lemma AddIsLearnt(t: Tables, d: Udev, issue: Issue, path: string)
    requires Inv(t) && !t.failed && KindsOk(t) && Apart(t, Added(d, issue))
    ensures var u := Add(t, d, issue);
            KindsOk(u) && Held(u, path) == Learnt(Held(t, path), Added(d, issue), path)
  {
    if !(d.subsys == USB && d.ids == None) {
      AddIs(t, d, issue);
      FiledIsLearnt(t, d);
      AddKeepsUsb(t, d, issue);
      var u, key := Add(t, d, issue), Key(d);
      hide Add, Inv, FiledEntry;
      OneEntryKeepsKinds(t, u, key);
      assert d.subsys == USB ==> Held(t, key) == Held(u, key) == None;
      hide KindsOk;
    }
  }

  lemma AddKeepsUsb(t: Tables, d: Udev, issue: Issue)
    requires !(d.subsys == USB && d.ids == None)
    ensures var u := Add(t, d, issue);
            u.usb == t.usb || (d.subsys == USB && u.usb == t.usb[d.devnum := Key(d)])
  {
    FiledIs(t, d);
    hide Filed, RequestChain.HandleEvent;
  }

  lemma GoneIsLearnt(t: Tables, key: string, d: Udev, issue: Issue, path: string)
    requires ChainsOk(t) && !t.failed && KindsOk(t)
    ensures var u := Gone(t, key, d, issue);
            u.failed || (KindsOk(u) && Held(u, path) == if path == key then None else Held(t, path))
  {
    if key in t.sys && !t.sys[key].Removed() {
      var u := Gone(t, key, d, issue);
      GoneTouches(t, key, d, issue);
      GoneClears(t, key, d, issue);
      hide Gone, ChainsOk, RequestChain.Reachable;
      if !u.failed {
        var e := u.sys[key];
        assert KindsOk(t) && u.sys == t.sys[key := e] && e.Removed();
        assert t.sys[key].subsys != NET ==> t.sys[key].mac == "";
        OneEntryKeepsKinds(t, u, key);
        assert Held(u, key) == None;
        hide KindsOk, Held;
      }
    }
  }

  lemma GoneClears(t: Tables, key: string, d: Udev, issue: Issue)
    requires KindsOk(t) && key in t.sys && !t.sys[key].Removed()
    ensures var u := Gone(t, key, d, issue);
            u.usb == t.usb && (u.failed || (key in u.sys && u.sys[key].name == "" && u.sys[key].mac == ""
                                            && u.sys[key].subsys == t.sys[key].subsys))
  {
    hide RequestChain.HandleEvent, Erase;
  }

  lemma UnplugKeepsKinds(t: Tables, devnum: nat, present: map<nat, string>)
    requires KindsOk(t)
    ensures var u := Unplug(t, devnum).(present := present);
            KindsOk(u) && forall p :: Held(u, p) == Held(t, p)
  {
    var u := Unplug(t, devnum).(present := present);
    if devnum != 0 && devnum in t.usb {
      var key := t.usb[devnum];
      assert u.sys == t.sys[key := u.sys[key]];
      OneEntryKeepsKinds(t, u, key);
      assert Held(u, key) == Held(t, key);
      hide KindsOk, Held;
    } else {
      hide KindsOk;
      SameHeld(t, u);
    }
  }

  lemma SameHeld(t: Tables, u: Tables)
    requires KindsOk(t) && u.sys == t.sys && u.usb == t.usb
    ensures KindsOk(u) && forall p :: Held(u, p) == Held(t, p)
  {
  }

  lemma RemoveIsLearnt(t: Tables, d: Udev, issue: Issue, path: string)
    requires Inv(t) && !t.failed && KindsOk(t) && Enabled(t, Deleted(d, issue)) && Apart(t, Deleted(d, issue))
    ensures var u := Remove(t, d, issue);
            u.failed || (KindsOk(u) && Held(u, path) == Learnt(Held(t, path), Deleted(d, issue), path))
  {
    var u := Unplug(t, d.devnum).(present := t.present - {d.devnum});
    UnplugKeeps(t, d.devnum, t.present - {d.devnum});
    UnplugKeepsKinds(t, d.devnum, t.present - {d.devnum});
    if d.devnum != 0 && d.devnum in t.usb {
      var key := t.usb[d.devnum];
      assert u.sys[key].subsys == USB && u.sys[key].syspath == key;
      hide Gone, Unplug, KindsOk, ChainsOk, SvcdevOk, PointersOk;
      GoneIsLearnt(u, key, d, issue, path);
    } else {
      hide Gone, Unplug, KindsOk, ChainsOk, SvcdevOk, PointersOk;
      GoneIsLearnt(u, d.syspath, d, issue, path);
    }
  }

  /** A reply changes nothing that is known of any device. */
  lemma ReplyIsLearnt(t: Tables, u: Tables, key: string)
    requires KindsOk(t) && key in t.sys && key in u.sys && u.usb == t.usb
    requires u.sys == t.sys[key := t.sys[key].(chain := u.sys[key].chain)] && u.sys[key].Removed() == t.sys[key].Removed()
    ensures KindsOk(u) && forall p :: Held(u, p) == Held(t, p)
  {
    OneEntryKeepsKinds(t, u, key);
    assert Held(u, key) == Held(t, key);
    hide KindsOk, Held;
  }

  lemma StepIsLearnt(t: Tables, step: Step, path: string)
    requires Inv(t) && KindsOk(t) && Enabled(t, step) && Apart(t, step)
    ensures var u := Apply(t, step);
            u.failed || (KindsOk(u) && Held(u, path) == Learnt(Held(t, path), step, path))
  {
    hide KindsOk, Remove, Add, Held, Learnt, Apart, RequestChain.Apply, RequestChain.Reachable;
    match step
    case Added(d, issue) => AddIsLearnt(t, d, issue, path);
    case Deleted(d, issue) => RemoveIsLearnt(t, d, issue, path);
    case Reply(k, r) =>
      ReplyEffect(t.sys[k].chain, r);
      ReplyIsLearnt(t, Apply(t, step), k);
      NothingLearnt(t, step, path);
    case ServiceEvent(h, issue) =>
      NothingLearnt(t, step, path);
      if h in t.svcdev {
        ReplyEffect(t.sys[t.svcdev[h]].chain, RequestChain.ServiceEvent(h, issue));
        ReplyIsLearnt(t, Apply(t, step), t.svcdev[h]);
      }
  }

  lemma NothingLearnt(t: Tables, step: Step, path: string)
    requires step.Reply? || step.ServiceEvent?
    ensures Learnt(Held(t, path), step, path) == Held(t, path)
  {
  }

  lemma {:induction false} StepsAreLearnt(t: Tables, steps: seq<Step>, u: Tables, path: string)
    requires Inv(t) && (t.failed || KindsOk(t)) && StepsApart(t, steps, u)
    ensures Inv(u) && (u.failed || (KindsOk(u) && (t.failed || Held(u, path) == LearntFrom(Held(t, path), steps, path))))
    decreases |steps|
  {
    if steps != [] {
      NotFailed(t, steps[0]);
      hide Inv, KindsOk, Enabled, Apply, Apart, Held, Learnt;
      StepKeepsInv(t, steps[0]);
      StepIsLearnt(t, steps[0], path);
      StepsAreLearnt(Apply(t, steps[0]), steps[1..], u, path);
    }
  }

  /** A device that is not a USB device is there exactly when the last event about its path added
      it, and it has the subsystem it was first added with and the name and the address of the
      last event. */
  lemma EntriesFollowEvents(steps: seq<Step>, t: Tables, path: string)
    requires StepsApart(Initial, steps, t) && !t.failed
    ensures KnownFrom(steps, path).Some? <==> path in t.sys && !t.sys[path].Removed() && t.sys[path].subsys != USB
    ensures KnownFrom(steps, path).Some?
        ==> KnownFrom(steps, path).value == Known(t.sys[path].subsys, t.sys[path].name, t.sys[path].mac)
  {
    StepsAreLearnt(Initial, steps, t, path);
    hide Inv, KindsOk, LearntFrom, StepsApart;
  }

  /** So a client that asks by path is answered 1 exactly when the last event about the path added
      the device, and its chain is over. */
  lemma PathAnswerFollowsEvents(steps: seq<Step>, t: Tables, path: string)
    requires StepsApart(Initial, steps, t) && !t.failed && (path in t.sys ==> t.sys[path].subsys != USB)
    ensures Answer(t, Path(path)) <==> KnownFrom(steps, path).Some? && path in t.sys && !t.sys[path].Processing()
  {
    EntriesFollowEvents(steps, t, path);
    hide KnownFrom, StepsApart;
  }

  /** The path is that of an interface with this name, by the events of the run. */
  ghost predicate KnownInterface(steps: seq<Step>, path: string, name: string) {
    KnownFrom(steps, path).Some? && KnownFrom(steps, path).value.subsys == NET && KnownFrom(steps, path).value.name == name
  }

  /** And one who asks by interface name, exactly when the events have made some interface known
      by that name, and its chain is over. */
  lemma InterfaceAnswerFollowsEvents(steps: seq<Step>, t: Tables, name: string)
    requires StepsApart(Initial, steps, t) && StepsNamed(Initial, steps, t) && !t.failed && name != ""
    ensures FindDevice(t, Netif(name)).Some? ==> FindDevice(t, Netif(name)).value in t.sys
    ensures Answer(t, Netif(name))
       <==> exists p :: KnownInterface(steps, p, name) && p in t.sys && !t.sys[p].Processing()
  {
    AnswerIsScan(steps, t, Netif(name));
    forall p
      ensures KnownInterface(steps, p, name) <==> p in t.sys && Covered(t.sys[p], true) && t.sys[p].name == name
    {
      EntriesFollowEvents(steps, t, p);
    }
    hide KnownInterface, StepsApart, StepsNamed;
  }

  // ---- Single events.

  /** The removal of a device that is not known by its number in `map_usb`: it is gone, by its
      path and by its name, and whatever query leads to it is answered 0. */
  lemma DeletedIsGone(t: Tables, d: Udev, issue: Issue)
    requires Inv(t) && !t.failed && (d.devnum == 0 || d.devnum !in t.usb) && Enabled(t, Deleted(d, issue))
    requires d.syspath in t.sys && !Apply(t, Deleted(d, issue)).failed
    ensures var u, e := Apply(t, Deleted(d, issue)), t.sys[d.syspath];
            && d.syspath in u.sys && u.sys[d.syspath].Removed()
            && (forall q :: FindDevice(u, q) == Some(d.syspath) ==> !Answer(u, q))
            && (!e.Removed() && e.name != "" ==>
                  FindDevice(u, if e.subsys == NET then Netif(e.name) else Node(e.name, None)) == None)
  {
    var v := t.(present := t.present - {d.devnum});
    if !t.sys[d.syspath].Removed() {
      assert ChainsOk(v);
      GoneTouches(v, d.syspath, d, issue);
      GoneUnnames(v, d.syspath, d, issue);
    }
    hide Gone, ChainsOk, SvcdevOk, PointersOk, RequestChain.Reachable;
  }

  lemma GoneUnnames(t: Tables, key: string, d: Udev, issue: Issue)
    requires key in t.sys && !t.sys[key].Removed()
    ensures var u, e := Gone(t, key, d, issue), t.sys[key];
            u.failed || (e.name != "" ==> if e.subsys == NET then e.name !in u.netif else e.name !in u.dev)
  {
    hide RequestChain.HandleEvent, Erase;
  }

  /** A request has to be made for the event, and cannot be issued. */
  predicate NotIssued(t: Tables, key: string, tag: bool, issue: Issue) {
    !issue.loads && if key in t.sys then (t.sys[key].chain.dev.hasTag || tag) && !t.sys[key].Processing() else tag
  }

  lemma DispatchFails(t: Tables, key: string, d: Udev, removed: bool, issue: Issue)
    requires key in t.sys && RequestChain.Reachable(t.sys[key].chain) && !t.sys[key].chain.aborted
    ensures Dispatch(t, key, d, removed, issue).failed <==> NotIssued(t, key, d.tag, issue)
  {
    var chain := t.sys[key].chain;
    RequestChain.ReachableOk(chain);
    RequestChain.EventFails(chain, removed, d.tag, d.services, issue);
    hide RequestChain.HandleEvent, RequestChain.Reachable;
  }

  /** An added device makes the monitor give up exactly when a chain should be started for it and
      the first request cannot be issued ... */
  lemma AddFailsIff(t: Tables, d: Udev, issue: Issue)
    requires Inv(t) && !t.failed
    ensures Add(t, d, issue).failed <==> !(d.subsys == USB && d.ids == None) && NotIssued(t, Key(d), d.tag, issue)
  {
    if !(d.subsys == USB && d.ids == None) {
      FreshChainReachable();
      FiledFacts(t, d);
      DispatchFails(Filed(t, d), Key(d), d, false, issue);
      hide Filed, Dispatch, RequestChain.Reachable, SvcdevOk, PointersOk;
    }
  }

  /** ... and so does a removed one, if it was there. */
  lemma RemoveFailsIff(t: Tables, d: Udev, issue: Issue)
    requires Inv(t) && !t.failed && (d.devnum == 0 || d.devnum !in t.usb) && Enabled(t, Deleted(d, issue))
    ensures Remove(t, d, issue).failed
       <==> d.syspath in t.sys && !t.sys[d.syspath].Removed() && NotIssued(t, d.syspath, d.tag, issue)
  {
    if d.syspath in t.sys {
      DispatchFails(t.(present := t.present - {d.devnum}), d.syspath, d, true, issue);
    }
    hide Dispatch, RequestChain.Reachable, SvcdevOk, PointersOk, Erase;
  }
}
