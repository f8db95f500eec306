/** USB devices in the device monitor: any number of them share the entry of their
    vendor:product id, which is to be removed with the last one. */
module UsbDevices {
  import opened Text
  import opened DeviceIndex
  import opened MonitorProofs
  import opened MonitorRuns
  import RequestChain

  /** Present USB devices have distinct numbers that are not 0 and keep their id; no device of
      another subsystem has such a number; and ids are not system paths. */
  ghost predicate Orderly(t: Tables, step: Step) {
    match step
    case Added(d, _) =>
      && (Key(d) in t.sys ==> (t.sys[Key(d)].subsys == USB <==> d.subsys == USB))
      && (d.subsys == USB && d.ids.Some? ==> d.devnum != 0 && (d.devnum in t.present ==> t.present[d.devnum] == Key(d)))
    case Deleted(d, _) =>
      && (d.syspath in t.sys ==> t.sys[d.syspath].subsys != USB)
      && (d.subsys != USB ==> d.devnum !in t.present)
    case _ => true
  }

  /** What a filed event does to a USB entry. */
  lemma FiledUsb(t: Tables, d: Udev)
    requires d.subsys == USB && d.ids.Some? && d.devnum != 0
    requires Key(d) in t.sys ==> t.sys[Key(d)].subsys == USB && (t.sys[Key(d)].Removed() ==> t.sys[Key(d)].devset == {})
    ensures var u := Filed(t, d);
            && u.sys == t.sys[Key(d) := u.sys[Key(d)]] && u.sys[Key(d)].subsys == USB
            && u.sys[Key(d)].devset == (if Key(d) in t.sys then t.sys[Key(d)].devset else {}) + {d.devnum}
            && (u.usb == t.usb || u.usb == t.usb[d.devnum := Key(d)]) && u.present == t.present
  {
    hide Filed;
    FiledIs(t, d);
  }

  lemma FiledOther(t: Tables, d: Udev)
    requires d.subsys != USB && (Key(d) in t.sys ==> t.sys[Key(d)].subsys != USB)
    ensures var u := Filed(t, d);
            && u.sys == t.sys[Key(d) := u.sys[Key(d)]] && u.sys[Key(d)].subsys != USB
            && u.usb == t.usb && u.present == t.present
  {
    hide Filed;
    FiledIs(t, d);
  }

  /** One entry changes that is not a USB device's, or changes nothing that matters here. */
  lemma OtherEntryKeepsUsb(t: Tables, u: Tables, key: string)
    requires UsbOk(t) && key in u.sys && u.sys == t.sys[key := u.sys[key]] && u.usb == t.usb && u.present == t.present
    requires if key in t.sys && t.sys[key].subsys == USB
             then u.sys[key].subsys == USB && u.sys[key].devset == t.sys[key].devset
                  && u.sys[key].Removed() == t.sys[key].Removed()
             else u.sys[key].subsys != USB
    ensures UsbOk(u)
  {
  }

  /** A number joins the set of its entry, which is not removed. */
  lemma PluggedKeepsUsb(t: Tables, u: Tables, key: string, n: nat)
    requires UsbOk(t) && key in u.sys && u.sys == t.sys[key := u.sys[key]] && u.sys[key].subsys == USB
    requires key in t.sys ==> t.sys[key].subsys == USB
    requires u.sys[key].devset == (if key in t.sys then t.sys[key].devset else {}) + {n} && !u.sys[key].Removed()
    requires (u.usb == t.usb || u.usb == t.usb[n := key]) && u.present == t.present[n := key]
    requires n in t.present ==> t.present[n] == key
    ensures UsbOk(u)
  {
    assert n in u.sys[key].devset;
    assert key in t.sys ==> t.sys[key].devset <= u.sys[key].devset;
    assert Plugged(u, n, key);
    EmptyOrThere(t, u, key);
    OthersStayPlugged(t, u, key, n);
    RegisteredArePresent(t, u, key, n);
    hide Plugged;
  }

  lemma RegisteredArePresent(t: Tables, u: Tables, key: string, n: nat)
    requires UsbOk(t) && (u.usb == t.usb || u.usb == t.usb[n := key]) && u.present == t.present[n := key]
    requires n in t.present ==> t.present[n] == key
    ensures forall m :: m in u.usb ==> m in u.present && u.present[m] == u.usb[m]
  {
    hide Plugged;
  }

  lemma EmptyOrThere(t: Tables, u: Tables, key: string)
    requires UsbOk(t) && key in u.sys && u.sys == t.sys[key := u.sys[key]]
    requires u.sys[key].devset != {} && !u.sys[key].Removed()
    ensures forall k :: k in u.sys && u.sys[k].subsys == USB ==> (u.sys[k].Removed() <==> u.sys[k].devset == {})
  {
    hide Plugged;
  }

  lemma OthersStayPlugged(t: Tables, u: Tables, key: string, n: nat)
    requires UsbOk(t) && key in u.sys && u.sys == t.sys[key := u.sys[key]] && u.sys[key].subsys == USB
    requires key in t.sys ==> t.sys[key].devset <= u.sys[key].devset
    ensures forall m :: m in t.present ==> Plugged(u, m, t.present[m])
  {
    assert forall m :: m in t.present ==> Plugged(t, m, t.present[m]);
  }

  lemma AddKeepsUsb(t: Tables, d: Udev, issue: Issue)
    requires ChainsOk(t) && !t.failed && UsbOk(t) && Orderly(t, Added(d, issue))
    ensures UsbOk(Add(t, d, issue))
  {
    if !(d.subsys == USB && d.ids == None) {
      var u := Add(t, d, issue);
      AddTouches(t, d, issue);
      if d.subsys == USB {
        FiledUsb(t, d);
        hide Filed, UsbOk, Key, RequestChain.HandleEvent;
        PluggedKeepsUsb(t, u, Key(d), d.devnum);
      } else {
        FiledOther(t, d);
        hide Filed, UsbOk, Key, RequestChain.HandleEvent;
        OtherEntryKeepsUsb(t, u, Key(d));
      }
    }
  }

  lemma GoneEffect(t: Tables, key: string, d: Udev, issue: Issue)
    requires ChainsOk(t) && !t.failed && key in t.sys && !t.sys[key].Removed()
    ensures var u := Gone(t, key, d, issue);
            && key in u.sys && u.sys == t.sys[key := u.sys[key]] && u.sys[key].Removed()
            && u.sys[key].devset == t.sys[key].devset && u.sys[key].subsys == t.sys[key].subsys
            && u.usb == t.usb && u.present == t.present
  {
    GoneTouches(t, key, d, issue);
    hide RequestChain.HandleEvent, RequestChain.Reachable;
  }

  /** A number leaves the set of its entry, which is removed when the set is empty then. */
  lemma UnpluggedKeepsUsb(t: Tables, u: Tables, key: string, n: nat)
    requires UsbOk(t) && n in t.usb && t.usb[n] == key
    requires key in u.sys && u.sys == t.sys[key := u.sys[key]] && u.sys[key].subsys == USB
    requires u.sys[key].devset == t.sys[key].devset - {n} && (u.sys[key].Removed() <==> u.sys[key].devset == {})
    requires u.usb == t.usb - {n} && u.present == t.present - {n}
    ensures UsbOk(u)
  {
    assert forall m :: m in u.present ==> Plugged(t, m, t.present[m]);
  }

  lemma ForgottenKeepsUsb(t: Tables, n: nat)
    requires UsbOk(t) && n !in t.usb
    ensures UsbOk(t.(present := t.present - {n}))
  {
    var u := t.(present := t.present - {n});
    assert forall m :: m in u.present ==> Plugged(t, m, t.present[m]);
  }

  /** A registered number leaves its set, and the last one takes the entry with it. */
  lemma RegisteredRemoval(t: Tables, d: Udev, issue: Issue)
    requires ChainsOk(t) && !t.failed && UsbOk(t) && d.devnum != 0 && d.devnum in t.usb
    requires t.usb[d.devnum] in t.sys
    ensures var u, key := Remove(t, d, issue), t.usb[d.devnum];
            && key in u.sys && u.sys == t.sys[key := u.sys[key]] && u.sys[key].subsys == USB
            && u.sys[key].devset == t.sys[key].devset - {d.devnum}
            && (u.sys[key].Removed() <==> u.sys[key].devset == {})
            && u.usb == t.usb - {d.devnum} && u.present == t.present - {d.devnum}
  {
    var u, key := Unplug(t, d.devnum).(present := t.present - {d.devnum}), t.usb[d.devnum];
    assert Plugged(t, d.devnum, key);
    assert forall k :: k in t.sys ==> u.sys[k].chain == t.sys[k].chain && u.sys[k].syspath == t.sys[k].syspath;
    hide RequestChain.Reachable, Gone;
    if u.sys[key].devset == {} {
      GoneEffect(u, key, d, issue);
    }
  }

  lemma RemoveKeepsUsb(t: Tables, d: Udev, issue: Issue)
    requires ChainsOk(t) && !t.failed && UsbOk(t) && Orderly(t, Deleted(d, issue)) && Enabled(t, Deleted(d, issue))
    requires 0 !in t.present
    ensures UsbOk(Remove(t, d, issue))
  {
    if d.devnum in t.usb {
      RegisteredRemoval(t, d, issue);
      UnpluggedKeepsUsb(t, Remove(t, d, issue), t.usb[d.devnum], d.devnum);
    } else {
      ForgottenKeepsUsb(t, d.devnum);
      var u := t.(present := t.present - {d.devnum});
      assert ChainsOk(u);
      hide Gone, UsbOk, ChainsOk;
      if d.syspath in u.sys && !u.sys[d.syspath].Removed() {
        GoneEffect(u, d.syspath, d, issue);
        OtherEntryKeepsUsb(u, Gone(u, d.syspath, d, issue), d.syspath);
      } else {
        GoneAlready(u, d.syspath, d, issue);
      }
    }
  }

  lemma GoneAlready(t: Tables, key: string, d: Udev, issue: Issue)
    requires key in t.sys ==> t.sys[key].Removed()
    ensures Gone(t, key, d, issue) == t
  {
  }

  // ---- Runs.

  ghost predicate OrderlySteps(t: Tables, steps: seq<Step>, u: Tables)
    decreases |steps|
  {
    if steps == [] then t == u
    else Enabled(t, steps[0]) && Orderly(t, steps[0]) && OrderlySteps(Apply(t, steps[0]), steps[1..], u)
  }

  ghost predicate UsbInv(t: Tables) {
    UsbOk(t) && 0 !in t.present
  }

  lemma ReplyKeepsUsb(t: Tables, step: Step)
    requires Inv(t) && UsbInv(t) && Enabled(t, step) && (step.Reply? || step.ServiceEvent?)
    ensures UsbInv(Apply(t, step))
  {
    if step.Reply? {
      ReplyEffect(t.sys[step.key].chain, step.reply);
      hide RequestChain.Apply, RequestChain.Reachable, RequestChain.Enabled, UsbOk;
      OtherEntryKeepsUsb(t, Apply(t, step), step.key);
    } else if step.handle in t.svcdev {
      var k, r := t.svcdev[step.handle], RequestChain.ServiceEvent(step.handle, step.issue);
      ReplyEffect(t.sys[k].chain, r);
      hide RequestChain.Apply, RequestChain.Reachable, RequestChain.Enabled, UsbOk;
      OtherEntryKeepsUsb(t, Apply(t, step), k);
    }
  }

  lemma StepKeepsUsb(t: Tables, step: Step)
    requires Inv(t) && UsbInv(t) && Enabled(t, step) && Orderly(t, step)
    ensures UsbInv(Apply(t, step))
  {
    match step
    case Added(d, issue) =>
      AddKeepsUsb(t, d, issue);
      hide UsbOk, Filed, ChainsOk, SvcdevOk, PointersOk;
    case Deleted(d, issue) =>
      RemoveKeepsUsb(t, d, issue);
      RemoveForgets(t, d, issue);
      hide UsbOk, Remove, ChainsOk, SvcdevOk, PointersOk;
    case Reply(_, _) =>
      ReplyKeepsUsb(t, step);
      hide UsbInv, Apply, Inv;
    case ServiceEvent(_, _) =>
      ReplyKeepsUsb(t, step);
      hide UsbInv, Apply, Inv;
  }

  lemma RemoveForgets(t: Tables, d: Udev, issue: Issue)
    requires d.devnum in t.usb ==> t.usb[d.devnum] in t.sys
    ensures Remove(t, d, issue).present == t.present - {d.devnum}
  {
    var u := Unplug(t, d.devnum).(present := t.present - {d.devnum});
    GoneForgets(u, d.syspath, d, issue);
    if d.devnum != 0 && d.devnum in t.usb {
      GoneForgets(u, u.sys[t.usb[d.devnum]].syspath, d, issue);
    }
    hide Gone, Unplug;
  }

  lemma GoneForgets(t: Tables, key: string, d: Udev, issue: Issue)
    ensures Gone(t, key, d, issue).present == t.present
  {
    hide RequestChain.HandleEvent;
  }

  lemma {:induction false} OrderlyKeepsUsb(t: Tables, steps: seq<Step>, u: Tables)
    requires Inv(t) && UsbInv(t) && OrderlySteps(t, steps, u)
    ensures Inv(u) && UsbInv(u)
    decreases |steps|
  {
    hide Inv, UsbInv, Enabled, Orderly, Apply;
    if steps != [] {
      StepKeepsInv(t, steps[0]);
      StepKeepsUsb(t, steps[0]);
      OrderlyKeepsUsb(Apply(t, steps[0]), steps[1..], u);
    }
  }

  /** The USB devices that are plugged in, by number, as the steps say. */
  function PresentFrom(steps: seq<Step>): map<nat, string> {
    if steps == [] then map[]
    else
      var before := PresentFrom(steps[..|steps| - 1]);
      match steps[|steps| - 1]
      case Added(d, _) => if d.subsys == USB && d.ids.Some? && d.devnum != 0 then before[d.devnum := d.ids.value] else before
      case Deleted(d, _) => before - {d.devnum}
      case _ => before
  }

  lemma StepPlugs(t: Tables, step: Step)
    requires Enabled(t, step)
    ensures var u := Apply(t, step);
            u.present == match step
                         case Added(d, _) =>
                           if d.subsys == USB && d.ids.Some? && d.devnum != 0 then t.present[d.devnum := d.ids.value] else t.present
                         case Deleted(d, _) => t.present - {d.devnum}
                         case _ => t.present
  {
    hide RequestChain.Apply, RequestChain.HandleEvent, Remove;
    match step
    case Added(d, issue) =>
      FiledIs(t, d);
      hide Filed;
    case Deleted(d, issue) => RemoveForgets(t, d, issue);
    case _ =>
  }

  lemma {:induction false} PresentFollowsEvents(before: seq<Step>, t: Tables, steps: seq<Step>, u: Tables)
    requires Steps(t, steps, u) && t.present == PresentFrom(before)
    ensures u.present == PresentFrom(before + steps)
    decreases |steps|
  {
    if steps == [] {
      assert before + steps == before;
    } else {
      StepPlugs(t, steps[0]);
      assert (before + [steps[0]])[..|before|] == before;
      hide Apply, Enabled;
      PresentFollowsEvents(before + [steps[0]], Apply(t, steps[0]), steps[1..], u);
      assert before + [steps[0]] + steps[1..] == before + steps;
    }
  }

  lemma {:induction false} OrderlyIsRun(t: Tables, steps: seq<Step>, u: Tables)
    requires OrderlySteps(t, steps, u)
    ensures Steps(t, steps, u)
    decreases |steps|
  {
    hide Apply, Enabled, Orderly;
    if steps != [] {
      OrderlyIsRun(Apply(t, steps[0]), steps[1..], u);
    }
  }

  /** A vendor:product entry is removed exactly when its set is empty; every number in `map_usb`
      lies in the set of its target; and an entry is not removed while a device of it is
      present. */
  lemma UsbEntriesFollowDevices(steps: seq<Step>, t: Tables)
    requires OrderlySteps(Initial, steps, t)
    ensures forall k :: k in t.sys && t.sys[k].subsys == USB ==> (t.sys[k].Removed() <==> t.sys[k].devset == {})
    ensures forall n :: n in t.usb ==> t.usb[n] in t.sys && n in t.sys[t.usb[n]].devset
    ensures t.present == PresentFrom(steps)
    ensures forall n :: n in t.present ==> t.present[n] in t.sys && !t.sys[t.present[n]].Removed()
  {
    OrderlyKeepsUsb(Initial, steps, t);
    OrderlyIsRun(Initial, steps, t);
    PresentFollowsEvents([], Initial, steps, t);
    assert [] + steps == steps;
    hide PresentFrom, OrderlySteps, Steps;
    hide ChainsOk, SvcdevOk, PointersOk;
    assert forall n :: n in t.present ==> Plugged(t, n, t.present[n]);
  }

  /** The removal of a device removes its entry exactly when its number is registered in
      `map_usb` and is the last in the set. */
  lemma LastRemovalIff(steps: seq<Step>, t: Tables, d: Udev, issue: Issue)
    requires OrderlySteps(Initial, steps, t) && !t.failed && d.devnum in t.present
    requires Enabled(t, Deleted(d, issue)) && Orderly(t, Deleted(d, issue))
    ensures var key := t.present[d.devnum];
            var u := Apply(t, Deleted(d, issue));
            && key in t.sys && key in u.sys
            && (u.sys[key].Removed() <==> d.devnum in t.usb && t.sys[key].devset == {d.devnum})
  {
    OrderlyKeepsUsb(Initial, steps, t);
    LastRemoval(t, d, issue);
    hide UsbOk, ChainsOk, SvcdevOk, PointersOk, Remove, Orderly;
  }

  lemma LastRemoval(t: Tables, d: Udev, issue: Issue)
    requires ChainsOk(t) && !t.failed && UsbInv(t) && d.devnum in t.present
    requires Enabled(t, Deleted(d, issue)) && Orderly(t, Deleted(d, issue))
    ensures var key := t.present[d.devnum];
            var u := Remove(t, d, issue);
            && key in t.sys && key in u.sys
            && (u.sys[key].Removed() <==> d.devnum in t.usb && t.sys[key].devset == {d.devnum})
  {
    var key := t.present[d.devnum];
    assert Plugged(t, d.devnum, key);
    if d.devnum in t.usb {
      RegisteredRemoval(t, d, issue);
      assert t.sys[key].devset - {d.devnum} == {} <==> t.sys[key].devset == {d.devnum};
      hide Remove, ChainsOk;
    } else {
      var v := t.(present := t.present - {d.devnum});
      assert ChainsOk(v);
      hide Gone, ChainsOk;
      if d.syspath in v.sys && !v.sys[d.syspath].Removed() {
        GoneEffect(v, d.syspath, d, issue);
      } else {
        GoneAlready(v, d.syspath, d, issue);
      }
    }
  }

  lemma {:induction false} OrderlySnoc(t: Tables, steps: seq<Step>, u: Tables, step: Step)
    requires OrderlySteps(t, steps, u) && Enabled(u, step) && Orderly(u, step)
    ensures OrderlySteps(t, steps + [step], Apply(u, step))
    decreases |steps|
  {
    if steps != [] {
      OrderlySnoc(Apply(t, steps[0]), steps[1..], u, step);
      assert (steps + [step])[1..] == steps[1..] + [step];
    }
    hide Apply, Enabled, Orderly;
  }

  /** The one entry, `devset` and the numbers registered and present as given, never tagged. */
  ghost predicate Only(t: Tables, key: string, devset: set<nat>, registered: set<nat>, present: set<nat>) {
    && t.sys.Keys == {key} && t.usb.Keys == registered && t.present.Keys == present && !t.failed
    && t.sys[key].syspath == key && t.sys[key].subsys == USB && t.sys[key].devset == devset
    && (forall n :: n in t.usb ==> t.usb[n] == key) && (forall n :: n in t.present ==> t.present[n] == key)
    && !t.sys[key].Removed() && !t.sys[key].Processing() && !t.sys[key].chain.dev.hasTag && !t.sys[key].chain.aborted
  }

  lemma FirstPlugged(d: Udev, issue: Issue)
    requires d.subsys == USB && d.ids.Some? && d.devnum != 0 && !d.tag
    ensures Only(Add(Initial, d, issue), d.ids.value, {d.devnum}, {d.devnum}, {d.devnum})
  {
  }

  lemma SecondPlugged(t: Tables, key: string, n: nat, d: Udev, issue: Issue)
    requires Only(t, key, {n}, {n}, {n}) && d.subsys == USB && d.ids == Some(key) && d.devnum != 0 && !d.tag
    ensures Only(Add(t, d, issue), key, {n, d.devnum}, {n}, {n, d.devnum})
  {
  }

  lemma FirstUnplugged(t: Tables, key: string, m: nat, d: Udev, issue: Issue)
    requires d.devnum != 0 && m != d.devnum && Only(t, key, {d.devnum, m}, {d.devnum}, {d.devnum, m})
    ensures Only(Remove(t, d, issue), key, {m}, {}, {m})
  {
    assert {d.devnum, m} - {d.devnum} == {m};
  }

  lemma SecondUnplugged(t: Tables, key: string, d: Udev, issue: Issue)
    requires Only(t, key, {d.devnum}, {}, {d.devnum}) && d.syspath != key
    ensures Only(Remove(t, d, issue), key, {d.devnum}, {}, {})
  {
    assert d.devnum !in t.usb;
  }

  /** A second device with an id that is already there is not registered, so its entry outlives
      both devices: none is present at the end, and clients are still told that one is. */
  lemma EntryOutlivesDevices(a: Udev, b: Udev, issue: Issue) returns (steps: seq<Step>, t: Tables)
    requires a.subsys == b.subsys == USB && a.ids.Some? && a.ids == b.ids
    requires a.devnum != b.devnum && a.devnum != 0 && b.devnum != 0 && !a.tag && !b.tag
    requires a.ids.value != a.syspath && a.ids.value != b.syspath
    ensures OrderlySteps(Initial, steps, t) && t.present == map[]
    ensures a.ids.value in t.sys && Answer(t, Path(a.ids.value))
  {
    var key := a.ids.value;
    steps, t := PluggedAndUnplugged(a, b, issue);
    hide Add, Remove;
    assert t.present.Keys == {};
  }

  lemma PluggedAndUnplugged(a: Udev, b: Udev, issue: Issue) returns (steps: seq<Step>, t: Tables)
    requires a.subsys == b.subsys == USB && a.ids.Some? && a.ids == b.ids
    requires a.devnum != b.devnum && a.devnum != 0 && b.devnum != 0 && !a.tag && !b.tag
    requires a.ids.value != a.syspath && a.ids.value != b.syspath
    ensures OrderlySteps(Initial, steps, t) && Only(t, a.ids.value, {b.devnum}, {}, {})
  {
    hide Add, Remove;
    var key := a.ids.value;
    FirstPlugged(a, issue);
    var t1 := Add(Initial, a, issue);
    SecondPlugged(t1, key, a.devnum, b, issue);
    var t2 := Add(t1, b, issue);
    FirstUnplugged(t2, key, b.devnum, a, issue);
    var t3 := Remove(t2, a, issue);
    SecondUnplugged(t3, key, b, issue);
    t := Remove(t3, b, issue);
    OnlyStep(t1, key, {a.devnum}, {a.devnum}, {a.devnum}, b, issue);
    OnlyStep(t2, key, {a.devnum, b.devnum}, {a.devnum}, {a.devnum, b.devnum}, a, issue);
    OnlyStep(t3, key, {b.devnum}, {}, {b.devnum}, b, issue);
    hide Only;
    steps := Run4(Added(a, issue), Added(b, issue), Deleted(a, issue), Deleted(b, issue), t1, t2, t3, t);
  }

  /** Devices of the one entry come and go in an orderly way. */
  lemma OnlyStep(t: Tables, key: string, devset: set<nat>, registered: set<nat>, present: set<nat>, d: Udev, issue: Issue)
    requires Only(t, key, devset, registered, present)
    requires d.subsys == USB && d.ids == Some(key) && d.devnum != 0 && d.syspath != key
    ensures Enabled(t, Added(d, issue)) && Orderly(t, Added(d, issue))
    ensures Enabled(t, Deleted(d, issue)) && Orderly(t, Deleted(d, issue))
  {
  }

  lemma Run4(a: Step, b: Step, c: Step, d: Step, t1: Tables, t2: Tables, t3: Tables, t4: Tables)
    returns (steps: seq<Step>)
    requires Enabled(Initial, a) && Orderly(Initial, a) && t1 == Apply(Initial, a)
    requires Enabled(t1, b) && Orderly(t1, b) && t2 == Apply(t1, b)
    requires Enabled(t2, c) && Orderly(t2, c) && t3 == Apply(t2, c)
    requires Enabled(t3, d) && Orderly(t3, d) && t4 == Apply(t3, d)
    ensures OrderlySteps(Initial, steps, t4)
  {
    hide Enabled, Orderly, Apply;
    assert OrderlySteps(Initial, [], Initial);
    OrderlySnoc(Initial, [], Initial, a);
    OrderlySnoc(Initial, [] + [a], t1, b);
    OrderlySnoc(Initial, [] + [a] + [b], t2, c);
    OrderlySnoc(Initial, [] + [a] + [b] + [c], t3, d);
    steps := [] + [a] + [b] + [c] + [d];
  }
}
