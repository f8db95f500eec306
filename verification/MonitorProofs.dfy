/** What every reachable state of the device monitor's tables keeps. */
module MonitorProofs {
  import opened Text
  import opened DeviceIndex
  import RequestChain

  // ---- What the steps of a chain do to the fields that the tables depend on.

  lemma ProcessKeeps(s: RequestChain.State, issue: Issue, reply: bool)
    ensures RequestChain.Process(s, issue, reply).dev.removed == s.dev.removed
    ensures RequestChain.Process(s, issue, reply).waiting == s.waiting
  {
  }

  lemma EventEffect(s: RequestChain.State, removed: bool, tag: bool, services: set<string>, issue: Issue)
    requires RequestChain.Reachable(s) && !s.aborted
    ensures var t := RequestChain.HandleEvent(s, removed, tag, services, issue);
            t.dev.removed == removed && t.waiting == s.waiting && RequestChain.Reachable(t)
  {
    var event := RequestChain.Event(removed, if removed then {} else services);
    ProcessKeeps(RequestChain.Noted(s, event), issue, false);
    RequestChain.ReachableStep(s, RequestChain.Udev(removed, tag, services, issue));
    hide RequestChain.Process, RequestChain.Reachable;
  }

  /** What a reply does to the handles that are waited for. */
  function WaitingAfter(s: RequestChain.State, r: RequestChain.Step): set<Handle> {
    if Awaits(r) then s.waiting.Keys + {r.handle}
    else if r.ServiceEvent? then s.waiting.Keys - {r.handle}
    else s.waiting.Keys
  }

  lemma CountDownKeeps(s: RequestChain.State, issue: Issue)
    ensures RequestChain.CountDown(s, issue).dev.removed == s.dev.removed
    ensures RequestChain.CountDown(s, issue).waiting == s.waiting
  {
    hide RequestChain.Process;
    ProcessKeeps(s.(dev := s.dev.(pendingSvcs := s.dev.pendingSvcs - 1)), issue, true);
  }

  lemma DeviceReplyEffect(s: RequestChain.State, r: RequestChain.Step)
    requires RequestChain.Enabled(s, r)
    requires r.DeviceLoaded? || r.DeviceNotLoaded? || r.DeviceDepended? || r.LoadFailed?
    ensures var t := RequestChain.Apply(s, r);
            t.dev.removed == s.dev.removed && t.waiting == s.waiting
  {
    hide RequestChain.Process;
    if r.DeviceNotLoaded? {
      ProcessKeeps(s.(dev := s.dev.(deviceSvc := None), calls := s.calls - {RequestChain.LoadDevice}), r.issue, true);
    }
  }

  lemma ServiceReplyEffect(s: RequestChain.State, r: RequestChain.Step)
    requires RequestChain.Enabled(s, r) && (r.ServiceNotLoaded? || r.ServiceLoaded?)
    ensures var t := RequestChain.Apply(s, r);
            t.dev.removed == s.dev.removed && t.waiting.Keys == WaitingAfter(s, r)
  {
    hide RequestChain.CountDown;
    CountDownKeeps(RequestChain.Settle(s, RequestChain.LoadService(r.service, r.drop)), r.issue);
    if Awaits(r) {
      assert s.waiting[r.handle := r.service].Keys == s.waiting.Keys + {r.handle};
    }
  }

  lemma ServiceEventEffect(s: RequestChain.State, h: Handle, issue: Issue)
    requires RequestChain.Enabled(s, RequestChain.ServiceEvent(h, issue))
    ensures var t := RequestChain.Apply(s, RequestChain.ServiceEvent(h, issue));
            t.dev.removed == s.dev.removed && t.waiting.Keys == s.waiting.Keys - {h}
  {
    hide RequestChain.CountDown;
    CountDownKeeps(s.(waiting := s.waiting - {h}, settled := s.settled + {RequestChain.LoadService(s.waiting[h], false)}), issue);
    assert (s.waiting - {h}).Keys == s.waiting.Keys - {h};
  }

  lemma ReplyEffect(s: RequestChain.State, r: RequestChain.Step)
    requires RequestChain.Reachable(s) && RequestChain.Enabled(s, r) && !r.Udev?
    ensures var t := RequestChain.Apply(s, r);
            t.dev.removed == s.dev.removed && t.waiting.Keys == WaitingAfter(s, r) && RequestChain.Reachable(t)
  {
    RequestChain.ReachableStep(s, r);
    hide RequestChain.Apply, RequestChain.Reachable, RequestChain.Enabled;
    match r
    case ServiceNotLoaded(_, _, _) => ServiceReplyEffect(s, r);
    case ServiceLoaded(_, _, _, _, _, _) => ServiceReplyEffect(s, r);
    case ServiceEvent(h, issue) => ServiceEventEffect(s, h, issue);
    case _ => DeviceReplyEffect(s, r);
  }

  // ---- The invariants.

  /** Every device is filed under its own path, and its chain is in a state a chain can reach. */
  ghost predicate ChainsOk(t: Tables) {
    forall k :: k in t.sys ==> t.sys[k].syspath == k && ChainOk(t.sys[k])
  }

  ghost predicate ChainOk(e: Entry) {
    RequestChain.Reachable(e.chain) && !e.chain.aborted
  }

  /** `map_svcdev` leads every awaited handle to the one device that awaits it. */
  ghost predicate SvcdevOk(t: Tables) {
    && (forall h :: h in t.svcdev ==> t.svcdev[h] in t.sys && h in t.sys[t.svcdev[h]].chain.waiting)
    && (forall k, h :: k in t.sys && h in t.sys[k].chain.waiting ==> h in t.svcdev && t.svcdev[h] == k)
  }

  /** The device is one that the index for network interfaces, or the one for nodes, covers. */
  predicate Covered(e: Entry, net: bool) {
    !e.Removed() && (e.subsys == NET) == net && e.name != ""
  }

  /** An index holds exactly the names of the devices it covers. */
  ghost predicate IndexOk(sys: map<string, Entry>, index: map<string, string>, net: bool) {
    && (forall n :: n in index ==> index[n] in sys && Covered(sys[index[n]], net) && sys[index[n]].name == n)
    && (forall k :: k in sys && Covered(sys[k], net) ==> sys[k].name in index && index[sys[k].name] == k)
  }

  /** An index leads to devices that are there. */
  ghost predicate LeadsIn(index: map<string, string>, sys: map<string, Entry>) {
    forall n :: n in index ==> index[n] in sys
  }

  ghost predicate OwnersIn(mac: seq<Filing>, sys: map<string, Entry>) {
    forall f :: f in mac ==> f.owner in sys
  }

  ghost predicate IndexesLeadIn(t: Tables) {
    LeadsIn(t.dev, t.sys) && LeadsIn(t.netif, t.sys) && OwnersIn(t.mac, t.sys)
  }

  /** Removed devices have no name. */
  ghost predicate NamelessOk(t: Tables) {
    forall k :: k in t.sys && t.sys[k].Removed() ==> t.sys[k].name == ""
  }

  ghost predicate NamesOk(t: Tables) {
    NamelessOk(t) && IndexOk(t.sys, t.dev, false) && IndexOk(t.sys, t.netif, true)
  }

  /** USB devices: the numbers in `map_usb` are those of present devices and lie in the set of
      their target; every present device is in the set of its own entry, and only entries with
      empty sets are removed. */
  ghost predicate UsbOk(t: Tables) {
    && (forall k :: k in t.sys && t.sys[k].subsys == USB ==> (t.sys[k].Removed() <==> t.sys[k].devset == {}))
    && (forall n :: n in t.usb ==> n in t.present && t.present[n] == t.usb[n])
    && (forall n :: n in t.present ==> Plugged(t, n, t.present[n]))
  }

  ghost predicate Plugged(t: Tables, n: nat, k: string) {
    k in t.sys && t.sys[k].subsys == USB && n in t.sys[k].devset
  }

  ghost predicate UsbPointersOk(t: Tables) {
    forall n :: n in t.usb ==> t.usb[n] in t.sys
  }

  /** One entry changes; what it had in an index goes, and what it now has comes. */
  function IndexFor(index: map<string, string>, sys: map<string, Entry>, key: string, e: Entry, net: bool):
    map<string, string>
  {
    var rest := if key in sys && Covered(sys[key], net) then index - {sys[key].name} else index;
    if Covered(e, net) then rest[e.name := key] else rest
  }

  lemma IndexAfter(sys: map<string, Entry>, index: map<string, string>, net: bool, key: string, e: Entry)
    requires IndexOk(sys, index, net)
    requires Covered(e, net) ==> forall j :: j in sys && j != key && Covered(sys[j], net) ==> sys[j].name != e.name
    ensures IndexOk(sys[key := e], IndexFor(index, sys, key, e, net), net)
  {
  }

  // ---- Adding a device.

  /** The subsystem under which an event about a device is handled. */
  function GivenSubsys(t: Tables, d: Udev): string {
    if Key(d) in t.sys && !t.sys[Key(d)].Removed() then t.sys[Key(d)].subsys else d.subsys
  }

  /** The name that an event gives to the device: a node or an interface name, by its subsystem. */
  function GivenName(t: Tables, d: Udev): Option<string> {
    if d.subsys == USB && d.devnum != 0 then None else if GivenSubsys(t, d) == NET then d.sysname else d.devnode
  }

  ghost predicate Unshared(sys: map<string, Entry>, key: string, name: string, net: bool) {
    name != "" && forall j :: j in sys && j != key && Covered(sys[j], net) ==> sys[j].name != name
  }

  /** Names are not empty, and no two live devices of a kind have the same one. */
  ghost predicate FreshName(t: Tables, d: Udev) {
    GivenName(t, d).Some? ==> Unshared(t.sys, Key(d), GivenName(t, d).value, GivenSubsys(t, d) == NET)
  }

  /** `u` is `t` with one entry changed, and both indexes brought up to date with it. */
  ghost predicate Refiled(t: Tables, u: Tables, key: string) {
    && key in u.sys && u.sys == t.sys[key := u.sys[key]]
    && u.dev == IndexFor(t.dev, t.sys, key, u.sys[key], false)
    && u.netif == IndexFor(t.netif, t.sys, key, u.sys[key], true)
  }

  lemma EmplaceRefiles(sys: map<string, Entry>, index: map<string, string>, net: bool, key: string, e: Entry)
    requires IndexOk(sys, index, net) && (key in sys ==> !Covered(sys[key], net))
    requires Covered(e, net) && Unshared(sys, key, e.name, net)
    ensures Emplace(index, e.name, key) == IndexFor(index, sys, key, e, net)
  {
  }

  lemma ReindexRefiles(sys: map<string, Entry>, index: map<string, string>, net: bool, key: string, e: Entry,
                       given: Option<string>)
    requires IndexOk(sys, index, net) && key in sys && !sys[key].Removed() && (sys[key].subsys == NET) == net
    requires !e.Removed() && (e.subsys == NET) == net && e.name == OrElse(given, "")
    requires given.Some? ==> Unshared(sys, key, given.value, net)
    ensures Reindex(index, sys[key].name, given, key) == IndexFor(index, sys, key, e, net)
  {
    var name := sys[key].name;
    if SameName(name, given) {
      assert name != "" ==> index[name] == key;
    } else if given.Some? {
      assert given.value !in index - {name};
    }
    assert name == "" ==> name !in index;
  }

  /** Setting or clearing `removed` for the entry, as the event is handled. */
  function With(t: Tables, key: string, chain: RequestChain.State): Tables
    requires key in t.sys
  {
    t.(sys := t.sys[key := t.sys[key].(chain := chain)])
  }

  /** An entry that keeps its name, or still has none, leaves an index as it is. */
  lemma SameNameRefiles(sys: map<string, Entry>, index: map<string, string>, net: bool, key: string, e: Entry)
    requires IndexOk(sys, index, net)
    requires key in sys ==> Covered(sys[key], net) == Covered(e, net) && sys[key].name == e.name
    requires key !in sys ==> !Covered(e, net)
    ensures index == IndexFor(index, sys, key, e, net)
  {
  }

  lemma InitRefiles(t: Tables, key: string, d: Udev, devnum: nat, chain: RequestChain.State)
    requires NamesOk(t) && (key in t.sys ==> t.sys[key].Removed()) && !chain.dev.removed
    requires key == Key(d) && devnum == UsbNumber(d) && FreshName(t, d)
    ensures Refiled(t, With(Init(t, key, d, devnum), key, chain), key)
  {
    hide IndexOk, Emplace, Unshared, IndexFor;
    var u := With(Init(t, key, d, devnum), key, chain);
    var e, net := u.sys[key], d.subsys == NET;
    assert u.sys == t.sys[key := e];
    if devnum != 0 || GivenName(t, d) == None {
      assert e.name == "";
      NamelessRefiles(t.sys, t.dev, false, key, e);
      NamelessRefiles(t.sys, t.netif, true, key, e);
    } else {
      UnsharedIsNonEmpty(t.sys, key, e.name, net);
      EmplaceRefiles(t.sys, if net then t.netif else t.dev, net, key, e);
      OtherKindRefiles(t.sys, if net then t.dev else t.netif, !net, key, e);
    }
  }

  lemma UnsharedIsNonEmpty(sys: map<string, Entry>, key: string, name: string, net: bool)
    requires Unshared(sys, key, name, net)
    ensures name != ""
  {
  }

  lemma NamelessRefiles(sys: map<string, Entry>, index: map<string, string>, net: bool, key: string, e: Entry)
    requires IndexOk(sys, index, net) && e.name == "" && (key in sys ==> sys[key].name == "")
    ensures index == IndexFor(index, sys, key, e, net)
  {
  }

  lemma OtherKindRefiles(sys: map<string, Entry>, index: map<string, string>, net: bool, key: string, e: Entry)
    requires IndexOk(sys, index, net) && !Covered(e, net) && (key in sys ==> !Covered(sys[key], net))
    ensures index == IndexFor(index, sys, key, e, net)
  {
  }

  lemma SetRefiles(t: Tables, key: string, d: Udev, devnum: nat, chain: RequestChain.State)
    requires NamesOk(t) && key in t.sys && !t.sys[key].Removed() && !chain.dev.removed
    requires key == Key(d) && devnum == UsbNumber(d) && FreshName(t, d)
    ensures Refiled(t, With(Set(t, key, d, devnum), key, chain), key)
  {
    hide IndexOk, Unshared, Emplace, Reindex, IndexFor;
    var u := With(Set(t, key, d, devnum), key, chain);
    var e, net := u.sys[key], t.sys[key].subsys == NET;
    if devnum != 0 {
      SameNameRefiles(t.sys, t.dev, false, key, e);
      SameNameRefiles(t.sys, t.netif, true, key, e);
    } else {
      ReindexRefiles(t.sys, if net then t.netif else t.dev, net, key, e, GivenName(t, d));
      OtherKindRefiles(t.sys, if net then t.dev else t.netif, !net, key, e);
    }
  }

  lemma RefiledKeepsNames(t: Tables, u: Tables, key: string)
    requires NamesOk(t) && Refiled(t, u, key)
    requires u.sys[key].Removed() ==> u.sys[key].name == ""
    requires forall net :: Covered(u.sys[key], net) ==> Unshared(t.sys, key, u.sys[key].name, net)
    ensures NamesOk(u)
  {
    hide IndexFor, Covered;
    assert NamelessOk(u);
    hide NamelessOk;
    forall net | Covered(u.sys[key], net)
      ensures forall j :: j in t.sys && j != key && Covered(t.sys[j], net) ==> t.sys[j].name != u.sys[key].name
    {
      assert Unshared(t.sys, key, u.sys[key].name, net);
    }
    hide Unshared;
    IndexAfter(t.sys, t.dev, false, key, u.sys[key]);
    IndexAfter(t.sys, t.netif, true, key, u.sys[key]);
    hide IndexOk;
  }

  /** The name of a covered device is its own. */
  lemma KeptNameUnshared(sys: map<string, Entry>, index: map<string, string>, net: bool, key: string)
    requires IndexOk(sys, index, net) && key in sys && Covered(sys[key], net)
    ensures Unshared(sys, key, sys[key].name, net)
  {
  }

  lemma FiledKeepsNames(t: Tables, d: Udev, chain: RequestChain.State)
    requires NamesOk(t) && FreshName(t, d) && !chain.dev.removed
    ensures NamesOk(With(Filed(t, d), Key(d), chain))
  {
    hide NamesOk, With, FreshName, Refiled, InitEntry, SetEntry;
    var key, devnum := Key(d), UsbNumber(d);
    if key in t.sys && !t.sys[key].Removed() {
      SetRefiles(t, key, d, devnum, chain);
      SetUnshared(t, key, d, devnum, chain);
      LiveAfter(Set(t, key, d, devnum), key, chain);
      RefiledKeepsNames(t, With(Set(t, key, d, devnum), key, chain), key);
    } else {
      InitRefiles(t, key, d, devnum, chain);
      InitUnshared(t, key, d, devnum, chain);
      LiveAfter(Init(t, key, d, devnum), key, chain);
      RefiledKeepsNames(t, With(Init(t, key, d, devnum), key, chain), key);
    }
  }

  lemma LiveAfter(u: Tables, key: string, chain: RequestChain.State)
    requires key in u.sys && !chain.dev.removed
    ensures key in With(u, key, chain).sys && !With(u, key, chain).sys[key].Removed()
  {
  }

  /** `u` is `t` with one entry changed, filed under its own path, its chain not touched. */
  ghost predicate FilesEntry(t: Tables, u: Tables, key: string) {
    && key in u.sys && u.sys == t.sys[key := u.sys[key]] && u.sys[key].syspath == key
    && u.sys[key].chain == (if key in t.sys then t.sys[key].chain else RequestChain.Initial)
    && u.svcdev == t.svcdev && u.failed == t.failed && u.present == t.present
  }

  /** The entry after the event has been filed. */
  function FiledEntry(t: Tables, d: Udev): Entry {
    var key := Key(d);
    if key in t.sys && !t.sys[key].Removed() then SetEntry(t.sys[key], d, UsbNumber(d))
    else InitEntry((if key in t.sys then t.sys[key] else NewEntry).(syspath := key, subsys := d.subsys), d, UsbNumber(d))
  }

  lemma SetIs(t: Tables, key: string, d: Udev, n: nat)
    requires key in t.sys
    ensures var u := Set(t, key, d, n);
            && u.sys == t.sys[key := SetEntry(t.sys[key], d, n)] && u.usb == t.usb
            && u.svcdev == t.svcdev && u.failed == t.failed && u.present == t.present
  {
    hide Emplace, Reindex, ReindexMac, SetEntry, HasNode, IsNetif, Renamed;
  }

  lemma InitIs(t: Tables, key: string, d: Udev, n: nat)
    ensures var u := Init(t, key, d, n);
            var was := (if key in t.sys then t.sys[key] else NewEntry).(syspath := key, subsys := d.subsys);
            && u.sys == t.sys[key := InitEntry(was, d, n)] && u.usb == (if n != 0 then t.usb[n := key] else t.usb)
            && u.svcdev == t.svcdev && u.failed == t.failed && u.present == t.present && u.sent == t.sent
  {
    hide Emplace, File, InitEntry, HasNode, IsNetif;
  }

  lemma FiledIs(t: Tables, d: Udev)
    ensures var u := Filed(t, d);
            && u.sys == t.sys[Key(d) := FiledEntry(t, d)]
            && (u.usb == t.usb || u.usb == t.usb[UsbNumber(d) := Key(d)]) && (UsbNumber(d) == 0 ==> u.usb == t.usb)
            && u.svcdev == t.svcdev && u.failed == t.failed && u.present == t.present
  {
    hide Set, Init, InitEntry, SetEntry, Key, UsbNumber;
    InitIs(t, Key(d), d, UsbNumber(d));
    if Key(d) in t.sys {
      SetIs(t, Key(d), d, UsbNumber(d));
    }
  }

  lemma EntriesKeepChain(e: Entry, d: Udev, devnum: nat)
    ensures InitEntry(e, d, devnum).chain == SetEntry(e, d, devnum).chain == e.chain
    ensures InitEntry(e, d, devnum).syspath == SetEntry(e, d, devnum).syspath == e.syspath
  {
  }

  /** Filing an event touches one entry and not its chain. */
  lemma FiledFacts(t: Tables, d: Udev)
    requires ChainsOk(t)
    ensures FilesEntry(t, Filed(t, d), Key(d))
  {
    hide Filed, SetEntry, InitEntry, ChainOk;
    FiledIs(t, d);
    var key, n := Key(d), UsbNumber(d);
    if key in t.sys && !t.sys[key].Removed() {
      EntriesKeepChain(t.sys[key], d, n);
    } else {
      EntriesKeepChain((if key in t.sys then t.sys[key] else NewEntry).(syspath := key, subsys := d.subsys), d, n);
    }
    hide Key, UsbNumber;
  }

  lemma AddKeepsNames(t: Tables, d: Udev, issue: Issue)
    requires ChainsOk(t) && NamesOk(t) && FreshName(t, d) && !t.failed
    ensures NamesOk(Add(t, d, issue))
  {
    if !(d.subsys == USB && d.ids == None) {
      FreshChainReachable();
      FiledFacts(t, d);
      var u := Filed(t, d);
      var before := u.sys[Key(d)].chain;
      EventEffect(before, false, d.tag, d.services, issue);
      var chain := RequestChain.HandleEvent(before, false, d.tag, d.services, issue);
      hide RequestChain.HandleEvent, RequestChain.Reachable, NamesOk, FreshName, Set, Init;
      FiledKeepsNames(t, d, chain);
      SameTablesSameNames(With(u, Key(d), chain), Add(t, d, issue));
    }
  }

  lemma SameTablesSameNames(t: Tables, u: Tables)
    requires NamesOk(t) && u.sys == t.sys && u.dev == t.dev && u.netif == t.netif
    ensures NamesOk(u)
  {
  }

  lemma FreshChainReachable()
    ensures RequestChain.Reachable(RequestChain.Initial)
  {
    assert RequestChain.Steps(RequestChain.Initial, [], RequestChain.Initial);
  }

  lemma SetUnshared(t: Tables, key: string, d: Udev, devnum: nat, chain: RequestChain.State)
    requires NamesOk(t) && FreshName(t, d) && key in t.sys && !t.sys[key].Removed()
    requires key == Key(d) && devnum == UsbNumber(d)
    ensures var u := With(Set(t, key, d, devnum), key, chain);
            forall net :: Covered(u.sys[key], net) ==> Unshared(t.sys, key, u.sys[key].name, net)
  {
    hide IndexOk, Unshared, Emplace, Reindex, ReindexMac;
    var e := With(Set(t, key, d, devnum), key, chain).sys[key];
    forall net | Covered(e, net)
      ensures Unshared(t.sys, key, e.name, net)
    {
      if devnum != 0 {
        KeptNameUnshared(t.sys, if net then t.netif else t.dev, net, key);
      } else {
        assert GivenName(t, d) == Some(e.name);
      }
    }
  }

  lemma InitUnshared(t: Tables, key: string, d: Udev, devnum: nat, chain: RequestChain.State)
    requires NamesOk(t) && FreshName(t, d) && (key in t.sys ==> t.sys[key].Removed())
    requires key == Key(d) && devnum == UsbNumber(d)
    ensures var u := With(Init(t, key, d, devnum), key, chain);
            forall net :: Covered(u.sys[key], net) ==> Unshared(t.sys, key, u.sys[key].name, net)
  {
    hide IndexOk, Unshared, Emplace, Reindex, ReindexMac;
    var e := With(Init(t, key, d, devnum), key, chain).sys[key];
    forall net | Covered(e, net)
      ensures Unshared(t.sys, key, e.name, net)
    {
      assert GivenName(t, d) == Some(e.name);
    }
  }

  lemma ReplyKeepsNames(t: Tables, u: Tables, key: string, chain: RequestChain.State)
    requires NamesOk(t) && key in t.sys && chain.dev.removed == t.sys[key].Removed()
    requires u.sys == t.sys[key := t.sys[key].(chain := chain)] && u.dev == t.dev && u.netif == t.netif
    ensures NamesOk(u)
  {
    SameNameKeepsNames(t, u, key);
  }

  lemma SameNameKeepsNames(t: Tables, u: Tables, key: string)
    requires NamesOk(t) && key in t.sys && key in u.sys && u.sys == t.sys[key := u.sys[key]]
    requires u.dev == t.dev && u.netif == t.netif && u.sys[key].name == t.sys[key].name
    requires u.sys[key].Removed() == t.sys[key].Removed() && u.sys[key].subsys == t.sys[key].subsys
    ensures NamesOk(u)
  {
    hide IndexOk, IndexFor, Unshared;
    var e := u.sys[key];
    SameNameRefiles(t.sys, t.dev, false, key, e);
    SameNameRefiles(t.sys, t.netif, true, key, e);
    forall net | Covered(e, net)
      ensures Unshared(t.sys, key, e.name, net)
    {
      KeptNameUnshared(t.sys, if net then t.netif else t.dev, net, key);
    }
    RefiledKeepsNames(t, u, key);
  }

  lemma GoneKeepsNames(t: Tables, key: string, d: Udev, issue: Issue)
    requires ChainsOk(t) && NamesOk(t) && !t.failed
    ensures Gone(t, key, d, issue).failed || NamesOk(Gone(t, key, d, issue))
  {
    if key in t.sys && !t.sys[key].Removed() {
      EventEffect(t.sys[key].chain, true, d.tag, d.services, issue);
      hide RequestChain.HandleEvent, RequestChain.Reachable;
      var u := Gone(t, key, d, issue);
      if !u.failed {
        DropRefiles(t, Dispatch(t, key, d, true, issue), u, key);
        RefiledKeepsNames(t, u, key);
      }
    }
  }

  lemma DropRefiles(t: Tables, v: Tables, u: Tables, key: string)
    requires NamesOk(t) && key in t.sys && !t.sys[key].Removed() && Drops(t, v, u, key)
    ensures Refiled(t, u, key) && u.sys[key].Removed() && u.sys[key].name == ""
  {
    hide NamesOk;
    assert u.sys == t.sys[key := u.sys[key]];
  }

  ghost predicate Drops(t: Tables, v: Tables, u: Tables, key: string) {
    && key in t.sys && key in v.sys && v.sys == t.sys[key := v.sys[key]] && v.dev == t.dev && v.netif == t.netif
    && v.sys[key].name == t.sys[key].name && v.sys[key].subsys == t.sys[key].subsys && v.sys[key].Removed()
    && u == Drop(v, key)
  }
}
