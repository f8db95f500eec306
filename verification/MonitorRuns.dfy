/** Whole runs of the device monitor: udev events, dinit replies and dinit events, interleaved
    in any order. */
module MonitorRuns {
  import opened Text
  import opened DeviceIndex
  import opened MonitorProofs
  import RequestChain

  function Waits(sys: map<string, Entry>, key: string): set<Handle> {
    if key in sys then sys[key].chain.waiting.Keys else {}
  }

  /** `u` is `t` but for one entry, which is filed under its own path and went on with its chain. */
  ghost predicate Touched(t: Tables, u: Tables, key: string) {
    && key in u.sys && u.sys == t.sys[key := u.sys[key]] && u.sys[key].syspath == key
    && RequestChain.Reachable(u.sys[key].chain) && u.failed == u.sys[key].chain.aborted
  }

  lemma TouchedKeepsChains(t: Tables, u: Tables, key: string)
    requires ChainsOk(t) && Touched(t, u, key)
    ensures u.failed || ChainsOk(u)
  {
  }

  lemma TouchedKeepsSvcdev(t: Tables, u: Tables, key: string)
    requires SvcdevOk(t) && Touched(t, u, key) && u.svcdev == t.svcdev && Waits(u.sys, key) == Waits(t.sys, key)
    ensures SvcdevOk(u)
  {
    assert forall h :: h in Waits(t.sys, key) <==> h in Waits(u.sys, key);
  }

  lemma DispatchTouches(t: Tables, u: Tables, key: string, d: Udev, removed: bool, issue: Issue)
    requires ChainsOk(t) && !t.failed && FilesEntry(t, u, key)
    ensures var v := Dispatch(u, key, d, removed, issue);
            && Touched(t, v, key) && v.svcdev == t.svcdev && Waits(v.sys, key) == Waits(t.sys, key)
            && v.sys[key].Removed() == removed
  {
    FreshChainReachable();
    EventEffect(u.sys[key].chain, removed, d.tag, d.services, issue);
    hide RequestChain.HandleEvent, RequestChain.Reachable, Told;
    var v := Dispatch(u, key, d, removed, issue);
    assert v.sys == t.sys[key := v.sys[key]];
    assert v.sys[key] == u.sys[key].(chain := v.sys[key].chain);
    hide Dispatch;
  }

  lemma AddTouches(t: Tables, d: Udev, issue: Issue)
    requires ChainsOk(t) && !t.failed && !(d.subsys == USB && d.ids == None)
    ensures Touched(t, Add(t, d, issue), Key(d)) && Add(t, d, issue).svcdev == t.svcdev
    ensures Waits(Add(t, d, issue).sys, Key(d)) == Waits(t.sys, Key(d))
    ensures !Add(t, d, issue).sys[Key(d)].Removed()
  {
    FiledFacts(t, d);
    DispatchTouches(t, Filed(t, d), Key(d), d, false, issue);
    hide Filed, Dispatch, ChainsOk, FilesEntry, RequestChain.Reachable;
  }

  lemma GoneTouches(t: Tables, key: string, d: Udev, issue: Issue)
    requires ChainsOk(t) && !t.failed && key in t.sys && !t.sys[key].Removed()
    ensures Touched(t, Gone(t, key, d, issue), key) && Gone(t, key, d, issue).svcdev == t.svcdev
    ensures Waits(Gone(t, key, d, issue).sys, key) == Waits(t.sys, key)
    ensures Gone(t, key, d, issue).sys[key].Removed()
  {
    assert FilesEntry(t, t, key);
    DispatchTouches(t, t, key, d, true, issue);
    hide Dispatch, ChainsOk, RequestChain.Reachable;
  }

  // ---- The invariant of all runs.

  ghost predicate PointersOk(t: Tables) {
    IndexesLeadIn(t) && UsbPointersOk(t)
  }

  ghost predicate Inv(t: Tables) {
    t.failed || (ChainsOk(t) && SvcdevOk(t) && PointersOk(t))
  }

  lemma UnplugKeeps(t: Tables, devnum: nat, present: map<nat, string>)
    requires Inv(t) && !t.failed && (devnum in t.usb ==> t.usb[devnum] in t.sys)
    ensures var u := Unplug(t, devnum).(present := present); Inv(u) && !u.failed && u.sys.Keys == t.sys.Keys
  {
    if devnum != 0 && devnum in t.usb {
      hide RequestChain.Reachable, SvcdevOk, ChainsOk, PointersOk, Touched;
      var u := Unplug(t, devnum).(present := present);
      var key := t.usb[devnum];
      assert Touched(t, u, key) && Waits(u.sys, key) == Waits(t.sys, key) by {
        SameChainTouches(t, u, key);
      }
      TouchedKeepsChains(t, u, key);
      TouchedKeepsSvcdev(t, u, key);
      UnplugKeepsPointers(t, devnum, present);
    }
  }

  lemma SameChainTouches(t: Tables, u: Tables, key: string)
    requires ChainsOk(t) && !t.failed && !u.failed && key in t.sys && key in u.sys && u.sys == t.sys[key := u.sys[key]]
    requires u.sys[key].chain == t.sys[key].chain && u.sys[key].syspath == t.sys[key].syspath
    ensures Touched(t, u, key)
  {
    hide RequestChain.Reachable;
  }

  lemma UnplugKeepsPointers(t: Tables, devnum: nat, present: map<nat, string>)
    requires PointersOk(t) && (devnum in t.usb ==> t.usb[devnum] in t.sys)
    ensures PointersOk(Unplug(t, devnum).(present := present))
  {
  }

  lemma AddKeepsInv(t: Tables, d: Udev, issue: Issue)
    requires Inv(t) && !t.failed
    ensures Inv(Add(t, d, issue))
  {
    if !(d.subsys == USB && d.ids == None) {
      var u := Add(t, d, issue);
      AddTouches(t, d, issue);
      TouchedKeepsChains(t, u, Key(d));
      TouchedKeepsSvcdev(t, u, Key(d));
      AddKeepsPointers(t, d, issue);
      hide Add, ChainsOk, SvcdevOk, PointersOk;
    }
  }

  lemma AddKeepsPointers(t: Tables, d: Udev, issue: Issue)
    requires PointersOk(t)
    ensures PointersOk(Add(t, d, issue))
  {
    hide RequestChain.HandleEvent, Filed;
    FiledKeepsPointers(t, d);
  }

  /** What is new in the index leads to `key`. */
  ghost predicate ComesFrom(index: map<string, string>, more: map<string, string>, key: string) {
    forall n :: n in more ==> more[n] == key || (n in index && more[n] == index[n])
  }

  lemma MoreLeadIn(index: map<string, string>, more: map<string, string>, sys: map<string, Entry>, key: string, e: Entry)
    requires LeadsIn(index, sys) && ComesFrom(index, more, key)
    ensures LeadsIn(more, sys[key := e])
  {
  }

  lemma IndexesComeFrom(index: map<string, string>, n: string, given: Option<string>, key: string)
    ensures ComesFrom(index, index, key) && ComesFrom(index, Emplace(index, n, key), key)
    ensures ComesFrom(index, Reindex(index, n, given, key), key)
  {
  }

  /** What is new in `map_mac` leads to `key`. */
  ghost predicate FiledFor(mac: seq<Filing>, more: seq<Filing>, key: string) {
    forall f :: f in more ==> f in mac || f.owner == key
  }

  lemma MoreOwnersIn(mac: seq<Filing>, more: seq<Filing>, sys: map<string, Entry>, key: string, e: Entry)
    requires OwnersIn(mac, sys) && FiledFor(mac, more, key)
    ensures OwnersIn(more, sys[key := e])
  {
  }

  lemma {:induction false} EraseHasLess(sys: map<string, Entry>, mac: seq<Filing>, address: string)
    ensures forall f :: f in Erase(sys, mac, address) ==> f in mac
  {
    if mac != [] {
      EraseHasLess(sys, mac[1..], address);
    }
  }

  lemma ReindexMacFiles(sys: map<string, Entry>, mac: seq<Filing>, key: string, given: Option<string>)
    requires key in sys
    ensures FiledFor(mac, ReindexMac(sys, mac, key, given), key)
  {
    EraseHasLess(sys, mac, sys[key].mac);
    hide Erase, Lookup;
  }

  lemma FiledKeepsPointers(t: Tables, d: Udev)
    requires PointersOk(t)
    ensures PointersOk(Filed(t, d))
  {
    FiledKeepsIndexes(t, d);
    FiledKeepsUsbPointers(t, d);
    hide Filed, IndexesLeadIn, UsbPointersOk;
  }

  lemma InitComesFrom(t: Tables, key: string, d: Udev, n: nat)
    ensures var u := Init(t, key, d, n);
            ComesFrom(t.dev, u.dev, key) && ComesFrom(t.netif, u.netif, key) && FiledFor(t.mac, u.mac, key)
  {
    var e := Init(t, key, d, n).sys[key];
    IndexesComeFrom(t.dev, e.name, None, key);
    IndexesComeFrom(t.netif, e.name, None, key);
    hide ComesFrom, Emplace, InitEntry, HasNode, IsNetif, Lookup;
  }

  lemma SetComesFrom(t: Tables, key: string, d: Udev, n: nat)
    requires key in t.sys
    ensures var u := Set(t, key, d, n);
            ComesFrom(t.dev, u.dev, key) && ComesFrom(t.netif, u.netif, key) && FiledFor(t.mac, u.mac, key)
  {
    var was, e := t.sys[key], Set(t, key, d, n).sys[key];
    IndexesComeFrom(t.dev, was.name, d.devnode, key);
    IndexesComeFrom(t.netif, was.name, d.sysname, key);
    ReindexMacFiles(t.sys[key := was.(name := e.name)], t.mac, key, d.address);
    hide ComesFrom, Reindex, ReindexMac, SetEntry, HasNode, IsNetif;
  }

  lemma FiledKeepsIndexes(t: Tables, d: Udev)
    requires IndexesLeadIn(t)
    ensures IndexesLeadIn(Filed(t, d))
  {
    var u, key := Filed(t, d), Key(d);
    if key in t.sys && !t.sys[key].Removed() {
      SetComesFrom(t, key, d, UsbNumber(d));
    } else {
      InitComesFrom(t, key, d, UsbNumber(d));
    }
    hide InitEntry, SetEntry, HasNode, IsNetif, LeadsIn, OwnersIn, ComesFrom, FiledFor, Emplace, Reindex, ReindexMac, File, Key, UsbNumber;
    assert u.sys == t.sys[key := u.sys[key]];
    MoreLeadIn(t.dev, u.dev, t.sys, key, u.sys[key]);
    MoreLeadIn(t.netif, u.netif, t.sys, key, u.sys[key]);
    MoreOwnersIn(t.mac, u.mac, t.sys, key, u.sys[key]);
  }

  lemma FiledKeepsUsbPointers(t: Tables, d: Udev)
    requires UsbPointersOk(t)
    ensures UsbPointersOk(Filed(t, d))
  {
    hide Emplace, Reindex, ReindexMac, File, InitEntry, SetEntry, HasNode, IsNetif;
  }

  ghost predicate Within<K, V>(small: map<K, V>, large: map<K, V>) {
    forall k :: k in small ==> k in large && small[k] == large[k]
  }

  lemma LessKeepsPointers(t: Tables, u: Tables)
    requires PointersOk(t) && t.sys.Keys <= u.sys.Keys
    requires Within(u.dev, t.dev) && Within(u.netif, t.netif) && Within(u.usb, t.usb)
    requires forall f :: f in u.mac ==> f in t.mac
    ensures PointersOk(u)
  {
  }

  lemma GoneHasLess(t: Tables, key: string, d: Udev, issue: Issue)
    ensures var u := Gone(t, key, d, issue);
            && t.sys.Keys <= u.sys.Keys && Within(u.dev, t.dev) && Within(u.netif, t.netif)
            && (forall f :: f in u.mac ==> f in t.mac) && Within(u.usb, t.usb)
  {
    hide RequestChain.HandleEvent, Erase;
    if key in t.sys && !t.sys[key].Removed() {
      var v := Dispatch(t, key, d, true, issue);
      EraseHasLess(v.sys[key := v.sys[key].(name := "")], v.mac, "");
    }
  }

  lemma GoneKeepsInv(t: Tables, key: string, d: Udev, issue: Issue)
    requires Inv(t) && !t.failed
    ensures Inv(Gone(t, key, d, issue))
  {
    if key in t.sys && !t.sys[key].Removed() {
      var u := Gone(t, key, d, issue);
      GoneTouches(t, key, d, issue);
      TouchedKeepsChains(t, u, key);
      TouchedKeepsSvcdev(t, u, key);
      GoneHasLess(t, key, d, issue);
      LessKeepsPointers(t, u);
      hide Within, Gone, ChainsOk, SvcdevOk, PointersOk;
    }
  }

  lemma RemoveKeepsInv(t: Tables, d: Udev, issue: Issue)
    requires Inv(t) && !t.failed && (d.devnum in t.usb ==> t.usb[d.devnum] in t.sys)
    ensures Inv(Remove(t, d, issue))
  {
    UnplugKeeps(t, d.devnum, t.present - {d.devnum});
    var u := Unplug(t, d.devnum).(present := t.present - {d.devnum});
    GoneKeepsInv(u, d.syspath, d, issue);
    if d.devnum != 0 && d.devnum in t.usb {
      GoneKeepsInv(u, u.sys[t.usb[d.devnum]].syspath, d, issue);
    }
    hide Gone, Inv, Unplug;
  }

  lemma HandleAdded(t: Tables, u: Tables, k: string, h: Handle)
    requires SvcdevOk(t) && k in t.sys && k in u.sys && u.sys == t.sys[k := u.sys[k]] && h !in t.svcdev
    requires u.svcdev == t.svcdev[h := k] && Waits(u.sys, k) == Waits(t.sys, k) + {h}
    ensures SvcdevOk(u)
  {
    assert forall g :: g in Waits(u.sys, k) <==> g in Waits(t.sys, k) || g == h;
  }

  lemma HandleErased(t: Tables, u: Tables, k: string, h: Handle)
    requires SvcdevOk(t) && k in t.sys && k in u.sys && u.sys == t.sys[k := u.sys[k]]
    requires h in t.svcdev && t.svcdev[h] == k
    requires u.svcdev == t.svcdev - {h} && Waits(u.sys, k) == Waits(t.sys, k) - {h}
    ensures SvcdevOk(u)
  {
    assert forall g :: g in Waits(u.sys, k) <==> g in Waits(t.sys, k) && g != h;
  }

  lemma ReplyKeepsInv(t: Tables, k: string, r: RequestChain.Step)
    requires Inv(t) && Enabled(t, Reply(k, r))
    ensures Inv(Apply(t, Reply(k, r)))
  {
    ReplyEffect(t.sys[k].chain, r);
    var u := Apply(t, Reply(k, r));
    hide RequestChain.Apply, RequestChain.Reachable, RequestChain.Enabled;
    assert u.sys == t.sys[k := u.sys[k]];
    TouchedKeepsChains(t, u, k);
    if Awaits(r) {
      HandleAdded(t, u, k, r.handle);
    } else {
      TouchedKeepsSvcdev(t, u, k);
    }
    LessKeepsPointers(t, u);
    hide SvcdevOk, ChainsOk, PointersOk;
  }

  lemma ServiceEventKeepsInv(t: Tables, h: Handle, issue: Issue)
    requires Inv(t) && Enabled(t, ServiceEvent(h, issue))
    ensures Inv(Apply(t, ServiceEvent(h, issue)))
  {
    if h in t.svcdev {
      var k, r := t.svcdev[h], RequestChain.ServiceEvent(h, issue);
      ReplyEffect(t.sys[k].chain, r);
      var u := Apply(t, ServiceEvent(h, issue));
      hide RequestChain.Apply, RequestChain.Reachable, RequestChain.Enabled;
      assert u.sys == t.sys[k := u.sys[k]];
      TouchedKeepsChains(t, u, k);
      HandleErased(t, u, k, h);
      LessKeepsPointers(t, u);
      hide SvcdevOk, ChainsOk, PointersOk;
    }
  }

  lemma StepKeepsInv(t: Tables, step: Step)
    requires Inv(t) && Enabled(t, step)
    ensures Inv(Apply(t, step))
  {
    hide Inv, Add, Remove;
    match step
    case Added(d, issue) => AddKeepsInv(t, d, issue);
    case Deleted(d, issue) => RemoveKeepsInv(t, d, issue);
    case Reply(k, r) => ReplyKeepsInv(t, k, r);
    case ServiceEvent(h, issue) => ServiceEventKeepsInv(t, h, issue);
  }

  // ---- Runs.

  ghost predicate Steps(t: Tables, steps: seq<Step>, u: Tables)
    decreases |steps|
  {
    if steps == [] then t == u else Enabled(t, steps[0]) && Steps(Apply(t, steps[0]), steps[1..], u)
  }

  ghost predicate Reachable(u: Tables) {
    exists steps :: Steps(Initial, steps, u)
  }

  lemma {:induction false} StepsKeepInv(t: Tables, steps: seq<Step>, u: Tables)
    requires Inv(t) && Steps(t, steps, u)
    ensures Inv(u)
    decreases |steps|
  {
    hide Inv, Enabled, Apply;
    if steps != [] {
      StepKeepsInv(t, steps[0]);
      StepsKeepInv(Apply(t, steps[0]), steps[1..], u);
    }
  }

  lemma ReachableOk(u: Tables)
    requires Reachable(u)
    ensures Inv(u)
  {
    var steps :| Steps(Initial, steps, u);
    StepsKeepInv(Initial, steps, u);
  }

  /** Every index leads to a device, so `map_sys.at` finds what they say; the pointers in
      `map_usb` and `map_svcdev` can always be followed. */
  lemma PointersNeverDangle(u: Tables)
    requires Reachable(u) && !u.failed
    ensures LeadsIn(u.dev, u.sys) && LeadsIn(u.netif, u.sys) && OwnersIn(u.mac, u.sys)
    ensures forall n :: n in u.usb ==> u.usb[n] in u.sys
    ensures forall h, issue :: Enabled(u, ServiceEvent(h, issue))
    ensures forall d, issue :: Enabled(u, Deleted(d, issue))
  {
    ReachableOk(u);
  }

  // ---- The keys of `map_dev` and `map_netif` are views of names that change later.

  /** Every key still reads as it did when it was filed: it is the name of its device. */
  ghost predicate KeysRead(sys: map<string, Entry>, index: map<string, string>, net: bool) {
    forall n :: n in index && n != "" ==> index[n] in sys && Covered(sys[index[n]], net) && sys[index[n]].name == n
  }

  ghost predicate NameKeysOk(t: Tables) {
    KeysRead(t.sys, t.dev, false) && KeysRead(t.sys, t.netif, true) && NamelessOk(t)
  }

  /** One entry changes; what leads to it is its name. */
  ghost predicate Rekeyed(index: map<string, string>, more: map<string, string>, key: string, e: Entry, net: bool) {
    forall n :: n in more && n != "" ==>
      if more[n] == key then Covered(e, net) && e.name == n else n in index && index[n] == more[n]
  }

  lemma RekeyedReads(sys: map<string, Entry>, index: map<string, string>, more: map<string, string>, key: string, e: Entry,
                     net: bool)
    requires KeysRead(sys, index, net) && Rekeyed(index, more, key, e, net)
    ensures KeysRead(sys[key := e], more, net)
  {
  }

  lemma InitRekeys(t: Tables, d: Udev, e: Entry)
    requires NameKeysOk(t) && (Key(d) in t.sys ==> t.sys[Key(d)].Removed()) && !e.Removed()
    requires e.name == FiledEntry(t, d).name && e.subsys == FiledEntry(t, d).subsys
    ensures var u := Init(t, Key(d), d, UsbNumber(d));
            Rekeyed(t.dev, u.dev, Key(d), e, false) && Rekeyed(t.netif, u.netif, Key(d), e, true)
  {
    hide File, NamelessOk;
  }

  lemma SetRekeys(t: Tables, d: Udev, e: Entry)
    requires NameKeysOk(t) && Key(d) in t.sys && !t.sys[Key(d)].Removed() && !e.Removed()
    requires e.name == FiledEntry(t, d).name && e.subsys == FiledEntry(t, d).subsys
    ensures var u := Set(t, Key(d), d, UsbNumber(d));
            Rekeyed(t.dev, u.dev, Key(d), e, false) && Rekeyed(t.netif, u.netif, Key(d), e, true)
  {
    hide ReindexMac, NamelessOk;
  }

  ghost predicate SameFields(e: Entry, e': Entry) {
    e.name == e'.name && e.mac == e'.mac && e.subsys == e'.subsys
  }

  lemma AddIs(t: Tables, d: Udev, issue: Issue)
    requires Inv(t) && !t.failed && !(d.subsys == USB && d.ids == None)
    ensures var u, f, key := Add(t, d, issue), Filed(t, d), Key(d);
            && key in u.sys && u.sys == t.sys[key := u.sys[key]] && SameFields(u.sys[key], FiledEntry(t, d))
            && !u.sys[key].Removed() && u.mac == f.mac && u.dev == f.dev && u.netif == f.netif
  {
    FiledIs(t, d);
    AddTouches(t, d, issue);
    DispatchIs(Filed(t, d), Key(d), d, issue);
    hide Dispatch, ChainsOk, SvcdevOk, PointersOk, Touched, Waits, Filed, FiledEntry, Key;
    var u, e := Add(t, d, issue), FiledEntry(t, d);
    assert u.sys == t.sys[Key(d) := u.sys[Key(d)]];
  }

  lemma DispatchIs(t: Tables, key: string, d: Udev, issue: Issue)
    requires key in t.sys
    ensures var u := Dispatch(t, key, d, false, issue);
            && key in u.sys && u.sys == t.sys[key := u.sys[key]] && SameFields(u.sys[key], t.sys[key])
            && u.mac == t.mac && u.dev == t.dev && u.netif == t.netif
  {
    hide RequestChain.HandleEvent, Told;
  }

  lemma AddKeepsKeys(t: Tables, d: Udev, issue: Issue)
    requires Inv(t) && !t.failed && NameKeysOk(t)
    ensures NameKeysOk(Add(t, d, issue))
  {
    if !(d.subsys == USB && d.ids == None) {
      var u, key := Add(t, d, issue), Key(d);
      AddIs(t, d, issue);
      hide Add, Inv, FiledEntry, Set, Init, Rekeyed, KeysRead;
      if key in t.sys && !t.sys[key].Removed() {
        SetRekeys(t, d, u.sys[key]);
      } else {
        InitRekeys(t, d, u.sys[key]);
      }
      RekeyedReads(t.sys, t.dev, u.dev, key, u.sys[key], false);
      RekeyedReads(t.sys, t.netif, u.netif, key, u.sys[key], true);
    }
  }

  /** What `Gone` does to the names: the device loses its own, and its keys go with it. */
  lemma GoneRekeys(t: Tables, key: string, d: Udev, issue: Issue)
    requires ChainsOk(t) && !t.failed && NameKeysOk(t) && key in t.sys && !t.sys[key].Removed()
    ensures var u := Gone(t, key, d, issue);
            u.failed || (
              && u.sys == t.sys[key := u.sys[key]] && u.sys[key].Removed() && u.sys[key].name == ""
              && Rekeyed(t.dev, u.dev, key, u.sys[key], false) && Rekeyed(t.netif, u.netif, key, u.sys[key], true))
  {
    GoneTouches(t, key, d, issue);
    hide RequestChain.HandleEvent, RequestChain.Reachable, Erase, NamelessOk, ChainsOk;
  }

  lemma GoneKeepsKeys(t: Tables, key: string, d: Udev, issue: Issue)
    requires ChainsOk(t) && !t.failed && NameKeysOk(t)
    ensures Gone(t, key, d, issue).failed || NameKeysOk(Gone(t, key, d, issue))
  {
    var u := Gone(t, key, d, issue);
    if key in t.sys && !t.sys[key].Removed() && !u.failed {
      GoneRekeys(t, key, d, issue);
      hide Gone, ChainsOk, KeysRead, Rekeyed;
      RekeyedReads(t.sys, t.dev, u.dev, key, u.sys[key], false);
      RekeyedReads(t.sys, t.netif, u.netif, key, u.sys[key], true);
    }
  }

  /** One entry changes, but not its name. */
  lemma SameNameKeepsKeys(t: Tables, u: Tables, key: string)
    requires NameKeysOk(t) && key in t.sys && key in u.sys && u.sys == t.sys[key := u.sys[key]]
    requires SameFields(u.sys[key], t.sys[key]) && u.sys[key].Removed() == t.sys[key].Removed()
    requires u.dev == t.dev && u.netif == t.netif
    ensures NameKeysOk(u)
  {
  }

  lemma RemoveKeepsKeys(t: Tables, d: Udev, issue: Issue)
    requires Inv(t) && !t.failed && NameKeysOk(t) && (d.devnum in t.usb ==> t.usb[d.devnum] in t.sys)
    ensures Remove(t, d, issue).failed || NameKeysOk(Remove(t, d, issue))
  {
    var u := Unplug(t, d.devnum).(present := t.present - {d.devnum});
    UnplugKeeps(t, d.devnum, t.present - {d.devnum});
    UnplugKeepsKeys(t, d.devnum, t.present - {d.devnum});
    GoneKeepsKeys(u, d.syspath, d, issue);
    if d.devnum != 0 && d.devnum in t.usb {
      GoneKeepsKeys(u, u.sys[t.usb[d.devnum]].syspath, d, issue);
    }
    hide Gone, NameKeysOk, Unplug;
  }

  lemma UnplugKeepsKeys(t: Tables, devnum: nat, present: map<nat, string>)
    requires NameKeysOk(t) && (devnum in t.usb ==> t.usb[devnum] in t.sys)
    ensures NameKeysOk(Unplug(t, devnum).(present := present))
  {
    var u := Unplug(t, devnum).(present := present);
    if devnum != 0 && devnum in t.usb {
      assert u.sys == t.sys[t.usb[devnum] := u.sys[t.usb[devnum]]];
      hide NameKeysOk;
      SameNameKeepsKeys(t, u, t.usb[devnum]);
    }
  }

  lemma StepKeepsKeys(t: Tables, step: Step)
    requires Inv(t) && NameKeysOk(t) && Enabled(t, step)
    ensures Apply(t, step).failed || NameKeysOk(Apply(t, step))
  {
    hide NameKeysOk, Remove, Add, RequestChain.Apply, RequestChain.Reachable;
    match step
    case Added(d, issue) => AddKeepsKeys(t, d, issue);
    case Deleted(d, issue) => RemoveKeepsKeys(t, d, issue);
    case Reply(k, r) =>
      ReplyEffect(t.sys[k].chain, r);
      SameNameKeepsKeys(t, Apply(t, step), k);
    case ServiceEvent(h, issue) =>
      if h in t.svcdev {
        ReplyEffect(t.sys[t.svcdev[h]].chain, RequestChain.ServiceEvent(h, issue));
        SameNameKeepsKeys(t, Apply(t, step), t.svcdev[h]);
      }
  }

  lemma {:induction false} StepsKeepKeys(t: Tables, steps: seq<Step>, u: Tables)
    requires Inv(t) && (t.failed || NameKeysOk(t)) && Steps(t, steps, u)
    ensures Inv(u) && (u.failed || NameKeysOk(u))
    decreases |steps|
  {
    if steps != [] {
      NotFailed(t, steps[0]);
      hide Inv, NameKeysOk, Enabled, Apply;
      StepKeepsInv(t, steps[0]);
      StepKeepsKeys(t, steps[0]);
      StepsKeepKeys(Apply(t, steps[0]), steps[1..], u);
    }
  }

  /** In every reachable state each key of `map_dev` and `map_netif` is the name that its device
      has now, so these keys read what they read when they were filed, shared names or not. */
  lemma NameKeysNeverChange(u: Tables)
    requires Reachable(u) && !u.failed
    ensures forall n :: n in u.dev && n != "" ==> u.dev[n] in u.sys && u.sys[u.dev[n]].name == n
    ensures forall n :: n in u.netif && n != "" ==> u.netif[n] in u.sys && u.sys[u.netif[n]].name == n
    ensures forall n :: n in u.dev && n != "" ==> !u.sys[u.dev[n]].Removed() && u.sys[u.dev[n]].subsys != NET
    ensures forall n :: n in u.netif && n != "" ==> !u.sys[u.netif[n]].Removed() && u.sys[u.netif[n]].subsys == NET
  {
    var steps :| Steps(Initial, steps, u);
    StepsKeepKeys(Initial, steps, u);
    hide Inv, Steps, Reachable;
  }

  function HandlesOf(t: Tables, key: string): set<Handle> {
    set h | h in t.svcdev && t.svcdev[h] == key
  }

  /** In every interleaving, each device is in a state of its own chain, and its `pending_svcs`
      is the number of its outstanding service loads and of its entries in `map_svcdev`. */
  lemma EveryDeviceCounts(u: Tables, key: string)
    requires Reachable(u) && !u.failed && key in u.sys
    ensures RequestChain.Reachable(u.sys[key].chain)
    ensures u.sys[key].chain.dev.pendingSvcs
         == |RequestChain.Loads(u.sys[key].chain.calls)| + |HandlesOf(u, key)|
  {
    ReachableOk(u);
    RequestChain.CounterIsExact(u.sys[key].chain);
    assert HandlesOf(u, key) == u.sys[key].chain.waiting.Keys;
  }

  // ---- Queries, when no two live devices share a name.

  ghost predicate StepsNamed(t: Tables, steps: seq<Step>, u: Tables)
    decreases |steps|
  {
    if steps == [] then t == u
    else
      && Enabled(t, steps[0]) && (steps[0].Added? ==> FreshName(t, steps[0].device))
      && StepsNamed(Apply(t, steps[0]), steps[1..], u)
  }

  lemma RemoveKeepsNames(t: Tables, d: Udev, issue: Issue)
    requires Inv(t) && !t.failed && NamesOk(t) && (d.devnum in t.usb ==> t.usb[d.devnum] in t.sys)
    ensures Remove(t, d, issue).failed || NamesOk(Remove(t, d, issue))
  {
    var u := Unplug(t, d.devnum).(present := t.present - {d.devnum});
    UnplugKeeps(t, d.devnum, t.present - {d.devnum});
    UnplugKeepsNames(t, d.devnum, t.present - {d.devnum});
    GoneKeepsNames(u, d.syspath, d, issue);
    if d.devnum != 0 && d.devnum in t.usb {
      GoneKeepsNames(u, u.sys[t.usb[d.devnum]].syspath, d, issue);
    }
    hide Gone, NamesOk, Unplug;
  }

  lemma UnplugKeepsNames(t: Tables, devnum: nat, present: map<nat, string>)
    requires NamesOk(t) && (devnum in t.usb ==> t.usb[devnum] in t.sys)
    ensures NamesOk(Unplug(t, devnum).(present := present))
  {
    var u := Unplug(t, devnum).(present := present);
    hide NamesOk;
    if devnum != 0 && devnum in t.usb {
      SameNameKeepsNames(t, u, t.usb[devnum]);
    } else {
      SameTablesSameNames(t, u);
    }
  }

  lemma StepKeepsNames(t: Tables, step: Step)
    requires Inv(t) && !t.failed && NamesOk(t) && Enabled(t, step)
    requires step.Added? ==> FreshName(t, step.device)
    ensures Apply(t, step).failed || NamesOk(Apply(t, step))
  {
    hide NamesOk, FreshName, Remove, Add, RequestChain.Apply, RequestChain.Reachable;
    match step
    case Added(d, issue) => AddKeepsNames(t, d, issue);
    case Deleted(d, issue) => RemoveKeepsNames(t, d, issue);
    case Reply(k, r) =>
      ReplyEffect(t.sys[k].chain, r);
      ReplyKeepsNames(t, Apply(t, step), k, RequestChain.Apply(t.sys[k].chain, r));
    case ServiceEvent(h, issue) =>
      if h in t.svcdev {
        var k, r := t.svcdev[h], RequestChain.ServiceEvent(h, issue);
        ReplyEffect(t.sys[k].chain, r);
        ReplyKeepsNames(t, Apply(t, step), k, RequestChain.Apply(t.sys[k].chain, r));
      }
  }

  lemma {:induction false} StepsKeepNames(t: Tables, steps: seq<Step>, u: Tables)
    requires Inv(t) && (t.failed || NamesOk(t)) && StepsNamed(t, steps, u)
    ensures Inv(u) && (u.failed || NamesOk(u))
    decreases |steps|
  {
    if steps != [] {
      NotFailed(t, steps[0]);
      hide Inv, NamesOk, Enabled, Apply, FreshName;
      StepKeepsInv(t, steps[0]);
      StepKeepsNames(t, steps[0]);
      StepsKeepNames(Apply(t, steps[0]), steps[1..], u);
    }
  }

  lemma NotFailed(t: Tables, step: Step)
    requires Enabled(t, step)
    ensures !t.failed
  {
  }

  /** What a client asks for; `resolved` is where its path leads if it is a symbolic link. */
  datatype Query = Node(name: string, resolved: Option<string>) | Path(name: string) | Netif(name: string) | Mac(name: string)

  /** The device that a query finds through the indexes. */
  function FindDevice(t: Tables, q: Query): Option<string> {
    match q
    case Node(n, resolved) =>
      if n in t.dev then Some(t.dev[n])
      else if resolved.Some? && resolved.value in t.dev then Some(t.dev[resolved.value]) else None
    case Path(n) => if n in t.sys then Some(n) else None
    case Netif(n) => if n in t.netif then Some(t.netif[n]) else None
    case Mac(n) => Lookup(t.sys, t.mac, n)
  }

  /** The byte that the client gets. */
  function Answer(t: Tables, q: Query): bool
    requires FindDevice(t, q).Some? ==> FindDevice(t, q).value in t.sys
  {
    FindDevice(t, q).Some? && !t.sys[FindDevice(t, q).value].Removed() && !t.sys[FindDevice(t, q).value].Processing()
  }

  /** Some live device has this node. */
  ghost predicate NodeTaken(t: Tables, n: string) {
    exists k :: k in t.sys && Covered(t.sys[k], false) && t.sys[k].name == n
  }

  /** The device is the one asked for, by its own fields. */
  ghost predicate Matches(t: Tables, q: Query, e: Entry) {
    match q
    case Node(n, resolved) =>
      Covered(e, false) && (e.name == n || (!NodeTaken(t, n) && resolved == Some(e.name)))
    case Path(n) => e.syspath == n
    case Netif(n) => Covered(e, true) && e.name == n
    case Mac(_) => false
  }

  /** The answer to a query by node, interface, system path or USB id is 1 exactly when a scan
      of all devices finds a matching one that is neither removed nor processing. */
  lemma AnswerIsScan(steps: seq<Step>, t: Tables, q: Query)
    requires StepsNamed(Initial, steps, t) && !t.failed && !q.Mac?
    ensures FindDevice(t, q).Some? ==> FindDevice(t, q).value in t.sys
    ensures Answer(t, q)
       <==> exists k :: k in t.sys && Matches(t, q, t.sys[k]) && !t.sys[k].Removed() && !t.sys[k].Processing()
  {
    StepsKeepNames(Initial, steps, t);
    hide RequestChain.Reachable, SvcdevOk, PointersOk;
    ScanFinds(t, q);
  }

  lemma ScanFinds(t: Tables, q: Query)
    requires ChainsOk(t) && NamesOk(t) && !q.Mac?
    ensures FindDevice(t, q).Some? ==> FindDevice(t, q).value in t.sys
    ensures Answer(t, q)
       <==> exists k :: k in t.sys && Matches(t, q, t.sys[k]) && !t.sys[k].Removed() && !t.sys[k].Processing()
  {
    hide ChainOk;
    match q
    case Node(n, resolved) =>
      assert NodeTaken(t, n) <==> n in t.dev;
    case _ =>
  }
}
