/** What the clients of the device monitor are told over whole runs (early/helpers/devmon.cc):
    clients that ask by system path or USB id, and clients that ask by node or interface name. */
module MonitorClients {
  import opened Text
  import opened DeviceIndex
  import opened MonitorProofs
  import opened MonitorRuns
  import RequestChain

  /** The last byte that a client was sent. */
  function LastTold(sent: seq<Message>, c: Client): Option<bool> {
    if sent == [] then None
    else if sent[|sent| - 1].to == c then Some(sent[|sent| - 1].there)
    else LastTold(sent[..|sent| - 1], c)
  }

  lemma {:induction false} LastToldAppend(a: seq<Message>, b: seq<Message>, c: Client)
    ensures LastTold(a + b, c) == if LastTold(b, c).Some? then LastTold(b, c) else LastTold(a, c)
    decreases |b|
  {
    if b == [] {
      assert a + b == a;
    } else {
      assert (a + b)[..|a + b| - 1] == a + b[..|b| - 1];
      LastToldAppend(a, b[..|b| - 1], c);
    }
  }

  ghost predicate Avoids(b: seq<Message>, c: Client) {
    forall i :: 0 <= i < |b| ==> b[i].to != c
  }

  lemma {:induction false} AvoidsTellsNothing(a: seq<Message>, b: seq<Message>, c: Client)
    requires Avoids(b, c)
    ensures LastTold(a + b, c) == LastTold(a, c)
    decreases |b|
  {
    if b == [] {
      assert a + b == a;
    } else {
      assert (a + b)[..|a + b| - 1] == a + b[..|b| - 1];
      AvoidsTellsNothing(a, b[..|b| - 1], c);
    }
  }

  function NameClient(net: bool, name: string): Client {
    if net then ByNetif(name) else ByNode(name)
  }

  function PathClient(usb: bool, key: string): Client {
    if usb then ByUsb(key) else ByPath(key)
  }

  /** `ready` tells each of the device's clients once. */
  lemma ReadyTells(a: seq<Message>, e: Entry, there: bool)
    ensures LastTold(a + Ready(e, there), PathClient(e.subsys == USB, e.syspath)) == Some(there)
    ensures e.subsys != USB && e.name != "" ==> LastTold(a + Ready(e, there), NameClient(e.subsys == NET, e.name)) == Some(there)
  {
    var r := Ready(e, there);
    var path, name := PathClient(e.subsys == USB, e.syspath), NameClient(e.subsys == NET, e.name);
    LastToldAppend(a, r, path);
    LastToldAppend(a, r, name);
    ReadyItself(e, there);
  }

  lemma {:induction false} SameByteTells(b: seq<Message>, c: Client, there: bool)
    requires forall i :: 0 <= i < |b| ==> b[i].there == there
    requires !Avoids(b, c)
    ensures LastTold(b, c) == Some(there)
  {
    if b[|b| - 1].to != c {
      var rest := b[..|b| - 1];
      var i :| 0 <= i < |b| && b[i].to == c;
      assert rest[i].to == c;
      SameByteTells(rest, c, there);
    }
  }

  lemma ReadyItself(e: Entry, there: bool)
    ensures LastTold(Ready(e, there), PathClient(e.subsys == USB, e.syspath)) == Some(there)
    ensures e.subsys != USB && e.name != "" ==> LastTold(Ready(e, there), NameClient(e.subsys == NET, e.name)) == Some(there)
  {
    var r := Ready(e, there);
    assert r[0].to == PathClient(e.subsys == USB, e.syspath);
    SameByteTells(r, PathClient(e.subsys == USB, e.syspath), there);
    if e.subsys != USB && e.name != "" {
      assert r[1].to == NameClient(e.subsys == NET, e.name);
      SameByteTells(r, NameClient(e.subsys == NET, e.name), there);
    }
  }

  /** `ready` tells the clients by path or id, those by name if the device has one, and those by
      address if it is an interface that has one; all the same, and nobody else. */
  lemma ReadyTellsJust(a: seq<Message>, e: Entry, there: bool, c: Client)
    ensures var r := Ready(e, there);
            && (Avoids(r, c) <==> !(|| c == PathClient(e.subsys == USB, e.syspath)
                                    || (e.subsys != USB && e.name != "" && c == NameClient(e.subsys == NET, e.name))
                                    || (e.subsys == NET && e.mac != "" && c == ByAddress(e.mac))))
            && LastTold(a + r, c) == if Avoids(r, c) then LastTold(a, c) else Some(there)
  {
    var r := Ready(e, there);
    assert r[0].to == PathClient(e.subsys == USB, e.syspath);
    assert e.subsys != USB && e.name != "" ==> r[1].to == NameClient(e.subsys == NET, e.name);
    assert e.subsys == NET && e.mac != "" ==> r[|r| - 1].to == ByAddress(e.mac);
    if Avoids(r, c) {
      AvoidsTellsNothing(a, r, c);
    } else {
      SameByteTells(r, c, there);
      LastToldAppend(a, r, c);
    }
  }

  // ---- Clients by path.

  function LastSignal(s: RequestChain.State): Option<bool> {
    if s.signals == [] then None else Some(Last(s.signals))
  }

  /** A path or id is told what `ready` is called with for its device. */
  ghost predicate PathTold(t: Tables, key: string, usb: bool) {
    LastTold(t.sent, PathClient(usb, key))
    == if key in t.sys && (t.sys[key].subsys == USB) == usb then LastSignal(t.sys[key].chain) else None
  }

  ghost predicate PathsTold(t: Tables) {
    && (forall key, usb :: PathTold(t, key, usb))
    && (forall key :: key in t.sys ==> t.sys[key].chain.signals != [])
  }

  /** A path belongs to the same kind of device for good: ids are not system paths. */
  predicate KeepsKind(t: Tables, d: Udev) {
    Key(d) in t.sys ==> (t.sys[Key(d)].subsys == USB <==> d.subsys == USB)
  }

  /** The chain of one entry went on, and its clients were told. */
  ghost predicate Tells(t: Tables, u: Tables, key: string, pre: seq<Message>, e: Entry, chain: RequestChain.State) {
    && key in u.sys && u.sys == t.sys[key := u.sys[key]] && u.sys[key].chain == chain && u.sys[key].subsys == e.subsys
    && e.syspath == key && e.chain == (if key in t.sys then t.sys[key].chain else RequestChain.Initial)
    && (chain.signals == e.chain.signals
        || (chain.signals != [] && chain.signals == e.chain.signals + [Last(chain.signals)]))
    && (key !in t.sys ==> chain.signals != [])
    && u.sent == t.sent + pre + Told(e, chain)
  }

  ghost predicate NoPaths(pre: seq<Message>) {
    forall i :: 0 <= i < |pre| ==> !pre[i].to.ByPath? && !pre[i].to.ByUsb?
  }

  lemma ToldAvoidsOtherPaths(e: Entry, chain: RequestChain.State, key: string, usb: bool)
    requires key != e.syspath || usb != (e.subsys == USB)
    ensures Avoids(Told(e, chain), PathClient(usb, key))
  {
  }

  lemma TellsKeepsPaths(t: Tables, u: Tables, key: string, pre: seq<Message>, e: Entry, chain: RequestChain.State)
    requires PathsTold(t) && Tells(t, u, key, pre, e, chain) && NoPaths(pre)
    requires key in t.sys ==> (t.sys[key].subsys == USB) == (e.subsys == USB)
    ensures PathsTold(u)
  {
    forall k, usb
      ensures PathTold(u, k, usb)
    {
      assert PathTold(t, k, usb);
      var c := PathClient(usb, k);
      AvoidsTellsNothing(t.sent, pre, c);
      if k == key && usb == (e.subsys == USB) {
        if chain.signals != e.chain.signals {
          ReadyTells(t.sent + pre, e, Last(chain.signals));
        } else {
          assert t.sent + pre + [] == t.sent + pre;
        }
      } else {
        ToldAvoidsOtherPaths(e, chain, k, usb);
        AvoidsTellsNothing(t.sent + pre, Told(e, chain), c);
      }
    }
  }

  // ---- What each step sends.

  /** The bytes sent because an event changes the name or address of a device that is there. */
  function Renames(t: Tables, d: Udev): seq<Message> {
    if Key(d) !in t.sys || t.sys[Key(d)].Removed() || UsbNumber(d) != 0 then []
    else
      var was := t.sys[Key(d)];
      if was.subsys != NET then Renamed(ByNode(was.name), was.name, d.devnode)
      else Renamed(ByNetif(was.name), was.name, d.sysname) + Renamed(ByAddress(was.mac), was.mac, d.address)
  }

  lemma FiledSends(t: Tables, d: Udev)
    ensures Filed(t, d).sent == t.sent + Renames(t, d)
  {
    if Key(d) in t.sys && !t.sys[Key(d)].Removed() {
      SetSends(t, d);
    } else {
      InitIs(t, Key(d), d, UsbNumber(d));
      assert t.sent + [] == t.sent;
    }
    hide Set, Init, Key, UsbNumber;
  }

  lemma SetSends(t: Tables, d: Udev)
    requires Key(d) in t.sys && !t.sys[Key(d)].Removed()
    ensures Set(t, Key(d), d, UsbNumber(d)).sent == t.sent + Renames(t, d)
  {
    hide Emplace, Reindex, ReindexMac, Renamed, Key, UsbNumber;
  }

  lemma RenamesNoPaths(t: Tables, d: Udev)
    ensures NoPaths(Renames(t, d))
  {
  }

  /** The chain of the device after the event. */
  function ChainAfter(e: Entry, removed: bool, d: Udev, issue: Issue): RequestChain.State {
    RequestChain.HandleEvent(e.chain, removed, d.tag, d.services, issue)
  }

  lemma AddTells(t: Tables, d: Udev, issue: Issue)
    requires ChainsOk(t) && !t.failed && !(d.subsys == USB && d.ids == None)
    ensures var u, e := Add(t, d, issue), Filed(t, d).sys[Key(d)];
            u.failed || Tells(t, u, Key(d), Renames(t, d), e, ChainAfter(e, false, d, issue))
  {
    FreshChainReachable();
    FiledFacts(t, d);
    FiledSends(t, d);
    var e := Filed(t, d).sys[Key(d)];
    RequestChain.EventSignals(e.chain, false, d.tag, d.services, issue);
    AddIs(t, d, issue);
    hide Add, Filed, Renames, Told, RequestChain.HandleEvent, RequestChain.Reachable, ChainsOk;
  }

  lemma AddIs(t: Tables, d: Udev, issue: Issue)
    requires !(d.subsys == USB && d.ids == None)
    ensures var u, f := Add(t, d, issue), Filed(t, d);
            var chain := ChainAfter(f.sys[Key(d)], false, d, issue);
            && u.sys == f.sys[Key(d) := f.sys[Key(d)].(chain := chain)] && u.failed == chain.aborted
            && u.sent == f.sent + Told(f.sys[Key(d)], chain)
  {
    hide RequestChain.HandleEvent, Told, Filed;
  }

  /** The parts of `Gone` that its clients see. */
  lemma GoneIs(t: Tables, key: string, d: Udev, issue: Issue)
    requires key in t.sys && !t.sys[key].Removed()
    ensures var u, chain := Gone(t, key, d, issue), ChainAfter(t.sys[key], true, d, issue);
            && key in u.sys && u.sys == t.sys[key := u.sys[key]] && u.sys[key].chain == chain
            && u.sys[key].subsys == t.sys[key].subsys && u.failed == chain.aborted
            && u.sent == t.sent + Told(t.sys[key], chain)
  {
    hide RequestChain.HandleEvent, Told;
  }

  lemma GoneTells(t: Tables, key: string, d: Udev, issue: Issue)
    requires ChainsOk(t) && !t.failed && key in t.sys && !t.sys[key].Removed()
    ensures var u := Gone(t, key, d, issue);
            u.failed || Tells(t, u, key, [], t.sys[key], ChainAfter(t.sys[key], true, d, issue))
  {
    var e := t.sys[key];
    RequestChain.EventSignals(e.chain, true, d.tag, d.services, issue);
    GoneIs(t, key, d, issue);
    hide Told, Gone, RequestChain.HandleEvent, RequestChain.Reachable;
    assert t.sent + [] == t.sent;
  }

  lemma ReplyTells(t: Tables, u: Tables, key: string, r: RequestChain.Step)
    requires ChainsOk(t) && key in t.sys && RequestChain.Enabled(t.sys[key].chain, r) && !r.Udev?
    requires var chain := RequestChain.Apply(t.sys[key].chain, r);
             u.sys == t.sys[key := t.sys[key].(chain := chain)] && u.sent == t.sent + Told(t.sys[key], chain)
             && u.failed == chain.aborted
    ensures u.failed || Tells(t, u, key, [], t.sys[key], RequestChain.Apply(t.sys[key].chain, r))
  {
    RequestChain.ReplySignals(t.sys[key].chain, r);
    hide Told, RequestChain.Apply, RequestChain.Enabled, RequestChain.Reachable;
    assert t.sent + [] == t.sent;
  }

  lemma UnplugSendsNothing(t: Tables, devnum: nat, present: map<nat, string>)
    requires PathsTold(t) && (devnum in t.usb ==> t.usb[devnum] in t.sys)
    ensures PathsTold(Unplug(t, devnum).(present := present))
  {
    var u := Unplug(t, devnum).(present := present);
    forall k, usb
      ensures PathTold(u, k, usb)
    {
      assert PathTold(t, k, usb);
    }
  }

  lemma GoneKeepsPaths(t: Tables, key: string, d: Udev, issue: Issue)
    requires ChainsOk(t) && !t.failed && PathsTold(t)
    ensures Gone(t, key, d, issue).failed || PathsTold(Gone(t, key, d, issue))
  {
    if key in t.sys && !t.sys[key].Removed() {
      GoneTells(t, key, d, issue);
      var u := Gone(t, key, d, issue);
      hide Gone, ChainAfter, PathsTold;
      if !u.failed {
        TellsKeepsPaths(t, u, key, [], t.sys[key], ChainAfter(t.sys[key], true, d, issue));
      }
    }
  }

  lemma RemoveKeepsPaths(t: Tables, d: Udev, issue: Issue)
    requires Inv(t) && !t.failed && PathsTold(t) && (d.devnum in t.usb ==> t.usb[d.devnum] in t.sys)
    ensures Remove(t, d, issue).failed || PathsTold(Remove(t, d, issue))
  {
    var u := Unplug(t, d.devnum).(present := t.present - {d.devnum});
    UnplugKeeps(t, d.devnum, t.present - {d.devnum});
    UnplugSendsNothing(t, d.devnum, t.present - {d.devnum});
    GoneKeepsPaths(u, d.syspath, d, issue);
    if d.devnum != 0 && d.devnum in t.usb {
      GoneKeepsPaths(u, u.sys[t.usb[d.devnum]].syspath, d, issue);
    }
    hide Gone, PathsTold, Unplug;
  }

  lemma AddKeepsPaths(t: Tables, d: Udev, issue: Issue)
    requires Inv(t) && !t.failed && PathsTold(t) && KeepsKind(t, d)
    ensures Add(t, d, issue).failed || PathsTold(Add(t, d, issue))
  {
    if !(d.subsys == USB && d.ids == None) {
      AddTells(t, d, issue);
      RenamesNoPaths(t, d);
      FiledKind(t, d);
      var u, e := Add(t, d, issue), Filed(t, d).sys[Key(d)];
      hide Add, Filed, ChainAfter, PathsTold, Renames;
      if !u.failed {
        TellsKeepsPaths(t, u, Key(d), Renames(t, d), e, ChainAfter(e, false, d, issue));
      }
    }
  }

  lemma FiledKind(t: Tables, d: Udev)
    requires KeepsKind(t, d)
    ensures Key(d) in t.sys ==> (t.sys[Key(d)].subsys == USB) == (Filed(t, d).sys[Key(d)].subsys == USB)
  {
    hide Filed;
    FiledIs(t, d);
  }

  lemma StepKeepsPaths(t: Tables, step: Step)
    requires Inv(t) && PathsTold(t) && Enabled(t, step) && (step.Added? ==> KeepsKind(t, step.device))
    ensures Apply(t, step).failed || PathsTold(Apply(t, step))
  {
    var u := Apply(t, step);
    hide PathsTold, Add, Remove, RequestChain.Apply, RequestChain.Reachable, RequestChain.Enabled;
    match step
    case Added(d, issue) => AddKeepsPaths(t, d, issue);
    case Deleted(d, issue) => RemoveKeepsPaths(t, d, issue);
    case Reply(k, r) =>
      ReplyTells(t, u, k, r);
      if !u.failed {
        TellsKeepsPaths(t, u, k, [], t.sys[k], RequestChain.Apply(t.sys[k].chain, r));
      }
    case ServiceEvent(h, issue) =>
      if h in t.svcdev {
        var k, r := t.svcdev[h], RequestChain.ServiceEvent(h, issue);
        ReplyTells(t, u, k, r);
        if !u.failed {
          TellsKeepsPaths(t, u, k, [], t.sys[k], RequestChain.Apply(t.sys[k].chain, r));
        }
      }
  }

  // ---- Clients by node or interface name.

  /** The clients by name of a device that is there and at rest were last told so. */
  ghost predicate NameTold(t: Tables, key: string, net: bool) {
    key in t.sys && Covered(t.sys[key], net) && t.sys[key].subsys != USB && !t.sys[key].Processing()
    ==> LastTold(t.sent, NameClient(net, t.sys[key].name)) == Some(true)
  }

  ghost predicate NamesTold(t: Tables) {
    forall key, net :: NameTold(t, key, net)
  }

  ghost predicate Has(t: Tables, key: string, net: bool, name: string) {
    key in t.sys && Covered(t.sys[key], net) && t.sys[key].name == name
  }

  lemma NameIsUnique(t: Tables, j: string, k: string, net: bool, name: string)
    requires NamesOk(t) && Has(t, j, net, name) && Has(t, k, net, name)
    ensures j == k
  {
  }

  /** Bytes by name are for a name that the device had before. */
  ghost predicate OwnNames(t: Tables, key: string, pre: seq<Message>) {
    forall i, net, name :: 0 <= i < |pre| && pre[i].to == NameClient(net, name) && name != "" ==> Has(t, key, net, name)
  }

  /** The name under which `ready` is called is one the device has before or after the step. */
  ghost predicate OwnName(t: Tables, u: Tables, key: string, e: Entry) {
    e.name == "" || e.subsys == USB || Has(t, key, e.subsys == NET, e.name) || Has(u, key, e.subsys == NET, e.name)
  }

  lemma ToldAvoidsOtherNames(e: Entry, chain: RequestChain.State, net: bool, name: string)
    requires name != "" && (e.subsys == USB || e.name != name || net != (e.subsys == NET))
    ensures Avoids(Told(e, chain), NameClient(net, name))
  {
  }

  lemma OthersKeepName(t: Tables, u: Tables, key: string, pre: seq<Message>, e: Entry, chain: RequestChain.State,
                       j: string, net: bool)
    requires NamesOk(t) && NamesOk(u) && Tells(t, u, key, pre, e, chain)
    requires OwnNames(t, key, pre) && OwnName(t, u, key, e)
    requires j != key && j in t.sys && Covered(t.sys[j], net)
    ensures LastTold(u.sent, NameClient(net, t.sys[j].name)) == LastTold(t.sent, NameClient(net, t.sys[j].name))
  {
    hide NamesOk;
    var name := t.sys[j].name;
    assert Has(t, j, net, name) && Has(u, j, net, name);
    if Has(t, key, net, name) {
      NameIsUnique(t, j, key, net, name);
    }
    if Has(u, key, net, name) {
      NameIsUnique(u, j, key, net, name);
    }
    AvoidsTellsNothing(t.sent, pre, NameClient(net, name));
    ToldAvoidsOtherNames(e, chain, net, name);
    AvoidsTellsNothing(t.sent + pre, Told(e, chain), NameClient(net, name));
  }

  lemma TellsKeepsNames(t: Tables, u: Tables, key: string, pre: seq<Message>, e: Entry, chain: RequestChain.State)
    requires NamesOk(t) && NamesOk(u) && NamesTold(t) && Tells(t, u, key, pre, e, chain)
    requires OwnNames(t, key, pre) && OwnName(t, u, key, e)
    requires u.sys[key].name == e.name || u.sys[key].name == ""
    requires !chain.dev.processing && !chain.dev.removed ==> chain.signals == e.chain.signals + [true]
    ensures NamesTold(u)
  {
    forall j, net
      ensures NameTold(u, j, net)
    {
      if j == key {
        if Covered(u.sys[key], net) && e.subsys != USB && !chain.dev.processing {
          ReadyTells(t.sent + pre, e, true);
        }
      } else if j in t.sys && Covered(t.sys[j], net) {
        assert NameTold(t, j, net);
        hide Tells;
        OthersKeepName(t, u, key, pre, e, chain, j, net);
      }
    }
  }

  lemma RenamesOwn(t: Tables, d: Udev)
    ensures OwnNames(t, Key(d), Renames(t, d))
  {
  }

  lemma AddKeepsNamesTold(t: Tables, d: Udev, issue: Issue)
    requires Inv(t) && !t.failed && NamesOk(t) && FreshName(t, d) && NamesTold(t)
    ensures Add(t, d, issue).failed || NamesTold(Add(t, d, issue))
  {
    if !(d.subsys == USB && d.ids == None) {
      AddTells(t, d, issue);
      AddKeepsNames(t, d, issue);
      RenamesOwn(t, d);
      FiledFacts(t, d);
      FreshChainReachable();
      var u, e := Add(t, d, issue), Filed(t, d).sys[Key(d)];
      var chain := ChainAfter(e, false, d, issue);
      EventEffect(e.chain, false, d.tag, d.services, issue);
      RequestChain.EventSignals(e.chain, false, d.tag, d.services, issue);
      assert u.sys[Key(d)] == e.(chain := chain);
      hide Filed, Add, Renames, NamesOk, FreshName, NamesTold, RequestChain.HandleEvent, RequestChain.Reachable;
      if !u.failed {
        TellsKeepsNames(t, u, Key(d), Renames(t, d), e, chain);
      }
    }
  }

  lemma GoneKeepsNamesTold(t: Tables, key: string, d: Udev, issue: Issue)
    requires ChainsOk(t) && !t.failed && NamesOk(t) && NamesTold(t)
    ensures Gone(t, key, d, issue).failed || NamesTold(Gone(t, key, d, issue))
  {
    if key in t.sys && !t.sys[key].Removed() {
      var u, e := Gone(t, key, d, issue), t.sys[key];
      GoneTells(t, key, d, issue);
      GoneKeepsNames(t, key, d, issue);
      EventEffect(e.chain, true, d.tag, d.services, issue);
      assert e.name != "" ==> Has(t, key, e.subsys == NET, e.name);
      assert u.failed || (u.sys[key].name == "" && u.sys[key].chain == ChainAfter(e, true, d, issue)) by {
        hide RequestChain.HandleEvent;
      }
      hide Gone, NamesOk, NamesTold, RequestChain.HandleEvent, RequestChain.Reachable;
      if !u.failed {
        TellsKeepsNames(t, u, key, [], e, ChainAfter(e, true, d, issue));
      }
    }
  }

  lemma UnplugKeepsNamesTold(t: Tables, devnum: nat, present: map<nat, string>)
    requires NamesTold(t) && (devnum in t.usb ==> t.usb[devnum] in t.sys)
    ensures NamesTold(Unplug(t, devnum).(present := present))
  {
    var u := Unplug(t, devnum).(present := present);
    forall k, net
      ensures NameTold(u, k, net)
    {
      assert NameTold(t, k, net);
    }
  }

  lemma RemoveKeepsNamesTold(t: Tables, d: Udev, issue: Issue)
    requires Inv(t) && !t.failed && NamesOk(t) && NamesTold(t) && (d.devnum in t.usb ==> t.usb[d.devnum] in t.sys)
    ensures Remove(t, d, issue).failed || NamesTold(Remove(t, d, issue))
  {
    var u := Unplug(t, d.devnum).(present := t.present - {d.devnum});
    UnplugKeeps(t, d.devnum, t.present - {d.devnum});
    UnplugKeepsNames(t, d.devnum, t.present - {d.devnum});
    UnplugKeepsNamesTold(t, d.devnum, t.present - {d.devnum});
    GoneKeepsNamesTold(u, d.syspath, d, issue);
    if d.devnum != 0 && d.devnum in t.usb {
      GoneKeepsNamesTold(u, u.sys[t.usb[d.devnum]].syspath, d, issue);
    }
    hide Gone, NamesTold, NamesOk, Unplug;
  }

  lemma ReplyKeepsNamesTold(t: Tables, u: Tables, key: string, r: RequestChain.Step)
    requires ChainsOk(t) && NamesOk(t) && NamesOk(u) && NamesTold(t)
    requires key in t.sys && RequestChain.Enabled(t.sys[key].chain, r) && !r.Udev?
    requires var chain := RequestChain.Apply(t.sys[key].chain, r);
             u.sys == t.sys[key := t.sys[key].(chain := chain)] && u.sent == t.sent + Told(t.sys[key], chain)
             && u.failed == chain.aborted
    ensures u.failed || NamesTold(u)
  {
    var e := t.sys[key];
    ReplyTells(t, u, key, r);
    ReplyEffect(e.chain, r);
    RequestChain.ReplySignals(e.chain, r);
    assert e.name != "" && !e.Removed() ==> Has(t, key, e.subsys == NET, e.name);
    hide RequestChain.Apply, RequestChain.Reachable, RequestChain.Enabled, NamesTold, Told;
    if !u.failed {
      assert e.Removed() ==> e.name == "";
      TellsKeepsNames(t, u, key, [], e, RequestChain.Apply(e.chain, r));
    }
  }

  lemma StepKeepsNamesTold(t: Tables, step: Step)
    requires Inv(t) && NamesOk(t) && NamesTold(t) && Enabled(t, step) && (step.Added? ==> FreshName(t, step.device))
    ensures Apply(t, step).failed || NamesTold(Apply(t, step))
  {
    var u := Apply(t, step);
    hide NamesTold, NamesOk, FreshName, Add, Remove, RequestChain.Apply, RequestChain.Reachable, RequestChain.Enabled;
    StepKeepsNames(t, step);
    match step
    case Added(d, issue) => AddKeepsNamesTold(t, d, issue);
    case Deleted(d, issue) => RemoveKeepsNamesTold(t, d, issue);
    case Reply(k, r) =>
      if !u.failed {
        ReplyKeepsNamesTold(t, u, k, r);
      }
    case ServiceEvent(h, issue) =>
      if h in t.svcdev && !u.failed {
        ReplyKeepsNamesTold(t, u, t.svcdev[h], RequestChain.ServiceEvent(h, issue));
      }
  }

  // ---- Runs.

  /** Runs in which no path changes its kind. */
  ghost predicate StepsKind(t: Tables, steps: seq<Step>, u: Tables)
    decreases |steps|
  {
    if steps == [] then t == u
    else
      && Enabled(t, steps[0]) && (steps[0].Added? ==> KeepsKind(t, steps[0].device))
      && StepsKind(Apply(t, steps[0]), steps[1..], u)
  }

  lemma {:induction false} StepsKeepPaths(t: Tables, steps: seq<Step>, u: Tables)
    requires Inv(t) && (t.failed || PathsTold(t)) && StepsKind(t, steps, u)
    ensures Inv(u) && (u.failed || PathsTold(u))
    decreases |steps|
  {
    if steps != [] {
      NotFailed(t, steps[0]);
      hide Inv, PathsTold, Enabled, Apply;
      StepKeepsInv(t, steps[0]);
      StepKeepsPaths(t, steps[0]);
      StepsKeepPaths(Apply(t, steps[0]), steps[1..], u);
    }
  }

  lemma {:induction false} StepsKeepNamesTold(t: Tables, steps: seq<Step>, u: Tables)
    requires Inv(t) && (t.failed || (NamesOk(t) && NamesTold(t))) && StepsNamed(t, steps, u)
    ensures Inv(u) && (u.failed || (NamesOk(u) && NamesTold(u)))
    decreases |steps|
  {
    if steps != [] {
      NotFailed(t, steps[0]);
      hide Inv, NamesOk, NamesTold, Enabled, Apply, FreshName;
      StepKeepsInv(t, steps[0]);
      StepKeepsNames(t, steps[0]);
      StepKeepsNamesTold(t, steps[0]);
      StepsKeepNamesTold(Apply(t, steps[0]), steps[1..], u);
    }
  }

  /** Clients by system path or USB id of a device at rest were last told whether it is there. */
  lemma PathClientsUpToDate(steps: seq<Step>, t: Tables, key: string)
    requires StepsKind(Initial, steps, t) && !t.failed && key in t.sys && !t.sys[key].Processing()
    ensures var told := LastTold(t.sent, PathClient(t.sys[key].subsys == USB, key));
            told == Some(!t.sys[key].Removed())
  {
    InitialPaths();
    StepsKeepPaths(Initial, steps, t);
    var e := t.sys[key];
    assert PathTold(t, key, e.subsys == USB);
    RequestChain.RestMeansUpToDate(e.chain);
    hide PathsTold, SvcdevOk, PointersOk;
  }

  lemma InitialPaths()
    ensures Inv(Initial) && PathsTold(Initial)
  {
    forall key, usb
      ensures PathTold(Initial, key, usb)
    {
    }
  }

  /** Clients by node or interface name of a device that is there and at rest were last told so. */
  lemma NameClientsUpToDate(steps: seq<Step>, t: Tables, key: string)
    requires StepsNamed(Initial, steps, t) && !t.failed && key in t.sys
    requires t.sys[key].name != "" && t.sys[key].subsys != USB && !t.sys[key].Removed() && !t.sys[key].Processing()
    ensures LastTold(t.sent, NameClient(t.sys[key].subsys == NET, t.sys[key].name)) == Some(true)
  {
    StepsKeepNamesTold(Initial, steps, t);
    assert NameTold(t, key, t.sys[key].subsys == NET);
  }

  // ---- What the removal of a device tells clients by its name, and what they are told after it.

  /** A removal tells clients by name that the device is gone exactly when it was never tagged;
      otherwise it tells them that it is there, when the device was at rest, or nothing, when it
      was in a chain. (The name is cleared before the chain ends.) */
  lemma RemovalToldByNameIff(t: Tables, d: Udev, issue: Issue)
    requires Inv(t) && (d.devnum == 0 || d.devnum !in t.usb) && Enabled(t, Deleted(d, issue))
    requires d.syspath in t.sys && !t.sys[d.syspath].Removed() && !Apply(t, Deleted(d, issue)).failed
    requires t.sys[d.syspath].name != "" && t.sys[d.syspath].subsys != USB
    ensures var e, u := t.sys[d.syspath], Apply(t, Deleted(d, issue));
            var c := NameClient(e.subsys == NET, e.name);
            && (LastTold(u.sent, c) == Some(false)
                <==> (!e.chain.dev.hasTag && !d.tag) || (e.Processing() && LastTold(t.sent, c) == Some(false)))
            && (e.Processing() ==> LastTold(u.sent, c) == LastTold(t.sent, c))
            && (!e.Processing() ==> LastTold(u.sent, c) == Some(e.chain.dev.hasTag || d.tag))
  {
    var v := t.(present := t.present - {d.devnum});
    UnplugKeeps(t, d.devnum, t.present - {d.devnum});
    hide Gone, Inv, LastTold;
    GoneToldByNameIff(v, d.syspath, d, issue);
  }

  /** A device that is there changes its name or its address: clients by the old one are told that
      it is gone. */
  lemma RenamedIsToldGone(t: Tables, d: Udev, issue: Issue)
    requires Inv(t) && !t.failed && Key(d) in t.sys && !t.sys[Key(d)].Removed() && t.sys[Key(d)].subsys != USB
    requires UsbNumber(d) == 0 && !(d.subsys == USB && d.ids == None) && !Add(t, d, issue).failed
    ensures var was, u := t.sys[Key(d)], Add(t, d, issue);
            && (was.name != "" && !SameName(was.name, if was.subsys == NET then d.sysname else d.devnode)
                ==> LastTold(u.sent, NameClient(was.subsys == NET, was.name)) == Some(false))
            && (was.subsys == NET && was.mac != "" && !SameName(was.mac, d.address)
                ==> LastTold(u.sent, ByAddress(was.mac)) == Some(false))
  {
    AddTells(t, d, issue);
    FiledIs(t, d);
    RenamesTell(t, d);
    var was, e := t.sys[Key(d)], Filed(t, d).sys[Key(d)];
    var net, chain := was.subsys == NET, ChainAfter(e, false, d, issue);
    var sent := t.sent + Renames(t, d);
    hide Add, Filed, Renames, RequestChain.HandleEvent, Inv;
    if was.name != "" && !SameName(was.name, if net then d.sysname else d.devnode) {
      ToldAvoidsOtherNames(e, chain, net, was.name);
      AvoidsTellsNothing(sent, Told(e, chain), NameClient(net, was.name));
    }
    if net && was.mac != "" && !SameName(was.mac, d.address) {
      ToldAvoidsOtherAddresses(e, chain, was.mac);
      AvoidsTellsNothing(sent, Told(e, chain), ByAddress(was.mac));
    }
  }

  lemma ToldAvoidsOtherAddresses(e: Entry, chain: RequestChain.State, address: string)
    requires address != "" && e.mac != address
    ensures Avoids(Told(e, chain), ByAddress(address))
  {
  }

  lemma RenamesTell(t: Tables, d: Udev)
    requires Key(d) in t.sys && !t.sys[Key(d)].Removed() && UsbNumber(d) == 0
    ensures var was, sent := t.sys[Key(d)], t.sent + Renames(t, d);
            && (!SameName(was.name, if was.subsys == NET then d.sysname else d.devnode)
                ==> LastTold(sent, NameClient(was.subsys == NET, was.name)) == Some(false))
            && (was.subsys == NET && !SameName(was.mac, d.address) ==> LastTold(sent, ByAddress(was.mac)) == Some(false))
  {
    var was, r := t.sys[Key(d)], Renames(t, d);
    var given := if was.subsys == NET then d.sysname else d.devnode;
    if !SameName(was.name, given) {
      assert r[0] == Message(NameClient(was.subsys == NET, was.name), false);
      SameByteTells(r, NameClient(was.subsys == NET, was.name), false);
      LastToldAppend(t.sent, r, NameClient(was.subsys == NET, was.name));
    }
    if was.subsys == NET && !SameName(was.mac, d.address) {
      assert r[|r| - 1] == Message(ByAddress(was.mac), false);
      SameByteTells(r, ByAddress(was.mac), false);
      LastToldAppend(t.sent, r, ByAddress(was.mac));
    }
  }

  lemma GoneToldByNameIff(t: Tables, key: string, d: Udev, issue: Issue)
    requires Inv(t) && !t.failed && key in t.sys && !t.sys[key].Removed() && !Gone(t, key, d, issue).failed
    requires t.sys[key].name != "" && t.sys[key].subsys != USB
    ensures var e, u := t.sys[key], Gone(t, key, d, issue);
            var c := NameClient(e.subsys == NET, e.name);
            && (LastTold(u.sent, c) == Some(false)
                <==> (!e.chain.dev.hasTag && !d.tag) || (e.Processing() && LastTold(t.sent, c) == Some(false)))
            && (e.Processing() ==> LastTold(u.sent, c) == LastTold(t.sent, c))
            && (!e.Processing() ==> LastTold(u.sent, c) == Some(e.chain.dev.hasTag || d.tag))
  {
    var e, u := t.sys[key], Gone(t, key, d, issue);
    GoneTells(t, key, d, issue);
    RequestChain.EventSignals(e.chain, true, d.tag, d.services, issue);
    UntaggedRests(e.chain);
    if !e.Processing() {
      RequestChain.RestingRemoval(e.chain);
    }
    var chain := ChainAfter(e, true, d, issue);
    assert t.sent + [] == t.sent;
    assert e.Processing() ==> Told(e, chain) == [];
    assert !e.Processing() ==> Told(e, chain) == Ready(e, e.chain.dev.hasTag || d.tag);
    assert u.sent == t.sent + Told(e, chain);
    ReadyTells(t.sent, e, e.chain.dev.hasTag || d.tag);
    hide Gone, Ready, Told, RequestChain.HandleEvent, RequestChain.Reachable, ChainsOk, SvcdevOk, PointersOk;
  }

  lemma UntaggedRests(s: RequestChain.State)
    requires RequestChain.Reachable(s) && !s.aborted
    ensures !s.dev.hasTag ==> !s.dev.processing
  {
    RequestChain.ReachableOk(s);
  }

  /** A name that no device has is not told anything, so clients by the name of a device that is
      gone keep what they were told last until a device has the name again. */
  lemma UnusedNameIsSilent(t: Tables, step: Step, net: bool, name: string)
    requires Inv(t) && NamesOk(t) && Enabled(t, step) && name != ""
    requires (forall k :: !Has(t, k, net, name)) && (forall k :: !Has(Apply(t, step), k, net, name))
    requires step.Added? ==> FreshName(t, step.device)
    ensures Apply(t, step).failed || LastTold(Apply(t, step).sent, NameClient(net, name)) == LastTold(t.sent, NameClient(net, name))
  {
    var u := Apply(t, step);
    hide NamesOk, FreshName, Add, Remove, Has, RequestChain.Apply, RequestChain.Reachable, RequestChain.Enabled;
    match step
    case Added(d, issue) => AddIsSilent(t, d, issue, net, name);
    case Deleted(d, issue) => RemoveIsSilent(t, d, issue, net, name);
    case Reply(k, r) => ReplyIsSilent(t, u, k, r, net, name);
    case ServiceEvent(h, issue) =>
      if h in t.svcdev {
        ReplyIsSilent(t, u, t.svcdev[h], RequestChain.ServiceEvent(h, issue), net, name);
      }
  }

  lemma TellsIsSilent(t: Tables, u: Tables, key: string, pre: seq<Message>, e: Entry, chain: RequestChain.State,
                      net: bool, name: string)
    requires Tells(t, u, key, pre, e, chain) && OwnNames(t, key, pre) && OwnName(t, u, key, e) && name != ""
    requires !Has(t, key, net, name) && !Has(u, key, net, name)
    ensures LastTold(u.sent, NameClient(net, name)) == LastTold(t.sent, NameClient(net, name))
  {
    AvoidsTellsNothing(t.sent, pre, NameClient(net, name));
    ToldAvoidsOtherNames(e, chain, net, name);
    AvoidsTellsNothing(t.sent + pre, Told(e, chain), NameClient(net, name));
  }

  lemma AddIsSilent(t: Tables, d: Udev, issue: Issue, net: bool, name: string)
    requires Inv(t) && !t.failed && NamesOk(t) && FreshName(t, d) && name != ""
    requires forall k :: !Has(t, k, net, name) && !Has(Add(t, d, issue), k, net, name)
    ensures var u := Add(t, d, issue);
            u.failed || LastTold(u.sent, NameClient(net, name)) == LastTold(t.sent, NameClient(net, name))
  {
    if !(d.subsys == USB && d.ids == None) {
      AddTells(t, d, issue);
      RenamesOwn(t, d);
      FiledFacts(t, d);
      FreshChainReachable();
      var u, e := Add(t, d, issue), Filed(t, d).sys[Key(d)];
      var chain := ChainAfter(e, false, d, issue);
      EventEffect(e.chain, false, d.tag, d.services, issue);
      assert u.sys[Key(d)] == e.(chain := chain);
      hide Filed, Add, Renames, NamesOk, FreshName, RequestChain.HandleEvent, RequestChain.Reachable;
      if !u.failed {
        TellsIsSilent(t, u, Key(d), Renames(t, d), e, chain, net, name);
      }
    }
  }

  lemma GoneIsSilent(t: Tables, key: string, d: Udev, issue: Issue, net: bool, name: string)
    requires ChainsOk(t) && !t.failed && NamesOk(t) && name != ""
    requires forall k :: !Has(t, k, net, name)
    ensures var u := Gone(t, key, d, issue);
            u.failed || LastTold(u.sent, NameClient(net, name)) == LastTold(t.sent, NameClient(net, name))
  {
    if key in t.sys && !t.sys[key].Removed() {
      var u, e := Gone(t, key, d, issue), t.sys[key];
      GoneTells(t, key, d, issue);
      assert e.name != "" ==> Has(t, key, e.subsys == NET, e.name);
      assert u.failed || u.sys[key].name == "" by {
        hide RequestChain.HandleEvent;
      }
      hide Gone, NamesOk, RequestChain.HandleEvent, RequestChain.Reachable;
      if !u.failed {
        TellsIsSilent(t, u, key, [], e, ChainAfter(e, true, d, issue), net, name);
      }
    }
  }

  lemma RemoveIsSilent(t: Tables, d: Udev, issue: Issue, net: bool, name: string)
    requires Inv(t) && !t.failed && NamesOk(t) && name != "" && (d.devnum in t.usb ==> t.usb[d.devnum] in t.sys)
    requires forall k :: !Has(t, k, net, name)
    ensures var u := Remove(t, d, issue);
            u.failed || LastTold(u.sent, NameClient(net, name)) == LastTold(t.sent, NameClient(net, name))
  {
    var u := Unplug(t, d.devnum).(present := t.present - {d.devnum});
    UnplugKeeps(t, d.devnum, t.present - {d.devnum});
    UnplugKeepsNames(t, d.devnum, t.present - {d.devnum});
    UnplugGivesNoName(t, d.devnum, t.present - {d.devnum}, net, name);
    hide Gone, NamesOk, Has, Inv, Unplug;
    GoneIsSilent(u, d.syspath, d, issue, net, name);
    if d.devnum != 0 && d.devnum in t.usb {
      GoneIsSilent(u, u.sys[t.usb[d.devnum]].syspath, d, issue, net, name);
    }
  }

  lemma UnplugGivesNoName(t: Tables, devnum: nat, present: map<nat, string>, net: bool, name: string)
    requires (devnum in t.usb ==> t.usb[devnum] in t.sys) && forall k :: !Has(t, k, net, name)
    ensures var u := Unplug(t, devnum).(present := present);
            u.sent == t.sent && forall k :: !Has(u, k, net, name)
  {
    var u := Unplug(t, devnum).(present := present);
    forall k
      ensures !Has(u, k, net, name)
    {
      assert !Has(t, k, net, name);
    }
  }

  lemma ReplyIsSilent(t: Tables, u: Tables, key: string, r: RequestChain.Step, net: bool, name: string)
    requires ChainsOk(t) && NamesOk(t) && name != "" && !Has(t, key, net, name) && !Has(u, key, net, name)
    requires key in t.sys && RequestChain.Enabled(t.sys[key].chain, r) && !r.Udev?
    requires var chain := RequestChain.Apply(t.sys[key].chain, r);
             u.sys == t.sys[key := t.sys[key].(chain := chain)] && u.sent == t.sent + Told(t.sys[key], chain)
             && u.failed == chain.aborted
    ensures u.failed || LastTold(u.sent, NameClient(net, name)) == LastTold(t.sent, NameClient(net, name))
  {
    var e := t.sys[key];
    ReplyTells(t, u, key, r);
    assert e.name != "" && !e.Removed() ==> Has(t, key, e.subsys == NET, e.name);
    assert e.Removed() ==> e.name == "";
    hide RequestChain.Apply, RequestChain.Reachable, RequestChain.Enabled, Told, NamesOk;
    if !u.failed {
      TellsIsSilent(t, u, key, [], e, RequestChain.Apply(e.chain, r), net, name);
    }
  }
}
