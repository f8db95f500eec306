/** The maps of the device monitor, as `add_device`, `remove_device` and the queries of clients
    work on them in place (early/helpers/devmon.cc). Every method is a function of
    `DeviceIndex`, whose runs `MonitorRuns` and `UsbDevices` are about. */
module MonitorObject {
  import opened Text
  import opened DeviceIndex
  import opened MonitorProofs
  import opened MonitorRuns
  import RequestChain

  class Monitor {
    var mapSys: map<string, Entry>
    var mapDev: map<string, string>
    var mapNetif: map<string, string>
    var mapMac: seq<Filing>
    var mapUsb: map<nat, string>
    var mapSvcdev: map<Handle, string>
    /** What clients were sent so far. */
    var sent: seq<Message>
    var failed: bool
    ghost var present: map<nat, string>

    ghost function At(): Tables
      reads this
    {
      Tables(mapSys, mapDev, mapNetif, mapMac, mapUsb, mapSvcdev, sent, present, failed)
    }

    constructor ()
      ensures At() == DeviceIndex.Initial
    {
      mapSys, mapDev, mapNetif, mapMac := map[], map[], map[], [];
      mapUsb, mapSvcdev, sent, failed, present := map[], map[], [], false, map[];
    }

    /** `init`, with `init_dev` */
    method InitDevice(key: string, d: Udev, devnum: nat)
      requires key in mapSys
      modifies this`mapSys, this`mapDev, this`mapNetif, this`mapMac
      ensures var e := InitEntry(old(mapSys)[key], d, devnum);
              && mapSys == old(mapSys)[key := e]
              && mapDev == (if HasNode(e, devnum) && d.devnode.Some? then Emplace(old(mapDev), e.name, key) else old(mapDev))
              && mapNetif == (if IsNetif(e, devnum) && d.sysname.Some? then Emplace(old(mapNetif), e.name, key) else old(mapNetif))
              && mapMac == if IsNetif(e, devnum) && d.address.Some? then File(mapSys, old(mapMac), key, Address) else old(mapMac)
    {
      hide Emplace;
      var e := mapSys[key];
      if devnum != 0 {
        mapSys := mapSys[key := e.(devset := e.devset + {devnum})];
      } else if e.subsys != NET {
        if d.devnode.Some? {
          mapSys := mapSys[key := e.(name := d.devnode.value)];
          mapDev := Emplace(mapDev, d.devnode.value, key);
        }
      } else {
        InitNet(key, d);
      }
    }

    /** `init_net` */
    method InitNet(key: string, d: Udev)
      requires key in mapSys
      modifies this`mapSys, this`mapNetif, this`mapMac
      ensures var was := old(mapSys)[key];
              mapSys == old(mapSys)[key := was.(name := OrElse(d.sysname, was.name), mac := OrElse(d.address, was.mac))]
      ensures mapNetif == if d.sysname.Some? then Emplace(old(mapNetif), d.sysname.value, key) else old(mapNetif)
      ensures mapMac == if d.address.Some? then File(mapSys, old(mapMac), key, Address) else old(mapMac)
    {
      hide Emplace;
      if d.sysname.Some? {
        mapSys := mapSys[key := mapSys[key].(name := d.sysname.value)];
      }
      if d.address.Some? {
        mapSys := mapSys[key := mapSys[key].(mac := d.address.value)];
      }
      if d.sysname.Some? {
        mapNetif := Emplace(mapNetif, mapSys[key].name, key);
      }
      if d.address.Some? {
        mapMac := File(mapSys, mapMac, key, Address);
      }
    }

    /** `set` */
    method SetDevice(key: string, d: Udev, devnum: nat)
      requires key in mapSys
      modifies this`mapSys, this`mapDev, this`mapNetif, this`mapMac, this`sent
      ensures At() == Set(old(At()), key, d, devnum)
    {
      hide Emplace;
      var e := mapSys[key];
      if devnum != 0 {
        mapSys := mapSys[key := e.(devset := e.devset + {devnum})];
      } else if e.subsys != NET {
        SetDev(key, d.devnode);
      } else {
        SetIfname(key, d.sysname);
        SetMac(key, d.address);
      }
    }

    /** `set_dev` */
    method SetDev(key: string, devnode: Option<string>)
      requires key in mapSys
      modifies this`mapSys, this`mapDev, this`sent
      ensures mapSys == old(mapSys)[key := old(mapSys)[key].(name := OrElse(devnode, ""))]
      ensures sent == old(sent) + Renamed(ByNode(old(mapSys)[key].name), old(mapSys)[key].name, devnode)
      ensures mapDev == Reindex(old(mapDev), old(mapSys)[key].name, devnode, key)
    {
      hide Emplace;
      var name := mapSys[key].name;
      if SameName(name, devnode) {
        return;
      }
      sent := sent + [Message(ByNode(name), false)];
      mapDev := mapDev - {name};
      if devnode.Some? {
        mapSys := mapSys[key := mapSys[key].(name := devnode.value)];
        mapDev := Emplace(mapDev, devnode.value, key);
      } else {
        mapSys := mapSys[key := mapSys[key].(name := "")];
      }
    }

    /** `set_ifname` */
    method SetIfname(key: string, ifname: Option<string>)
      requires key in mapSys
      modifies this`mapSys, this`mapNetif, this`sent
      ensures mapSys == old(mapSys)[key := old(mapSys)[key].(name := OrElse(ifname, ""))]
      ensures sent == old(sent) + Renamed(ByNetif(old(mapSys)[key].name), old(mapSys)[key].name, ifname)
      ensures mapNetif == Reindex(old(mapNetif), old(mapSys)[key].name, ifname, key)
    {
      hide Emplace;
      var name := mapSys[key].name;
      if SameName(name, ifname) {
        return;
      }
      sent := sent + [Message(ByNetif(name), false)];
      mapNetif := mapNetif - {name};
      if ifname.Some? {
        mapSys := mapSys[key := mapSys[key].(name := ifname.value)];
        mapNetif := Emplace(mapNetif, ifname.value, key);
      } else {
        mapSys := mapSys[key := mapSys[key].(name := "")];
      }
    }

    /** `set_mac`, which files the device under its interface name */
    method SetMac(key: string, address: Option<string>)
      requires key in mapSys
      modifies this`mapSys, this`mapMac, this`sent
      ensures mapSys == old(mapSys)[key := old(mapSys)[key].(mac := OrElse(address, ""))]
      ensures sent == old(sent) + Renamed(ByAddress(old(mapSys)[key].mac), old(mapSys)[key].mac, address)
      ensures mapMac == ReindexMac(old(mapSys), old(mapMac), key, address)
    {
      hide Emplace;
      var mac := mapSys[key].mac;
      if SameName(mac, address) {
        return;
      }
      sent := sent + [Message(ByAddress(mac), false)];
      mapMac := Erase(mapSys, mapMac, mac);
      if address.Some? {
        mapSys := mapSys[key := mapSys[key].(mac := address.value)];
        mapMac := File(mapSys, mapMac, key, Name);
      } else {
        mapSys := mapSys[key := mapSys[key].(mac := "")];
      }
    }

    /** `ready` */
    method SendReady(e: Entry, there: bool)
      modifies this`sent
      ensures sent == old(sent) + Ready(e, there)
    {
      if e.subsys == USB {
        sent := sent + [Message(ByUsb(e.syspath), there)];
        return;
      }
      sent := sent + [Message(ByPath(e.syspath), there)];
      if e.subsys == NET {
        if e.name != "" {
          sent := sent + [Message(ByNetif(e.name), there)];
        }
        if e.mac != "" {
          sent := sent + [Message(ByAddress(e.mac), there)];
        }
      } else if e.name != "" {
        sent := sent + [Message(ByNode(e.name), there)];
      }
    }

    /** The device's own `handle_device_dinit` (see `DeviceObject`). */
    method HandleDeviceDinit(key: string, d: Udev, removed: bool, issue: Issue) returns (ok: bool)
      requires key in mapSys
      modifies this`mapSys, this`sent, this`failed
      ensures At() == Dispatch(old(At()), key, d, removed, issue) && ok == !failed
    {
      var chain := RequestChain.HandleEvent(mapSys[key].chain, removed, d.tag, d.services, issue);
      hide RequestChain.HandleEvent;
      if |chain.signals| == |mapSys[key].chain.signals| + 1 {
        SendReady(mapSys[key], Last(chain.signals));
      }
      mapSys := mapSys[key := mapSys[key].(chain := chain)];
      failed := chain.aborted;
      ok := !failed;
    }

    method FileEvent(key: string, d: Udev, devnum: nat)
      requires key == Key(d) && devnum == UsbNumber(d)
      modifies this`mapSys, this`mapDev, this`mapNetif, this`mapMac, this`mapUsb, this`sent
      ensures At() == Filed(old(At()), d)
    {
      hide Emplace, InitEntry, HasNode, IsNetif;
      if key in mapSys && !mapSys[key].Removed() {
        SetDevice(key, d, devnum);
        return;
      }
      var e := if key in mapSys then mapSys[key] else NewEntry;
      mapSys := mapSys[key := e.(syspath := key, subsys := d.subsys)];
      InitDevice(key, d, devnum);
      assert mapSys == old(mapSys)[key := InitEntry(e.(syspath := key, subsys := d.subsys), d, devnum)];
      if devnum != 0 {
        mapUsb := mapUsb[devnum := key];
      }
    }

    /** `add_device` */
    method AddDevice(d: Udev, issue: Issue) returns (ok: bool)
      requires !failed
      modifies this
      ensures At() == Add(old(At()), d, issue) && ok == !failed
    {
      hide Filed, Dispatch;
      var key, devnum := d.syspath, 0;
      if d.subsys == USB {
        if d.ids == None {
          return true;
        }
        key, devnum := d.ids.value, d.devnum;
      }
      FileEvent(key, d, devnum);
      ok := HandleDeviceDinit(key, d, false, issue);
      if devnum != 0 {
        present := present[devnum := key];
      }
    }

    /** `device::remove` */
    method DropNames(key: string)
      requires key in mapSys
      modifies this`mapSys, this`mapDev, this`mapNetif, this`mapMac
      ensures At() == Drop(old(At()), key)
    {
      var e := mapSys[key];
      if e.subsys == NET {
        if e.name != "" {
          mapNetif := mapNetif - {e.name};
          mapSys := mapSys[key := mapSys[key].(name := "")];
        }
        assert mapSys == old(mapSys)[key := e.(name := "")];
        if e.mac != "" {
          mapMac := Erase(mapSys, mapMac, mapSys[key].name);
          mapSys := mapSys[key := mapSys[key].(mac := "")];
        }
      } else if e.name != "" {
        mapDev := mapDev - {e.name};
        mapSys := mapSys[key := mapSys[key].(name := "")];
      }
    }

    /** `remove_device` */
    method RemoveDevice(d: Udev, issue: Issue) returns (ok: bool)
      requires !failed && (d.devnum in mapUsb ==> mapUsb[d.devnum] in mapSys)
      modifies this
      ensures At() == Remove(old(At()), d, issue) && ok == !failed
    {
      hide Gone;
      var key := d.syspath;
      if d.devnum != 0 && d.devnum in mapUsb {
        var target := mapUsb[d.devnum];
        key := mapSys[target].syspath;
        mapSys := mapSys[target := mapSys[target].(devset := mapSys[target].devset - {d.devnum})];
        mapUsb := mapUsb - {d.devnum};
        present := present - {d.devnum};
        if mapSys[target].devset != {} {
          return true;
        }
      } else {
        present := present - {d.devnum};
      }
      ok := RemoveEntry(key, d, issue);
    }

    method RemoveEntry(key: string, d: Udev, issue: Issue) returns (ok: bool)
      requires !failed
      modifies this`mapSys, this`sent, this`failed, this`mapDev, this`mapNetif, this`mapMac
      ensures At() == Gone(old(At()), key, d, issue) && ok == !failed
    {
      hide RequestChain.HandleEvent, Drop;
      if key !in mapSys || mapSys[key].Removed() {
        return true;
      }
      ok := HandleDeviceDinit(key, d, true, issue);
      if ok {
        DropNames(key);
      }
    }

    /** The lookups of the main loop, once a client's query is complete. */
    method Reply(q: Query) returns (igot: bool)
      requires Inv(At()) && !failed
      ensures igot == Answer(At(), q)
    {
      igot := false;
      var syspath := "";
      match q {
        case Node(n, resolved) =>
          if n in mapDev {
            syspath, igot := mapDev[n], true;
          } else if resolved.Some? && resolved.value in mapDev {
            syspath, igot := mapDev[resolved.value], true;
          }
        case Path(n) =>
          syspath, igot := n, n in mapSys;
        case Netif(n) =>
          if n in mapNetif {
            syspath, igot := mapNetif[n], true;
          }
        case Mac(n) =>
          var found := Lookup(mapSys, mapMac, n);
          if found.Some? {
            syspath, igot := found.value, true;
          }
      }
      hide RequestChain.Reachable, SvcdevOk;
      if igot && (mapSys[syspath].Removed() || mapSys[syspath].Processing()) {
        igot := false;
      }
    }
  }
}
