/** The tables of the device monitor (early/helpers/devmon.cc): the canonical one by system
    path, and the indexes that clients' queries and dinit's replies go through. */
module DeviceIndex {
  import opened Text
  import RequestChain

  type Handle = RequestChain.Handle
  type Issue = RequestChain.Issue

  const NET := "net"
  const USB := "usb"

  /** A `device`, by value in `map_sys`; its `removed` and `processing` are in the chain. */
  datatype Entry = Entry(
    name: string, mac: string, syspath: string, subsys: string, devset: set<nat>, chain: RequestChain.State)
  {
    predicate Removed() { chain.dev.removed }
    predicate Processing() { chain.dev.processing }
  }

  const NewEntry := Entry("", "", "", "", {}, RequestChain.Initial)

  /** Whom a byte is for: all clients that asked for this path, USB id, node, interface or address. */
  datatype Client = ByPath(path: string) | ByUsb(id: string) | ByNode(name: string) | ByNetif(name: string) | ByAddress(mac: string)

  /** A byte sent: whether the device is there. */
  datatype Message = Message(to: Client, there: bool)

  /** `map_sys`, `map_dev`, `map_netif`, `map_mac`, `map_usb` and `map_svcdev`, where pointers to
      devices are their keys in `map_sys`; `sent` is what clients were sent so far, `present` are
      the USB devices that are plugged in, by number; `failed` when the monitor gives up. */
  datatype Tables = Tables(
    sys: map<string, Entry>, dev: map<string, string>, netif: map<string, string>, mac: seq<Filing>,
    usb: map<nat, string>, svcdev: map<Handle, string>, sent: seq<Message>, present: map<nat, string>, failed: bool)

  const Initial := Tables(map[], map[], map[], [], map[], map[], [], map[], false)

  /** What udev says about a device; `ids` is vendor:product when both are known. */
  datatype Udev = Udev(
    syspath: string, subsys: string, ids: Option<string>, devnum: nat, devnode: Option<string>,
    sysname: Option<string>, address: Option<string>, tag: bool, services: set<string>)

  /** `emplace`, which leaves an entry alone that is already there */
  function Emplace<K, V>(m: map<K, V>, k: K, v: V): map<K, V> {
    if k in m then m else m[k := v]
  }

  // ---- `map_mac`, whose keys are views of strings that the devices go on to change.

  datatype Field = Address | Name

  /** An entry of `map_mac`: the key is a view of a field of the device that it leads to, which
      read `text` when it was filed. */
  datatype Filing = Filing(owner: string, field: Field, text: string)

  /** Whether lookups compare the hash of a key first, which is that of the text it was filed
      under, or only what it reads now, as some libraries do in small tables. Nothing depends on
      which it is. */
  const HASHED: bool

  function FieldOf(e: Entry, field: Field): string {
    if field == Address then e.mac else e.name
  }

  /** What a lookup finds the entry under: the view is as long as ever and reads what the field
      holds now, which ends it when it is shorter. */
  function FoundUnder(sys: map<string, Entry>, f: Filing): (r: Option<string>)
    ensures r.Some? ==> f.owner in sys && r.value <= FieldOf(sys[f.owner], f.field) && |r.value| == |f.text|
  {
    if f.owner !in sys then None
    else
      var now := FieldOf(sys[f.owner], f.field);
      if |f.text| <= |now| && (HASHED ==> now[..|f.text|] == f.text) then Some(now[..|f.text|]) else None
  }

  /** The path that a lookup finds; of two entries it is the one filed later. */
  function Lookup(sys: map<string, Entry>, mac: seq<Filing>, address: string): (r: Option<string>)
    ensures r.Some? ==> r.value in sys
  {
    if mac == [] then None
    else if FoundUnder(sys, mac[0]) == Some(address) then Some(mac[0].owner)
    else Lookup(sys, mac[1..], address)
  }

  /** `erase`, of the entry that the lookup finds */
  function Erase(sys: map<string, Entry>, mac: seq<Filing>, address: string): seq<Filing> {
    if mac == [] then []
    else if FoundUnder(sys, mac[0]) == Some(address) then mac[1..]
    else [mac[0]] + Erase(sys, mac[1..], address)
  }

  /** `emplace`, with a view of the device's field for a key */
  function File(sys: map<string, Entry>, mac: seq<Filing>, key: string, field: Field): seq<Filing>
    requires key in sys
  {
    var text := FieldOf(sys[key], field);
    if Lookup(sys, mac, text).Some? then mac else [Filing(key, field, text)] + mac
  }

  /** What an event says about the device `e`, by its kind: a USB device has a number, a network
      interface has a name and an address, any other device has a node. */
  predicate HasNode(e: Entry, devnum: nat) {
    devnum == 0 && e.subsys != NET
  }

  predicate IsNetif(e: Entry, devnum: nat) {
    devnum == 0 && e.subsys == NET
  }

  function OrElse(given: Option<string>, otherwise: string): string {
    if given.Some? then given.value else otherwise
  }

  /** The fields that `init` sets; what the event does not give stays. */
  function InitEntry(e: Entry, d: Udev, devnum: nat): Entry {
    if devnum != 0 then e.(devset := e.devset + {devnum})
    else if e.subsys != NET then e.(name := OrElse(d.devnode, e.name))
    else e.(name := OrElse(d.sysname, e.name), mac := OrElse(d.address, e.mac))
  }

  /** `init`, for a new entry */
  function Init(t: Tables, key: string, d: Udev, devnum: nat): Tables {
    var was := (if key in t.sys then t.sys[key] else NewEntry).(syspath := key, subsys := d.subsys);
    var e := InitEntry(was, d, devnum);
    t.(sys := t.sys[key := e],
       dev := if HasNode(e, devnum) && d.devnode.Some? then Emplace(t.dev, e.name, key) else t.dev,
       netif := if IsNetif(e, devnum) && d.sysname.Some? then Emplace(t.netif, e.name, key) else t.netif,
       mac := if IsNetif(e, devnum) && d.address.Some? then File(t.sys[key := e], t.mac, key, Address) else t.mac,
       usb := if devnum != 0 then t.usb[devnum := key] else t.usb)
  }

  predicate SameName(name: string, given: Option<string>) {
    given == Some(name) || (given == None && name == "")
  }

  /** `set_dev` and `set_ifname` on their index */
  function Reindex(index: map<string, string>, name: string, given: Option<string>, key: string): map<string, string> {
    if SameName(name, given) then index
    else if given.Some? then Emplace(index - {name}, given.value, key) else index - {name}
  }

  /** What stays in `map_mac` when `set_mac` has erased the old address. */
  function Left(sys: map<string, Entry>, mac: seq<Filing>, key: string, given: Option<string>): seq<Filing>
    requires key in sys
  {
    if SameName(sys[key].mac, given) then mac else Erase(sys, mac, sys[key].mac)
  }

  /** `set_mac`, which files the path under the interface's name */
  function ReindexMac(sys: map<string, Entry>, mac: seq<Filing>, key: string, given: Option<string>): seq<Filing>
    requires key in sys
  {
    var left := Left(sys, mac, key, given);
    if SameName(sys[key].mac, given) || given == None then left
    else File(sys[key := sys[key].(mac := given.value)], left, key, Name)
  }

  /** The fields that `set` sets; what the event does not give is cleared. */
  function SetEntry(e: Entry, d: Udev, devnum: nat): Entry {
    if devnum != 0 then e.(devset := e.devset + {devnum})
    else if e.subsys != NET then e.(name := OrElse(d.devnode, ""))
    else e.(name := OrElse(d.sysname, ""), mac := OrElse(d.address, ""))
  }

  /** What `set_dev`, `set_ifname` and `set_mac` send: a name or address that changes is gone. */
  function Renamed(to: Client, value: string, given: Option<string>): seq<Message> {
    if SameName(value, given) then [] else [Message(to, false)]
  }

  /** `set`, for a preexisting entry */
  function Set(t: Tables, key: string, d: Udev, devnum: nat): Tables
    requires key in t.sys
  {
    var was := t.sys[key];
    var e := SetEntry(was, d, devnum);
    t.(sys := t.sys[key := e],
       dev := if HasNode(e, devnum) then Reindex(t.dev, was.name, d.devnode, key) else t.dev,
       netif := if IsNetif(e, devnum) then Reindex(t.netif, was.name, d.sysname, key) else t.netif,
       mac := if IsNetif(e, devnum) then ReindexMac(t.sys[key := was.(name := e.name)], t.mac, key, d.address) else t.mac,
       sent := t.sent + (if HasNode(e, devnum) then Renamed(ByNode(was.name), was.name, d.devnode)
                         else if IsNetif(e, devnum) then Renamed(ByNetif(was.name), was.name, d.sysname)
                                                       + Renamed(ByAddress(was.mac), was.mac, d.address)
                         else []))
  }

  /** `ready`: the byte goes to clients by path, and by name and address if the device has them;
      USB devices only have an id. */
  function Ready(e: Entry, there: bool): seq<Message> {
    if e.subsys == USB then [Message(ByUsb(e.syspath), there)]
    else
      [Message(ByPath(e.syspath), there)] +
      (if e.name == "" then [] else [Message(if e.subsys == NET then ByNetif(e.name) else ByNode(e.name), there)]) +
      (if e.subsys == NET && e.mac != "" then [Message(ByAddress(e.mac), there)] else [])
  }

  /** What a step of the chain sends for the device, which is at most one signal. */
  function Told(e: Entry, after: RequestChain.State): seq<Message> {
    if |after.signals| == |e.chain.signals| + 1 then Ready(e, Last(after.signals)) else []
  }

  /** `handle_device_dinit`, after `removed` has been set */
  function Dispatch(t: Tables, key: string, d: Udev, removed: bool, issue: Issue): Tables
    requires key in t.sys
  {
    var chain := RequestChain.HandleEvent(t.sys[key].chain, removed, d.tag, d.services, issue);
    t.(sys := t.sys[key := t.sys[key].(chain := chain)], sent := t.sent + Told(t.sys[key], chain), failed := chain.aborted)
  }

  function Key(d: Udev): string {
    if d.subsys == USB && d.ids.Some? then d.ids.value else d.syspath
  }

  /** The USB number of a device, 0 for all others. */
  function UsbNumber(d: Udev): nat {
    if d.subsys == USB then d.devnum else 0
  }

  /** The part of `add_device` that files the event: a preexisting entry or a new one. */
  function Filed(t: Tables, d: Udev): (u: Tables)
    ensures Key(d) in u.sys
  {
    if Key(d) in t.sys && !t.sys[Key(d)].Removed() then Set(t, Key(d), d, UsbNumber(d))
    else Init(t, Key(d), d, UsbNumber(d))
  }

  /** `add_device`; USB devices without an id are ignored. */
  function Add(t: Tables, d: Udev, issue: Issue): Tables {
    if d.subsys == USB && d.ids == None then t
    else
      Dispatch(Filed(t, d), Key(d), d, false, issue).(
        present := if UsbNumber(d) != 0 then t.present[d.devnum := Key(d)] else t.present)
  }

  /** `device::remove`. The name is cleared before the address is looked for under it. */
  function Drop(t: Tables, key: string): Tables
    requires key in t.sys
  {
    var e := t.sys[key];
    var net := e.subsys == NET;
    t.(sys := t.sys[key := e.(name := "", mac := if net then "" else e.mac)],
       dev := if !net && e.name != "" then t.dev - {e.name} else t.dev,
       netif := if net && e.name != "" then t.netif - {e.name} else t.netif,
       mac := if net && e.mac != "" then Erase(t.sys[key := e.(name := "")], t.mac, "") else t.mac)
  }

  /** The first part of `remove_device`: a number that is a USB device's leaves its set. */
  function Unplug(t: Tables, devnum: nat): Tables
    requires devnum in t.usb ==> t.usb[devnum] in t.sys
  {
    if devnum == 0 || devnum !in t.usb then t
    else
      var key := t.usb[devnum];
      var e := t.sys[key];
      t.(sys := t.sys[key := e.(devset := e.devset - {devnum})], usb := t.usb - {devnum})
  }

  function Gone(t: Tables, key: string, d: Udev, issue: Issue): Tables {
    if key !in t.sys || t.sys[key].Removed() then t
    else
      var u := Dispatch(t, key, d, true, issue);
      if u.failed then u else Drop(u, key)
  }

  /** `remove_device` */
  function Remove(t: Tables, d: Udev, issue: Issue): Tables
    requires d.devnum in t.usb ==> t.usb[d.devnum] in t.sys
  {
    var usb := d.devnum != 0 && d.devnum in t.usb;
    var u := Unplug(t, d.devnum).(present := t.present - {d.devnum});
    if !usb then Gone(u, d.syspath, d, issue)
    else if u.sys[t.usb[d.devnum]].devset != {} then u
    else Gone(u, u.sys[t.usb[d.devnum]].syspath, d, issue)
  }

  datatype Step =
    | Added(device: Udev, issue: Issue)
    | Deleted(device: Udev, issue: Issue)
    | Reply(key: string, reply: RequestChain.Step)
    | ServiceEvent(handle: Handle, issue: Issue)

  /** Replies come to requests of the device, and the library gives out new handles. That the
      pointers in `map_usb` and `map_svcdev` can be followed is shown below
      (`PointersNeverDangle`). */
  ghost predicate Enabled(t: Tables, step: Step) {
    !t.failed &&
    match step
    case Added(_, _) => true
    case Deleted(d, _) => d.devnum in t.usb ==> t.usb[d.devnum] in t.sys
    case Reply(k, r) =>
      && k in t.sys && RequestChain.Enabled(t.sys[k].chain, r) && !r.Udev? && !r.ServiceEvent?
      && (r.ServiceLoaded? ==> r.handle !in t.svcdev)
    case ServiceEvent(h, issue) =>
      h in t.svcdev ==> (
          && t.svcdev[h] in t.sys
          && RequestChain.Enabled(t.sys[t.svcdev[h]].chain, RequestChain.ServiceEvent(h, issue)))
  }

  /** Whether a reply makes an entry in `map_svcdev`. */
  predicate Awaits(r: RequestChain.Step) {
    r.ServiceLoaded? && !r.drop && !r.started
  }

  function Apply(t: Tables, step: Step): Tables
    requires Enabled(t, step)
  {
    match step
    case Added(d, issue) => Add(t, d, issue)
    case Deleted(d, issue) => Remove(t, d, issue)
    case Reply(k, r) =>
      var chain := RequestChain.Apply(t.sys[k].chain, r);
      t.(sys := t.sys[k := t.sys[k].(chain := chain)], sent := t.sent + Told(t.sys[k], chain), failed := chain.aborted,
         svcdev := if Awaits(r) then t.svcdev[r.handle := k] else t.svcdev)
    case ServiceEvent(h, issue) =>
      if h !in t.svcdev then t
      else
        var k := t.svcdev[h];
        var chain := RequestChain.Apply(t.sys[k].chain, RequestChain.ServiceEvent(h, issue));
        t.(sys := t.sys[k := t.sys[k].(chain := chain)], sent := t.sent + Told(t.sys[k], chain), failed := chain.aborted,
           svcdev := t.svcdev - {h})
  }
}
