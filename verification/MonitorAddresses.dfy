/** The index of network interfaces by hardware address (early/helpers/devmon.cc). Its keys are
    views of the devices' own strings, so an entry stays in the table when its device is removed,
    but is not found before the string reads as it did again; and a changed address is filed under
    the interface's name. This is when the index is right all the same, and what clients are
    answered then. The empty string, which an interface may give for its address, stands for none. */
module MonitorAddresses {
  import opened Text
  import opened DeviceIndex
  import opened MonitorProofs
  import opened MonitorRuns
  import RequestChain

  /** A live interface has the address. */
  ghost predicate HasAddress(t: Tables, key: string, address: string) {
    key in t.sys && !t.sys[key].Removed() && t.sys[key].subsys == NET && t.sys[key].mac == address && address != ""
  }

  ghost predicate NobodyElseHas(t: Tables, key: string, address: string) {
    forall k :: k != key ==> !HasAddress(t, k, address)
  }

  /** An entry that leads to the device is found under the address. */
  ghost predicate Reads(sys: map<string, Entry>, mac: seq<Filing>, key: string, address: string) {
    exists f :: f in mac && f.owner == key && FoundUnder(sys, f) == Some(address)
  }

  ghost predicate OnlyReads(sys: map<string, Entry>, mac: seq<Filing>, key: string, address: string) {
    forall a :: Reads(sys, mac, key, a) ==> a == "" || a == address
  }

  /** The entries that are found lead to the live interfaces that have the addresses, and no two
      live interfaces have the same one. */
  ghost predicate AddressesRight(t: Tables) {
    && (forall k, a :: a != "" ==> (Reads(t.sys, t.mac, k, a) <==> HasAddress(t, k, a)))
    && (forall k, a :: HasAddress(t, k, a) ==> NobodyElseHas(t, k, a))
  }

  /** Only live interfaces have an address, and only live devices a name. */
  ghost predicate AddressesClear(t: Tables) {
    && (forall k :: k in t.sys && (t.sys[k].Removed() || t.sys[k].subsys != NET) ==> t.sys[k].mac == "")
    && NamelessOk(t)
  }

  /** A live interface has a new address. */
  predicate Changes(t: Tables, d: Udev)
    requires Key(d) in t.sys
  {
    IsNetif(t.sys[Key(d)], UsbNumber(d)) && !SameName(t.sys[Key(d)].mac, d.address) && d.address.Some?
  }

  /** The entries that stay when the event of a live device is filed. */
  function Staying(t: Tables, d: Udev): seq<Filing>
    requires Key(d) in t.sys
  {
    var key, was := Key(d), t.sys[Key(d)];
    if IsNetif(was, UsbNumber(d)) then Left(t.sys[key := was.(name := FiledEntry(t, d).name)], t.mac, key, d.address)
    else t.mac
  }

  /** What is filed for a live device: a new address is filed under the interface's name, unless
      that is found already. */
  function NewlyFiled(t: Tables, d: Udev): string
    requires Key(d) in t.sys
  {
    var e := FiledEntry(t, d);
    if Changes(t, d) && Lookup(t.sys[Key(d) := e], Staying(t, d), e.name) == None then e.name else ""
  }

  /** Nobody else has the address that the device has now, and no entry left from earlier reads
      anything else that the device has now. If the device was there already, its address is the
      one that is filed or was filed before. */
  ghost predicate AddressKept(t: Tables, d: Udev) {
    if d.subsys == USB && d.ids == None then true
    else
      var key, e := Key(d), FiledEntry(t, d);
      var sys := t.sys[key := e];
      && (e.mac != "" ==> NobodyElseHas(t, key, e.mac))
      && if key !in t.sys || t.sys[key].Removed() then OnlyReads(sys, t.mac, key, e.mac)
         else
           && OnlyReads(sys, Staying(t, d), key, e.mac)
           && (NewlyFiled(t, d) == "" || NewlyFiled(t, d) == e.mac)
           && (e.mac != "" ==> NewlyFiled(t, d) == e.mac || Reads(sys, Staying(t, d), key, e.mac))
  }

  // ---- The operations of the table.

  lemma {:induction false} LookupFinds(sys: map<string, Entry>, mac: seq<Filing>, address: string)
    ensures match Lookup(sys, mac, address)
            case None => forall f :: f in mac ==> FoundUnder(sys, f) != Some(address)
            case Some(k) => Reads(sys, mac, k, address)
  {
    if mac != [] && FoundUnder(sys, mac[0]) != Some(address) {
      LookupFinds(sys, mac[1..], address);
      assert mac == [mac[0]] + mac[1..];
    }
  }

  lemma {:induction false} EraseKeeps(sys: map<string, Entry>, mac: seq<Filing>, address: string)
    ensures forall f :: f in mac && FoundUnder(sys, f) != Some(address) ==> f in Erase(sys, mac, address)
    ensures forall f :: f in Erase(sys, mac, address) ==> f in mac
  {
    if mac != [] {
      EraseKeeps(sys, mac[1..], address);
    }
  }

  lemma FoundAsFiled(sys: map<string, Entry>, f: Filing)
    requires f.owner in sys && FieldOf(sys[f.owner], f.field) == f.text
    ensures FoundUnder(sys, f) == Some(f.text)
  {
    assert f.text[..|f.text|] == f.text;
  }

  /** What is filed under a field is found under it, unless something was before. */
  lemma FileReads(sys: map<string, Entry>, mac: seq<Filing>, key: string, field: Field, k: string, address: string)
    requires key in sys
    ensures var text := FieldOf(sys[key], field);
            Reads(sys, File(sys, mac, key, field), k, address)
            <==> Reads(sys, mac, k, address) || (k == key && address == text && Lookup(sys, mac, text) == None)
  {
    var text := FieldOf(sys[key], field);
    var f, more := Filing(key, field, text), File(sys, mac, key, field);
    FoundAsFiled(sys, f);
    assert more == mac || more == [f] + mac;
    if Lookup(sys, mac, text) == None {
      assert f in more;
    }
  }

  /** Two tables of devices with the same names and addresses. */
  ghost predicate SameStrings(sys: map<string, Entry>, sys': map<string, Entry>, key: string) {
    key in sys <==> key in sys' && (key in sys ==> sys[key].name == sys'[key].name && sys[key].mac == sys'[key].mac)
  }

  lemma SameReads(sys: map<string, Entry>, sys': map<string, Entry>, mac: seq<Filing>)
    requires forall k :: SameStrings(sys, sys', k)
    ensures forall k, a :: Reads(sys, mac, k, a) <==> Reads(sys', mac, k, a)
  {
    forall f: Filing
      ensures FoundUnder(sys, f) == FoundUnder(sys', f)
    {
      assert SameStrings(sys, sys', f.owner);
    }
  }

  // ---- Adding a device.

  /** What is filed for the others stays. */
  ghost predicate OthersStay(mac: seq<Filing>, mac': seq<Filing>, key: string) {
    forall f: Filing :: f.owner != key && f.text != "" ==> (f in mac <==> f in mac')
  }

  lemma OthersRead(t: Tables, u: Tables, key: string, k: string, a: string)
    requires key in u.sys && u.sys == t.sys[key := u.sys[key]] && OthersStay(t.mac, u.mac, key) && k != key && a != ""
    ensures Reads(u.sys, u.mac, k, a) <==> Reads(t.sys, t.mac, k, a)
  {
    assert forall f: Filing :: f.owner == k ==> FoundUnder(u.sys, f) == FoundUnder(t.sys, f);
  }

  ghost predicate ReadsJust(sys: map<string, Entry>, mac: seq<Filing>, key: string, address: string) {
    forall a :: a != "" ==> (Reads(sys, mac, key, a) <==> a == address)
  }

  lemma OneEntryRightIff(t: Tables, u: Tables, key: string)
    requires AddressesRight(t) && key in u.sys && u.sys == t.sys[key := u.sys[key]] && !u.sys[key].Removed()
    requires OthersStay(t.mac, u.mac, key) && (u.sys[key].subsys != NET ==> u.sys[key].mac == "")
    ensures AddressesRight(u)
       <==> ReadsJust(u.sys, u.mac, key, u.sys[key].mac) && (u.sys[key].mac != "" ==> NobodyElseHas(t, key, u.sys[key].mac))
  {
    var e := u.sys[key];
    forall k, a | k != key
      ensures HasAddress(u, k, a) <==> HasAddress(t, k, a)
      ensures a != "" ==> (Reads(u.sys, u.mac, k, a) <==> Reads(t.sys, t.mac, k, a))
    {
      if a != "" { OthersRead(t, u, key, k, a); }
    }
    assert forall a :: HasAddress(u, key, a) <==> a != "" && a == e.mac;
    hide Reads, OthersStay;
    if AddressesRight(u) {
      if e.mac != "" {
        assert HasAddress(u, key, e.mac);
        assert NobodyElseHas(u, key, e.mac);
      }
    } else if ReadsJust(u.sys, u.mac, key, u.sys[key].mac) && (e.mac != "" ==> NobodyElseHas(t, key, e.mac)) {
      forall k, a | HasAddress(u, k, a)
        ensures NobodyElseHas(u, k, a)
      {
        if k != key {
          assert NobodyElseHas(t, k, a);
        }
      }
    }
  }

  /** The same in terms of the entry as it is filed; at most one entry of its own is new. */
  lemma StayingRightIff(t: Tables, u: Tables, key: string, e: Entry, stay: seq<Filing>)
    requires AddressesRight(t) && key in u.sys && u.sys == t.sys[key := u.sys[key]] && !u.sys[key].Removed()
    requires SameFields(u.sys[key], e) && (e.subsys != NET ==> e.mac == "") && OthersStay(t.mac, stay, key)
    requires u.mac == stay || exists f: Filing :: f.owner == key && u.mac == [f] + stay
    ensures AddressesRight(u)
       <==> ReadsJust(t.sys[key := e], u.mac, key, e.mac) && (e.mac != "" ==> NobodyElseHas(t, key, e.mac))
  {
    OneEntryRightIff(t, u, key);
    SameReads(t.sys[key := e], u.sys, u.mac);
    hide AddressesRight, Reads, NobodyElseHas;
  }

  /** A device that was not there appears. */
  lemma AppearsRightIff(t: Tables, d: Udev, u: Tables)
    requires AddressesRight(t) && AddressesClear(t) && !(d.subsys == USB && d.ids == None)
    requires var key, e := Key(d), FiledEntry(t, d);
             && (key in t.sys ==> t.sys[key].Removed()) && key in u.sys && u.sys == t.sys[key := u.sys[key]]
             && SameFields(u.sys[key], e) && !u.sys[key].Removed()
             && u.mac == if IsNetif(e, UsbNumber(d)) && d.address.Some? then File(t.sys[key := e], t.mac, key, Address) else t.mac
    ensures AddressesRight(u) <==> AddressKept(t, d)
  {
    var key, e := Key(d), FiledEntry(t, d);
    var sys := t.sys[key := e];
    assert e.mac != "" ==> IsNetif(e, UsbNumber(d)) && d.address.Some?;
    assert e.subsys != NET ==> e.mac == "";
    StayingRightIff(t, u, key, e, t.mac);
    forall a | a != ""
      ensures Reads(sys, u.mac, key, a) <==> Reads(sys, t.mac, key, a) || (a == e.mac && Lookup(sys, t.mac, a) == None)
    {
      if IsNetif(e, UsbNumber(d)) && d.address.Some? {
        FileReads(sys, t.mac, key, Address, key, a);
      }
    }
    if e.mac != "" && NobodyElseHas(t, key, e.mac) {
      FoundIsOwn(t, key, e, t.mac, e.mac);
    }
    hide AddressesRight, AddressesClear, FiledEntry, Reads, Lookup, File, NobodyElseHas;
  }

  /** An address that nobody else has leads to the device, if anywhere. */
  lemma FoundIsOwn(t: Tables, key: string, e: Entry, mac: seq<Filing>, a: string)
    requires AddressesRight(t) && NobodyElseHas(t, key, a) && OthersStay(t.mac, mac, key) && a != ""
    ensures Lookup(t.sys[key := e], mac, a) == None || Reads(t.sys[key := e], mac, key, a)
  {
    var u := t.(sys := t.sys[key := e], mac := mac);
    LookupFinds(u.sys, mac, a);
    if Lookup(u.sys, mac, a).Some? {
      var k := Lookup(u.sys, mac, a).value;
      if k != key {
        OthersRead(t, u, key, k, a);
      }
    }
    hide Reads, Lookup;
  }

  lemma OthersAreFoundElsewhere(t: Tables, key: string, f: Filing)
    requires AddressesRight(t) && key in t.sys && !t.sys[key].Removed() && t.sys[key].subsys == NET
    requires f in t.mac && f.owner != key && f.text != ""
    ensures FoundUnder(t.sys, f) != Some(t.sys[key].mac)
  {
    var a := t.sys[key].mac;
    if a != "" {
      assert HasAddress(t, key, a);
      assert NobodyElseHas(t, key, a);
      assert !Reads(t.sys, t.mac, f.owner, a);
    }
  }

  /** Erasing the old address of a live device takes out none of the others' entries. */
  lemma OthersStayWhenErased(t: Tables, d: Udev)
    requires AddressesRight(t) && Key(d) in t.sys && !t.sys[Key(d)].Removed()
    ensures OthersStay(t.mac, Staying(t, d), Key(d))
  {
    var key, was := Key(d), t.sys[Key(d)];
    if IsNetif(was, UsbNumber(d)) {
      var sys := t.sys[key := was.(name := FiledEntry(t, d).name)];
      EraseKeeps(sys, t.mac, was.mac);
      forall f: Filing | f in t.mac && f.owner != key && f.text != ""
        ensures FoundUnder(sys, f) != Some(was.mac)
      {
        OthersAreFoundElsewhere(t, key, f);
      }
    }
    hide Erase, FiledEntry;
  }

  lemma ReadsJustIff(sys: map<string, Entry>, stay: seq<Filing>, mac: seq<Filing>, key: string, filed: string, own: string)
    requires forall a :: a != "" ==> (Reads(sys, mac, key, a) <==> Reads(sys, stay, key, a) || a == filed)
    ensures ReadsJust(sys, mac, key, own)
       <==> && OnlyReads(sys, stay, key, own) && (filed == "" || filed == own)
            && (own != "" ==> filed == own || Reads(sys, stay, key, own))
  {
    hide Reads;
    if ReadsJust(sys, mac, key, own) {
      assert filed != "" ==> Reads(sys, mac, key, filed);
      assert own != "" ==> Reads(sys, mac, key, own);
      forall a | Reads(sys, stay, key, a)
        ensures a == "" || a == own
      {
        assert a != "" ==> Reads(sys, mac, key, a);
      }
    }
  }

  /** A device that was there changes. */
  lemma StaysRightIff(t: Tables, d: Udev, u: Tables)
    requires AddressesRight(t) && AddressesClear(t) && !(d.subsys == USB && d.ids == None)
    requires var key := Key(d);
             && key in t.sys && !t.sys[key].Removed() && key in u.sys && u.sys == t.sys[key := u.sys[key]]
             && SameFields(u.sys[key], FiledEntry(t, d)) && !u.sys[key].Removed()
             && u.mac == if Changes(t, d) then File(t.sys[key := FiledEntry(t, d)], Staying(t, d), key, Name) else Staying(t, d)
    ensures AddressesRight(u) <==> AddressKept(t, d)
  {
    var key, e, stay := Key(d), FiledEntry(t, d), Staying(t, d);
    var sys := t.sys[key := e];
    assert e.subsys != NET ==> e.mac == "";
    OthersStayWhenErased(t, d);
    StayingRightIff(t, u, key, e, stay);
    var filed := NewlyFiled(t, d);
    forall a | a != ""
      ensures Reads(sys, u.mac, key, a) <==> Reads(sys, stay, key, a) || a == filed
    {
      if Changes(t, d) {
        FileReads(sys, stay, key, Name, key, a);
      }
    }
    ReadsJustIff(sys, stay, u.mac, key, filed, e.mac);
    hide AddressesRight, AddressesClear, FiledEntry, Staying, NewlyFiled, Reads, Lookup, File, NobodyElseHas, OthersStay;
    hide ReadsJust, OnlyReads;
  }

  /** The address entries after the event, in terms of the entry as it is filed. */
  lemma FiledMacIs(t: Tables, d: Udev)
    ensures var key, e, u := Key(d), FiledEntry(t, d), Filed(t, d);
            && u.sys == t.sys[key := e]
            && u.mac == if key in t.sys && !t.sys[key].Removed()
                        then (if Changes(t, d) then File(u.sys, Staying(t, d), key, Name) else Staying(t, d))
                        else if IsNetif(e, UsbNumber(d)) && d.address.Some? then File(u.sys, t.mac, key, Address)
                        else t.mac
  {
    hide File, Erase, Emplace, Reindex, HasNode;
    FiledIs(t, d);
    var key, e := Key(d), FiledEntry(t, d);
    if key in t.sys && !t.sys[key].Removed() && Changes(t, d) {
      var sys := t.sys[key := t.sys[key].(name := e.name)];
      assert sys[key := sys[key].(mac := d.address.value)] == t.sys[key := e];
    }
  }

  /** Exactly the events that keep addresses keep the index right. */
  lemma RightAfterAddIff(t: Tables, d: Udev, issue: Issue)
    requires Inv(t) && !t.failed && AddressesRight(t) && AddressesClear(t)
    ensures AddressesRight(Add(t, d, issue)) <==> AddressKept(t, d)
  {
    if !(d.subsys == USB && d.ids == None) {
      AddIs(t, d, issue);
      FiledMacIs(t, d);
      hide Add, Filed, AddressesRight, AddressKept, AddressesClear, Inv, FiledEntry, Staying, File, Changes;
      if Key(d) in t.sys && !t.sys[Key(d)].Removed() {
        StaysRightIff(t, d, Add(t, d, issue));
      } else {
        AppearsRightIff(t, d, Add(t, d, issue));
      }
    }
  }

  lemma AddKeepsClear(t: Tables, d: Udev, issue: Issue)
    requires Inv(t) && !t.failed && AddressesClear(t)
    ensures AddressesClear(Add(t, d, issue))
  {
    if !(d.subsys == USB && d.ids == None) {
      AddIs(t, d, issue);
      hide Add, Filed, Inv;
    }
  }

  // ---- The other steps.

  /** One entry changes but not its strings, or it is removed and they are cleared. */
  lemma EntryKeepsAddresses(t: Tables, u: Tables, key: string)
    requires AddressesRight(t) && AddressesClear(t) && KeepsStrings(t, u, key) && u.sys[key].subsys == t.sys[key].subsys
    requires forall f: Filing :: f.text != "" ==> (f in u.mac <==> f in t.mac)
    ensures AddressesRight(u) && AddressesClear(u)
  {
    hide Reads, HasAddress;
    forall k, a
      ensures HasAddress(u, k, a) <==> HasAddress(t, k, a) && !(k == key && u.sys[key].Removed())
      ensures a != "" ==> (Reads(u.sys, u.mac, k, a) <==> Reads(t.sys, t.mac, k, a) && !(k == key && u.sys[key].Removed()))
    {
      if a != "" {
        EntryReads(t, u, key, k, a);
      }
      EntryHasAddress(t, u, key, k, a);
    }
    assert forall k, a :: HasAddress(u, k, a) ==> HasAddress(t, k, a) && NobodyElseHas(t, k, a);
  }

  ghost predicate KeepsStrings(t: Tables, u: Tables, key: string) {
    && key in t.sys && key in u.sys && u.sys == t.sys[key := u.sys[key]]
    && if u.sys[key].Removed() then u.sys[key].mac == "" && u.sys[key].name == ""
       else !t.sys[key].Removed() && SameFields(u.sys[key], t.sys[key])
  }

  lemma EntryHasAddress(t: Tables, u: Tables, key: string, k: string, a: string)
    requires KeepsStrings(t, u, key)
    ensures HasAddress(u, k, a) <==> HasAddress(t, k, a) && !(k == key && u.sys[key].Removed())
  {
  }

  lemma EntryReads(t: Tables, u: Tables, key: string, k: string, a: string)
    requires KeepsStrings(t, u, key) && a != "" && forall f: Filing :: f.text != "" ==> (f in u.mac <==> f in t.mac)
    ensures Reads(u.sys, u.mac, k, a) <==> Reads(t.sys, t.mac, k, a) && !(k == key && u.sys[key].Removed())
  {
    if k == key && u.sys[key].Removed() {
      assert forall f: Filing :: f.owner == k ==> FoundUnder(u.sys, f) != Some(a);
    } else {
      assert forall f: Filing :: f.owner == k ==> FoundUnder(u.sys, f) == FoundUnder(t.sys, f);
    }
  }

  lemma GoneIs(t: Tables, key: string, d: Udev, issue: Issue)
    requires ChainsOk(t) && !t.failed && key in t.sys && !t.sys[key].Removed() && AddressesClear(t)
    ensures var u := Gone(t, key, d, issue);
            u.failed || (
              && key in u.sys && u.sys == t.sys[key := u.sys[key]] && u.sys[key].Removed()
              && u.sys[key].subsys == t.sys[key].subsys && u.sys[key].mac == "" && u.sys[key].name == ""
              && forall f: Filing :: f.text != "" ==> (f in u.mac <==> f in t.mac))
  {
    GoneTouches(t, key, d, issue);
    var u := Dispatch(t, key, d, true, issue);
    EraseKeeps(u.sys[key := u.sys[key].(name := "")], t.mac, "");
    hide RequestChain.HandleEvent, Erase, ChainsOk, RequestChain.Reachable;
  }

  lemma GoneKeepsAddresses(t: Tables, key: string, d: Udev, issue: Issue)
    requires ChainsOk(t) && !t.failed && AddressesRight(t) && AddressesClear(t)
    ensures var u := Gone(t, key, d, issue); u.failed || (AddressesRight(u) && AddressesClear(u))
  {
    if key in t.sys && !t.sys[key].Removed() {
      GoneIs(t, key, d, issue);
      hide Gone, AddressesRight, AddressesClear, ChainsOk;
      if !Gone(t, key, d, issue).failed {
        EntryKeepsAddresses(t, Gone(t, key, d, issue), key);
      }
    }
  }

  lemma UnplugKeepsAddresses(t: Tables, devnum: nat, present: map<nat, string>)
    requires AddressesRight(t) && AddressesClear(t) && (devnum in t.usb ==> t.usb[devnum] in t.sys)
    ensures var u := Unplug(t, devnum).(present := present); AddressesRight(u) && AddressesClear(u)
  {
    var u := Unplug(t, devnum).(present := present);
    if devnum != 0 && devnum in t.usb {
      var key := t.usb[devnum];
      assert u.sys == t.sys[key := u.sys[key]];
      hide AddressesRight;
      EntryKeepsAddresses(t, u, key);
    } else {
      SameAddresses(t, u);
    }
  }

  lemma SameAddresses(t: Tables, u: Tables)
    requires AddressesRight(t) && AddressesClear(t) && t.sys == u.sys && t.mac == u.mac
    ensures AddressesRight(u) && AddressesClear(u)
  {
    hide Reads;
    assert forall k, a :: HasAddress(u, k, a) <==> HasAddress(t, k, a);
    assert forall k, a :: HasAddress(u, k, a) ==> NobodyElseHas(t, k, a);
  }

  lemma RemoveKeepsAddresses(t: Tables, d: Udev, issue: Issue)
    requires Inv(t) && !t.failed && AddressesRight(t) && AddressesClear(t)
    requires d.devnum in t.usb ==> t.usb[d.devnum] in t.sys
    ensures var u := Remove(t, d, issue); u.failed || (AddressesRight(u) && AddressesClear(u))
  {
    var u := Unplug(t, d.devnum).(present := t.present - {d.devnum});
    UnplugKeeps(t, d.devnum, t.present - {d.devnum});
    UnplugKeepsAddresses(t, d.devnum, t.present - {d.devnum});
    hide Gone, AddressesRight, AddressesClear, Unplug, Inv;
    GoneKeepsAddresses(u, d.syspath, d, issue);
    if d.devnum != 0 && d.devnum in t.usb {
      GoneKeepsAddresses(u, u.sys[t.usb[d.devnum]].syspath, d, issue);
    }
  }

  lemma ChainKeepsAddresses(t: Tables, u: Tables, key: string)
    requires AddressesRight(t) && AddressesClear(t) && key in t.sys && key in u.sys && u.mac == t.mac
    requires u.sys == t.sys[key := t.sys[key].(chain := u.sys[key].chain)] && u.sys[key].Removed() == t.sys[key].Removed()
    ensures AddressesRight(u) && AddressesClear(u)
  {
    EntryKeepsAddresses(t, u, key);
  }

  lemma StepKeepsAddresses(t: Tables, step: Step)
    requires Inv(t) && AddressesRight(t) && AddressesClear(t) && Enabled(t, step)
    requires step.Added? ==> AddressKept(t, step.device)
    ensures var u := Apply(t, step); u.failed || (AddressesRight(u) && AddressesClear(u))
  {
    hide AddressesRight, AddressesClear, AddressKept, Add, Remove, RequestChain.Apply, RequestChain.Reachable;
    match step
    case Added(d, issue) =>
      RightAfterAddIff(t, d, issue);
      AddKeepsClear(t, d, issue);
    case Deleted(d, issue) => RemoveKeepsAddresses(t, d, issue);
    case Reply(k, r) =>
      ReplyEffect(t.sys[k].chain, r);
      ChainKeepsAddresses(t, Apply(t, step), k);
    case ServiceEvent(h, issue) =>
      if h in t.svcdev {
        ReplyEffect(t.sys[t.svcdev[h]].chain, RequestChain.ServiceEvent(h, issue));
        ChainKeepsAddresses(t, Apply(t, step), t.svcdev[h]);
      }
  }

  // ---- Runs.

  /** Runs in which every event keeps addresses. */
  ghost predicate StepsKept(t: Tables, steps: seq<Step>, u: Tables)
    decreases |steps|
  {
    if steps == [] then t == u
    else
      && Enabled(t, steps[0])
      && (steps[0].Added? ==> AddressKept(t, steps[0].device))
      && StepsKept(Apply(t, steps[0]), steps[1..], u)
  }

  lemma {:induction false} StepsKeepAddresses(t: Tables, steps: seq<Step>, u: Tables)
    requires Inv(t) && (t.failed || (AddressesRight(t) && AddressesClear(t))) && StepsKept(t, steps, u)
    ensures Inv(u) && (u.failed || (AddressesRight(u) && AddressesClear(u)))
    decreases |steps|
  {
    if steps != [] {
      NotFailed(t, steps[0]);
      hide Inv, AddressesRight, AddressesClear, AddressKept, Enabled, Apply;
      StepKeepsInv(t, steps[0]);
      StepKeepsAddresses(t, steps[0]);
      StepsKeepAddresses(Apply(t, steps[0]), steps[1..], u);
    }
  }

  /** In runs in which every event keeps addresses, the answer to a query by address is 1 exactly
      when a scan finds a live interface with the address that is not processing. */
  lemma AddressAnswerIsScan(steps: seq<Step>, t: Tables, address: string)
    requires StepsKept(Initial, steps, t) && !t.failed && address != ""
    ensures Answer(t, Mac(address)) <==> exists k :: HasAddress(t, k, address) && !t.sys[k].Processing()
  {
    StepsKeepAddresses(Initial, steps, t);
    hide Inv;
    RightAnswers(t, address);
  }

  lemma RightAnswers(t: Tables, address: string)
    requires AddressesRight(t) && address != ""
    ensures Answer(t, Mac(address)) <==> exists k :: HasAddress(t, k, address) && !t.sys[k].Processing()
  {
    LookupFinds(t.sys, t.mac, address);
    hide Lookup, FoundUnder;
    if k :| HasAddress(t, k, address) {
      assert Reads(t.sys, t.mac, k, address);
      assert HasAddress(t, Lookup(t.sys, t.mac, address).value, address);
      assert NobodyElseHas(t, k, address);
    }
  }

  // ---- Runs as one would expect them.

  /** Addresses are of one length, a live interface keeps its address or loses it, and an
      interface appears with an address that no other live one has. */
  ghost predicate PlainEvent(t: Tables, d: Udev, n: nat) {
    && (d.address.Some? ==> |d.address.value| == 0 || |d.address.value| == n)
    && if Key(d) in t.sys && !t.sys[Key(d)].Removed() then
         IsNetif(t.sys[Key(d)], UsbNumber(d)) ==> SameName(t.sys[Key(d)].mac, d.address) || d.address == None
       else d.address.Some? ==> NobodyElseHas(t, Key(d), d.address.value)
  }

  /** Nothing is filed under a name. */
  ghost predicate PlainFiled(t: Tables, n: nat) {
    forall f :: f in t.mac && f.text != "" ==> f.field == Address && |f.text| == n
  }

  ghost predicate StepsPlain(t: Tables, steps: seq<Step>, u: Tables, n: nat)
    decreases |steps|
  {
    if steps == [] then t == u
    else
      && Enabled(t, steps[0]) && (steps[0].Added? ==> PlainEvent(t, steps[0].device, n))
      && StepsPlain(Apply(t, steps[0]), steps[1..], u, n)
  }

  /** Whatever is found of the device's own is its whole address. */
  lemma PlainReads(t: Tables, mac: seq<Filing>, sys: map<string, Entry>, key: string, n: nat)
    requires PlainFiled(t, n) && (forall f :: f in mac ==> f in t.mac) && key in sys
    requires sys[key].mac == "" || |sys[key].mac| == n
    ensures OnlyReads(sys, mac, key, sys[key].mac)
  {
    forall f | f in mac && f.owner == key && FoundUnder(sys, f).Some?
      ensures FoundUnder(sys, f).value == "" || FoundUnder(sys, f).value == sys[key].mac
    {
      var a := FoundUnder(sys, f).value;
      assert a != "" ==> a <= sys[key].mac && |a| == n;
    }
  }

  lemma PlainAppears(t: Tables, d: Udev, n: nat)
    requires AddressesClear(t) && PlainFiled(t, n) && PlainEvent(t, d, n) && !(d.subsys == USB && d.ids == None)
    requires Key(d) in t.sys ==> t.sys[Key(d)].Removed()
    ensures AddressKept(t, d)
  {
    var e := FiledEntry(t, d);
    assert e.mac == "" || d.address == Some(e.mac);
    PlainReads(t, t.mac, t.sys[Key(d) := e], Key(d), n);
    hide OnlyReads, NobodyElseHas;
  }

  /** The address of a live interface is of the one length too, since it is filed. */
  lemma PlainLength(t: Tables, key: string, n: nat)
    requires AddressesRight(t) && AddressesClear(t) && PlainFiled(t, n) && key in t.sys && !t.sys[key].Removed()
    ensures t.sys[key].mac == "" || |t.sys[key].mac| == n
  {
    var a := t.sys[key].mac;
    if a != "" {
      assert HasAddress(t, key, a);
      assert Reads(t.sys, t.mac, key, a);
    }
  }

  lemma PlainStays(t: Tables, d: Udev, n: nat)
    requires AddressesRight(t) && AddressesClear(t) && PlainFiled(t, n) && PlainEvent(t, d, n)
    requires Key(d) in t.sys && !t.sys[Key(d)].Removed() && !(d.subsys == USB && d.ids == None)
    ensures AddressKept(t, d) && !Changes(t, d) && forall f :: f in Staying(t, d) ==> f in t.mac
  {
    var key, was, e := Key(d), t.sys[Key(d)], FiledEntry(t, d);
    EraseKeeps(t.sys[key := was.(name := e.name)], t.mac, was.mac);
    PlainLength(t, key, n);
    assert e.mac == "" || (e.mac == was.mac && Staying(t, d) == t.mac);
    hide Erase;
    PlainReads(t, Staying(t, d), t.sys[key := e], key, n);
    if e.mac != "" {
      assert HasAddress(t, key, e.mac);
      assert Reads(t.sys, t.mac, key, e.mac);
      var f :| f in t.mac && f.owner == key && FoundUnder(t.sys, f) == Some(e.mac);
      assert FoundUnder(t.sys[key := e], f) == Some(e.mac);
    }
  }

  lemma PlainAdd(t: Tables, d: Udev, n: nat, issue: Issue)
    requires Inv(t) && !t.failed && AddressesRight(t) && AddressesClear(t) && PlainFiled(t, n) && PlainEvent(t, d, n)
    ensures AddressKept(t, d) && PlainFiled(Add(t, d, issue), n)
  {
    if !(d.subsys == USB && d.ids == None) {
      AddIs(t, d, issue);
      FiledMacIs(t, d);
      hide Add, Filed, Inv, Staying, AddressesRight, AddressesClear, Changes, Lookup, NobodyElseHas;
      if Key(d) in t.sys && !t.sys[Key(d)].Removed() {
        PlainStays(t, d, n);
      } else {
        PlainAppears(t, d, n);
      }
    }
  }

  lemma PlainStep(t: Tables, step: Step, n: nat)
    requires Inv(t) && AddressesRight(t) && AddressesClear(t) && PlainFiled(t, n) && Enabled(t, step)
    requires step.Added? ==> PlainEvent(t, step.device, n)
    ensures (step.Added? ==> AddressKept(t, step.device)) && PlainFiled(Apply(t, step), n)
  {
    hide Inv, AddressesRight, AddressesClear, AddressKept, PlainEvent, Add, RequestChain.Apply, RequestChain.Reachable;
    match step
    case Added(d, issue) => PlainAdd(t, d, n, issue);
    case Deleted(d, issue) =>
      var u := Unplug(t, d.devnum).(present := t.present - {d.devnum});
      GoneHasLess(u, d.syspath, d, issue);
      if d.devnum != 0 && d.devnum in t.usb {
        GoneHasLess(u, u.sys[t.usb[d.devnum]].syspath, d, issue);
      }
      hide Gone;
    case _ =>
  }

  lemma {:induction false} PlainRunIsKept(t: Tables, steps: seq<Step>, u: Tables, n: nat)
    requires Inv(t) && (t.failed || (AddressesRight(t) && AddressesClear(t) && PlainFiled(t, n)))
    requires StepsPlain(t, steps, u, n)
    ensures StepsKept(t, steps, u)
    decreases |steps|
  {
    if steps != [] {
      NotFailed(t, steps[0]);
      hide Inv, AddressesRight, AddressesClear, AddressKept, PlainFiled, PlainEvent, Enabled, Apply;
      StepKeepsInv(t, steps[0]);
      PlainStep(t, steps[0], n);
      StepKeepsAddresses(t, steps[0]);
      PlainRunIsKept(Apply(t, steps[0]), steps[1..], u, n);
    }
  }

  /** So the answers are right as long as no interface changes its address while it is there and
      no two have the same one at a time. Addresses may move from one path to another, and
      interfaces may come back with other names and other addresses. */
  lemma PlainAnswerIsScan(steps: seq<Step>, t: Tables, n: nat, address: string)
    requires StepsPlain(Initial, steps, t, n) && !t.failed && address != ""
    ensures Answer(t, Mac(address)) <==> exists k :: HasAddress(t, k, address) && !t.sys[k].Processing()
  {
    PlainRunIsKept(Initial, steps, t, n);
    AddressAnswerIsScan(steps, t, address);
  }

  /** A wrong answer: an untagged interface appears and changes its address. It is there, at rest
      and the only device, and whoever asks for its address is told that it is not. */
  lemma WrongAddressAnswer(d: Udev, name: string, first: string, second: string, issue: Issue)
    returns (steps: seq<Step>, t: Tables)
    requires d.subsys == NET && !d.tag && d.sysname == Some(name) && name != "" && d.address == Some(first)
    requires second != first && second != name && second != ""
    ensures StepsNamed(Initial, steps, t) && !t.failed
    ensures HasAddress(t, d.syspath, second) && !t.sys[d.syspath].Processing()
    ensures FindDevice(t, Mac(second)) == None && !Answer(t, Mac(second))
  {
    var t1, d2 := Add(Initial, d, issue), d.(address := Some(second));
    FirstInterface(d, issue);
    t := Add(t1, d2, issue);
    SecondAddress(t1, d2, name, first, issue);
    steps := [Added(d, issue), Added(d2, issue)];
    FoundByName(t, name, second);
    hide OnlyInterface, Lookup;
    hide Add, RequestChain.HandleEvent;
    assert steps[1..] == [Added(d2, issue)] && steps[1..][1..] == [];
    assert StepsNamed(t1, steps[1..], t);
  }

  lemma FoundByName(t: Tables, name: string, address: string)
    requires |t.mac| == 1 && t.mac[0].owner in t.sys && t.sys[t.mac[0].owner].name == name && address != name
    requires t.mac[0].field == Name && t.mac[0].text == name
    ensures Lookup(t.sys, t.mac, address) == None
  {
    FoundAsFiled(t.sys, t.mac[0]);
    assert t.mac[1..] == [];
  }

  /** The one device is a live interface at rest, never tagged. */
  ghost predicate OnlyInterface(t: Tables, key: string, name: string, mac: string) {
    && t.sys.Keys == {key} && !t.failed && t.sys[key].subsys == NET && t.sys[key].name == name && t.sys[key].mac == mac
    && !t.sys[key].Removed() && !t.sys[key].Processing() && !t.sys[key].chain.dev.hasTag && !t.sys[key].chain.aborted
  }

  lemma FirstInterface(d: Udev, issue: Issue)
    requires d.subsys == NET && !d.tag && d.sysname.Some? && d.address.Some?
    ensures var t := Add(Initial, d, issue);
            OnlyInterface(t, d.syspath, d.sysname.value, d.address.value) && t.mac == [Filing(d.syspath, Address, d.address.value)]
  {
  }

  lemma SecondAddress(t: Tables, d: Udev, name: string, first: string, issue: Issue)
    requires OnlyInterface(t, d.syspath, name, first) && t.mac == [Filing(d.syspath, Address, first)]
    requires d.subsys == NET && !d.tag && d.sysname == Some(name) && d.address.Some?
    requires d.address.value != first && d.address.value != name
    ensures var u := Add(t, d, issue);
            OnlyInterface(u, d.syspath, name, d.address.value) && u.mac == [Filing(d.syspath, Name, name)]
  {
    var sys := t.sys[d.syspath := t.sys[d.syspath].(name := name)];
    FoundAsFiled(sys, t.mac[0]);
    assert Erase(sys, t.mac, first) == [];
  }
}
