/** The poll table of the device monitor and its client connections (early/helpers/devmon.cc):
    closed slots are marked first and taken out at the end of a round. */
module PollTable {
  import opened Text

  /** The slots of the signal pipe, the control socket, the two udev monitors and dinit. */
  const RESERVED := 5

  const CLOSED := -1

  /** A slot of `fds`; `serial` numbers the descriptors in the order they were added. */
  datatype Slot = Slot(fd: int, serial: nat)

  /** A connection record: its descriptor, and what the client has sent. */
  datatype Conn = Conn(fd: int, message: string)

  /** `added` are the descriptors that were ever added, in order. */
  datatype Table = Table(fds: seq<Slot>, conns: seq<Conn>, added: seq<int>)

  /** What becomes of a client that can be read from: it has sent more, or something bad, or
      it cannot be answered. */
  datatype Outcome = More(message: string) | Bad

  datatype Step =
    | Accept(fd: int)
    | WriteFails(conn: nat)
    | HangUp(slot: nat)
    | Readable(slot: nat, outcome: Outcome)
    | Compact

  /** Mark the first slot of the descriptor. */
  function Close(fds: seq<Slot>, fd: int): (r: seq<Slot>)
    ensures |r| == |fds|
  {
    if fds == [] then []
    else if fds[0].fd == fd then [fds[0].(fd := CLOSED)] + fds[1..]
    else [fds[0]] + Close(fds[1..], fd)
  }

  /** The first record of the descriptor, if it has one. */
  function FindConn(conns: seq<Conn>, fd: int): (r: Option<nat>)
    ensures r.Some? ==> r.value < |conns| && conns[r.value].fd == fd
    ensures r.Some? ==> forall j :: 0 <= j < r.value ==> conns[j].fd != fd
    ensures r.None? ==> forall j :: 0 <= j < |conns| ==> conns[j].fd != fd
  {
    if conns == [] then None
    else if conns[0].fd == fd then Some(0)
    else
      match FindConn(conns[1..], fd)
      case None => None
      case Some(i) => Some(i + 1)
  }

  function Without(conns: seq<Conn>, i: nat): seq<Conn>
    requires i < |conns|
  {
    conns[..i] + conns[i + 1..]
  }

  function OpenSlots(fds: seq<Slot>): (r: seq<Slot>)
    ensures |r| <= |fds|
  {
    if fds == [] then [] else (if fds[0].fd == CLOSED then [] else [fds[0]]) + OpenSlots(fds[1..])
  }

  function OpenConns(conns: seq<Conn>): (r: seq<Conn>)
    ensures |r| <= |conns|
  {
    if conns == [] then [] else (if conns[0].fd == CLOSED then [] else [conns[0]]) + OpenConns(conns[1..])
  }

  /** A record for the descriptor: the one there is, or a new one at the end. */
  function Connected(conns: seq<Conn>, fd: int): (r: seq<Conn>)
    ensures FindConn(r, fd).Some?
  {
    var r := if FindConn(conns, fd) == None then conns + [Conn(fd, "")] else conns;
    assert FindConn(conns, fd) == None ==> r[|conns|].fd == fd;
    r
  }

  ghost predicate Enabled(t: Table, step: Step) {
    match step
    case Accept(fd) => fd >= 0 && forall i :: 0 <= i < |t.fds| ==> t.fds[i].fd != fd
    case WriteFails(c) => c < |t.conns|
    case HangUp(i) => RESERVED <= i < |t.fds| && t.fds[i].fd != CLOSED
    case Readable(i, _) => RESERVED <= i < |t.fds| && t.fds[i].fd != CLOSED
    case Compact => true
  }

  function Apply(t: Table, step: Step): Table
    requires Enabled(t, step)
  {
    match step
    case Accept(fd) => t.(fds := t.fds + [Slot(fd, |t.added|)], added := t.added + [fd])
    case WriteFails(c) =>
      t.(fds := Close(t.fds, t.conns[c].fd), conns := t.conns[c := t.conns[c].(fd := CLOSED)])
    case HangUp(i) => t.(fds := t.fds[i := t.fds[i].(fd := CLOSED)])
    case Readable(i, outcome) =>
      var conns := Connected(t.conns, t.fds[i].fd);
      var c := FindConn(conns, t.fds[i].fd).value;
      if outcome.More? then t.(conns := conns[c := conns[c].(message := outcome.message)])
      else t.(conns := Without(conns, c), fds := t.fds[i := t.fds[i].(fd := CLOSED)])
    case Compact => t.(fds := OpenSlots(t.fds), conns := OpenConns(t.conns))
  }

  // ---- What every reachable table keeps.

  /** The reserved slots are still the first ones that were added, and open. */
  ghost predicate ReservedOk(t: Table, reserved: seq<int>) {
    && |reserved| == RESERVED <= |t.fds|
    && (forall i :: 0 <= i < RESERVED ==> t.fds[i] == Slot(reserved[i], i) && reserved[i] >= 0)
  }

  /** Slots are in the order in which they were added, and the open ones still have their
      descriptor. */
  ghost predicate InOrder(fds: seq<Slot>, added: seq<int>) {
    && (forall i, j :: 0 <= i < j < |fds| ==> fds[i].serial < fds[j].serial)
    && (forall i :: 0 <= i < |fds| ==> InPlace(fds[i], added))
  }

  ghost predicate InPlace(s: Slot, added: seq<int>) {
    s.serial < |added| && (s.fd == CLOSED || s.fd == added[s.serial])
  }

  /** No two open slots, and no two open records, have the same descriptor. */
  ghost predicate Distinct(fds: seq<Slot>) {
    forall i, j :: 0 <= i < j < |fds| && fds[i].fd != CLOSED ==> fds[i].fd != fds[j].fd
  }

  ghost predicate OneRecordEach(conns: seq<Conn>) {
    forall i, j :: 0 <= i < j < |conns| && conns[i].fd != CLOSED ==> conns[i].fd != conns[j].fd
  }

  /** Records are for clients, never for a reserved descriptor. */
  ghost predicate ClientsOnly(conns: seq<Conn>, reserved: seq<int>) {
    forall i :: 0 <= i < |conns| ==> conns[i].fd !in reserved
  }

  ghost predicate Descriptors(added: seq<int>) {
    forall i :: 0 <= i < |added| ==> added[i] >= 0
  }

  ghost predicate Inv(t: Table, reserved: seq<int>) {
    && ReservedOk(t, reserved) && InOrder(t.fds, t.added) && Distinct(t.fds)
    && OneRecordEach(t.conns) && ClientsOnly(t.conns, reserved) && Descriptors(t.added)
  }

  lemma {:induction false} CloseOne(fds: seq<Slot>, fd: int)
    ensures forall i :: 0 <= i < |fds| ==> (
                || Close(fds, fd)[i] == fds[i]
                || (fds[i].fd == fd && Close(fds, fd)[i] == fds[i].(fd := CLOSED)))
  {
    if fds != [] && fds[0].fd != fd {
      CloseOne(fds[1..], fd);
    }
  }

  /** Compaction keeps exactly the open slots. */
  lemma {:induction false} OpenSlotsKept(fds: seq<Slot>)
    ensures forall s :: s in OpenSlots(fds) <==> s in fds && s.fd != CLOSED
  {
    if fds != [] {
      OpenSlotsKept(fds[1..]);
      assert fds == [fds[0]] + fds[1..];
    }
  }

  lemma {:induction false} OpenConnsKept(conns: seq<Conn>)
    ensures forall c :: c in OpenConns(conns) <==> c in conns && c.fd != CLOSED
  {
    if conns != [] {
      OpenConnsKept(conns[1..]);
      assert conns == [conns[0]] + conns[1..];
    }
  }

  lemma {:induction false} OpenSlotsInOrder(fds: seq<Slot>, added: seq<int>)
    requires InOrder(fds, added)
    ensures InOrder(OpenSlots(fds), added)
  {
    if fds != [] {
      OpenSlotsInOrder(fds[1..], added);
      OpenSlotsKept(fds[1..]);
      hide InPlace;
      var rest := OpenSlots(fds[1..]);
      forall k | 0 <= k < |rest|
        ensures fds[0].serial < rest[k].serial
      {
        assert rest[k] in fds[1..];
      }
    }
  }

  lemma {:induction false} OpenSlotsDistinct(fds: seq<Slot>)
    requires Distinct(fds)
    ensures Distinct(OpenSlots(fds))
  {
    if fds != [] {
      OpenSlotsDistinct(fds[1..]);
      OpenSlotsKept(fds[1..]);
      var rest := OpenSlots(fds[1..]);
      forall k | 0 <= k < |rest|
        ensures fds[0].fd != CLOSED ==> fds[0].fd != rest[k].fd
      {
        assert rest[k] in fds[1..];
      }
    }
  }

  lemma {:induction false} OpenConnsDistinct(conns: seq<Conn>)
    requires OneRecordEach(conns)
    ensures OneRecordEach(OpenConns(conns))
  {
    if conns != [] {
      OpenConnsDistinct(conns[1..]);
      OpenConnsKept(conns[1..]);
      var rest := OpenConns(conns[1..]);
      forall k | 0 <= k < |rest|
        ensures conns[0].fd != CLOSED ==> conns[0].fd != rest[k].fd
      {
        assert rest[k] in conns[1..];
      }
    }
  }

  /** The first slots, when open, stay where they are. */
  lemma {:induction false} OpenPrefixStays(fds: seq<Slot>, n: nat)
    requires n <= |fds| && forall i :: 0 <= i < n ==> fds[i].fd != CLOSED
    ensures n <= |OpenSlots(fds)| && OpenSlots(fds)[..n] == fds[..n]
  {
    if n > 0 {
      OpenPrefixStays(fds[1..], n - 1);
      assert OpenSlots(fds) == [fds[0]] + OpenSlots(fds[1..]);
      assert fds[..n] == [fds[0]] + fds[1..][..n - 1];
      assert OpenSlots(fds)[..n] == [fds[0]] + OpenSlots(fds[1..])[..n - 1];
    }
  }

  lemma CompactKeepsInv(t: Table, reserved: seq<int>)
    requires Inv(t, reserved)
    ensures Inv(Apply(t, Compact), reserved)
  {
    var u := Apply(t, Compact);
    OpenSlotsInOrder(t.fds, t.added);
    OpenSlotsDistinct(t.fds);
    OpenConnsDistinct(t.conns);
    OpenConnsKept(t.conns);
    OpenPrefixStays(t.fds, RESERVED);
    assert forall i :: 0 <= i < RESERVED ==> u.fds[i] == u.fds[..RESERVED][i] == t.fds[..RESERVED][i];
    assert forall i :: 0 <= i < |u.conns| ==> u.conns[i] in t.conns;
  }

  lemma WriteFailsKeepsInv(t: Table, reserved: seq<int>, c: nat)
    requires Inv(t, reserved) && c < |t.conns|
    ensures Inv(Apply(t, WriteFails(c)), reserved)
  {
    CloseOne(t.fds, t.conns[c].fd);
    hide Close;
    MarkedKeepsSlots(t.fds, Close(t.fds, t.conns[c].fd), t.added);
    assert forall i :: 0 <= i < RESERVED ==> t.fds[i].fd in reserved;
    assert CLOSED !in reserved;
    hide InOrder, Distinct, InPlace;
  }

  lemma MarkedKeepsSlots(fds: seq<Slot>, marked: seq<Slot>, added: seq<int>)
    requires InOrder(fds, added) && Distinct(fds) && |marked| == |fds|
    requires forall i :: 0 <= i < |fds| ==> marked[i] == fds[i] || marked[i] == fds[i].(fd := CLOSED)
    ensures InOrder(marked, added) && Distinct(marked)
  {
  }

  lemma ReadableKeepsInv(t: Table, reserved: seq<int>, i: nat, outcome: Outcome)
    requires Inv(t, reserved) && Enabled(t, Readable(i, outcome))
    ensures Inv(Apply(t, Readable(i, outcome)), reserved)
  {
    var conns := Connected(t.conns, t.fds[i].fd);
    assert t.fds[i].fd !in reserved by {
      assert forall k :: 0 <= k < RESERVED ==> t.fds[k].fd != t.fds[i].fd;
    }
    assert OneRecordEach(conns) && ClientsOnly(conns, reserved);
    if outcome.Bad? {
      var c := FindConn(conns, t.fds[i].fd).value;
      WithoutKeeps(conns, c, reserved);
    }
  }

  lemma WithoutKeeps(conns: seq<Conn>, c: nat, reserved: seq<int>)
    requires OneRecordEach(conns) && ClientsOnly(conns, reserved) && c < |conns|
    ensures OneRecordEach(Without(conns, c)) && ClientsOnly(Without(conns, c), reserved)
  {
    assert forall k :: 0 <= k < |Without(conns, c)| ==> Without(conns, c)[k] == conns[if k < c then k else k + 1];
  }

  lemma AcceptKeepsInv(t: Table, reserved: seq<int>, fd: int)
    requires Inv(t, reserved) && Enabled(t, Accept(fd))
    ensures Inv(Apply(t, Accept(fd)), reserved)
  {
  }

  lemma HangUpKeepsInv(t: Table, reserved: seq<int>, i: nat)
    requires Inv(t, reserved) && Enabled(t, HangUp(i))
    ensures Inv(Apply(t, HangUp(i)), reserved)
  {
  }

  lemma StepKeepsInv(t: Table, reserved: seq<int>, step: Step)
    requires Inv(t, reserved) && Enabled(t, step)
    ensures Inv(Apply(t, step), reserved)
  {
    hide Inv, Apply;
    match step
    case Accept(fd) => AcceptKeepsInv(t, reserved, fd);
    case HangUp(i) => HangUpKeepsInv(t, reserved, i);
    case WriteFails(c) => WriteFailsKeepsInv(t, reserved, c);
    case Readable(i, outcome) => ReadableKeepsInv(t, reserved, i, outcome);
    case Compact => CompactKeepsInv(t, reserved);
  }

  // ---- Runs.

  /** The table as the main loop finds it. */
  function Start(reserved: seq<int>): Table {
    Table(seq(|reserved|, i requires 0 <= i < |reserved| => Slot(reserved[i], i)), [], reserved)
  }

  /** Five open descriptors, all different. */
  predicate Reserves(reserved: seq<int>) {
    |reserved| == RESERVED && (forall i :: 0 <= i < RESERVED ==> reserved[i] >= 0)
    && forall i, j :: 0 <= i < j < RESERVED ==> reserved[i] != reserved[j]
  }

  ghost predicate Steps(t: Table, steps: seq<Step>, u: Table)
    decreases |steps|
  {
    if steps == [] then t == u else Enabled(t, steps[0]) && Steps(Apply(t, steps[0]), steps[1..], u)
  }

  ghost predicate Reachable(reserved: seq<int>, t: Table) {
    Reserves(reserved) && exists steps :: Steps(Start(reserved), steps, t)
  }

  lemma {:induction false} StepsKeepInv(t: Table, reserved: seq<int>, steps: seq<Step>, u: Table)
    requires Inv(t, reserved) && Steps(t, steps, u)
    ensures Inv(u, reserved)
    decreases |steps|
  {
    hide Inv, Enabled, Apply;
    if steps != [] {
      StepKeepsInv(t, reserved, steps[0]);
      StepsKeepInv(Apply(t, steps[0]), reserved, steps[1..], u);
    }
  }

  lemma ReachableOk(reserved: seq<int>, t: Table)
    requires Reachable(reserved, t)
    ensures Inv(t, reserved)
  {
    var steps :| Steps(Start(reserved), steps, t);
    StepsKeepInv(Start(reserved), reserved, steps, t);
  }

  /** Through any sequence of accepts, failing writes, hang-ups, messages and compactions, the
      reserved slots are open and in their places, and the slots after them are in the order in
      which the clients came, each open or marked. */
  lemma SlotsKeepTheirOrder(reserved: seq<int>, t: Table)
    requires Reachable(reserved, t)
    ensures RESERVED <= |t.fds| && forall i :: 0 <= i < RESERVED ==> t.fds[i].fd == reserved[i]
    ensures forall i, j :: 0 <= i < j < |t.fds| ==> t.fds[i].serial < t.fds[j].serial
    ensures forall i :: 0 <= i < |t.fds| ==> InPlace(t.fds[i], t.added)
  {
    ReachableOk(reserved, t);
  }

  /** No descriptor has two open slots or two records. */
  lemma DescriptorsAreDistinct(reserved: seq<int>, t: Table)
    requires Reachable(reserved, t)
    ensures Distinct(t.fds) && OneRecordEach(t.conns)
  {
    ReachableOk(reserved, t);
  }

  /** Compaction leaves nothing marked, and loses nothing else. */
  lemma CompactLeavesOpen(t: Table)
    ensures forall s :: s in Apply(t, Compact).fds <==> s in t.fds && s.fd != CLOSED
    ensures forall c :: c in Apply(t, Compact).conns <==> c in t.conns && c.fd != CLOSED
  {
    OpenSlotsKept(t.fds);
    OpenConnsKept(t.conns);
  }

  predicate HasRecord(conns: seq<Conn>, fd: int) {
    FindConn(conns, fd).Some?
  }

  // ---- Records of descriptors that are no longer open.

  /** Some slot of the descriptor is open. */
  ghost predicate HasSlot(fds: seq<Slot>, fd: int) {
    exists i :: 0 <= i < |fds| && fds[i].fd == fd
  }

  /** Every record is for an open descriptor. */
  ghost predicate RecordsOpen(t: Table) {
    forall c :: 0 <= c < |t.conns| && t.conns[c].fd != CLOSED ==> HasSlot(t.fds, t.conns[c].fd)
  }

  /** Slots of other descriptors stay. */
  lemma MarkedOnly(fds: seq<Slot>, marked: seq<Slot>, fd: int, other: int)
    requires |marked| == |fds| && other != fd && HasSlot(fds, other)
    requires forall i :: 0 <= i < |fds| ==> marked[i] == fds[i] || fds[i].fd == fd
    ensures HasSlot(marked, other)
  {
    var i :| 0 <= i < |fds| && fds[i].fd == other;
    assert marked[i].fd == other;
  }

  lemma AcceptKeepsRecords(t: Table, fd: int)
    requires RecordsOpen(t) && Enabled(t, Accept(fd))
    ensures RecordsOpen(Apply(t, Accept(fd)))
  {
    var u := Apply(t, Accept(fd));
    forall c | 0 <= c < |u.conns| && u.conns[c].fd != CLOSED
      ensures HasSlot(u.fds, u.conns[c].fd)
    {
      var i :| 0 <= i < |t.fds| && t.fds[i].fd == t.conns[c].fd;
      assert u.fds[i].fd == u.conns[c].fd;
    }
  }

  lemma WriteFailsKeepsRecords(t: Table, c: nat)
    requires RecordsOpen(t) && OneRecordEach(t.conns) && c < |t.conns|
    ensures RecordsOpen(Apply(t, WriteFails(c)))
  {
    var u, fd := Apply(t, WriteFails(c)), t.conns[c].fd;
    CloseOne(t.fds, fd);
    forall d | 0 <= d < |u.conns| && u.conns[d].fd != CLOSED
      ensures HasSlot(u.fds, u.conns[d].fd)
    {
      assert d != c && t.conns[d].fd != fd;
      MarkedOnly(t.fds, u.fds, fd, t.conns[d].fd);
    }
  }

  lemma HangUpRecordsIff(t: Table, i: nat)
    requires RecordsOpen(t) && Distinct(t.fds) && Enabled(t, HangUp(i))
    ensures RecordsOpen(Apply(t, HangUp(i))) <==> !HasRecord(t.conns, t.fds[i].fd)
  {
    var u, fd := Apply(t, HangUp(i)), t.fds[i].fd;
    if HasRecord(t.conns, fd) {
      assert !HasSlot(u.fds, fd);
      assert u.conns[FindConn(t.conns, fd).value].fd == fd;
    } else {
      forall d | 0 <= d < |u.conns| && u.conns[d].fd != CLOSED
        ensures HasSlot(u.fds, u.conns[d].fd)
      {
        MarkedOnly(t.fds, u.fds, fd, t.conns[d].fd);
      }
    }
  }

  lemma ReadableKeepsRecords(t: Table, reserved: seq<int>, i: nat, outcome: Outcome)
    requires RecordsOpen(t) && Inv(t, reserved) && Enabled(t, Readable(i, outcome))
    ensures RecordsOpen(Apply(t, Readable(i, outcome)))
  {
    var u, fd := Apply(t, Readable(i, outcome)), t.fds[i].fd;
    var conns := Connected(t.conns, fd);
    var c := FindConn(conns, fd).value;
    assert HasSlot(t.fds, fd);
    assert forall d :: 0 <= d < |conns| && conns[d].fd != CLOSED ==> HasSlot(t.fds, conns[d].fd);
    if outcome.Bad? {
      ReadableKeepsInv(t, reserved, i, outcome);
      assert OneRecordEach(conns);
      forall d | 0 <= d < |u.conns| && u.conns[d].fd != CLOSED
        ensures HasSlot(u.fds, u.conns[d].fd)
      {
        assert u.conns[d] == conns[if d < c then d else d + 1];
        MarkedOnly(t.fds, u.fds, fd, u.conns[d].fd);
      }
    }
  }

  lemma CompactKeepsRecords(t: Table)
    requires RecordsOpen(t)
    ensures RecordsOpen(Apply(t, Compact))
  {
    var u := Apply(t, Compact);
    OpenSlotsKept(t.fds);
    OpenConnsKept(t.conns);
    forall d | 0 <= d < |u.conns|
      ensures HasSlot(u.fds, u.conns[d].fd)
    {
      assert u.conns[d] in t.conns;
      var c :| 0 <= c < |t.conns| && t.conns[c] == u.conns[d];
      var i :| 0 <= i < |t.fds| && t.fds[i].fd == t.conns[c].fd;
      assert t.fds[i] in u.fds;
    }
  }

  /** The one step that leaves a record behind whose descriptor is not open is the hang-up of a
      client that has one. */
  lemma RecordOutlivesHangUpOnly(reserved: seq<int>, t: Table, step: Step)
    requires Reachable(reserved, t) && RecordsOpen(t) && Enabled(t, step)
    ensures RecordsOpen(Apply(t, step)) <==> !(step.HangUp? && HasRecord(t.conns, t.fds[step.slot].fd))
  {
    ReachableOk(reserved, t);
    hide RecordsOpen, Apply, HasRecord;
    match step
    case Accept(fd) => AcceptKeepsRecords(t, fd);
    case WriteFails(c) => WriteFailsKeepsRecords(t, c);
    case HangUp(i) => HangUpRecordsIff(t, i);
    case Readable(i, outcome) => ReadableKeepsRecords(t, reserved, i, outcome);
    case Compact => CompactKeepsRecords(t);
  }

  /** A client that sends something bad, or cannot be written to, loses its slot and its record; one
      that hangs up loses its slot; and no other open slot or record goes. */
  lemma FailureClosesClient(reserved: seq<int>, t: Table, step: Step, fd: int)
    requires Reachable(reserved, t) && Enabled(t, step) && fd != CLOSED
    requires match step
             case Readable(i, outcome) => outcome == Bad && t.fds[i].fd == fd
             case WriteFails(c) => t.conns[c].fd == fd
             case HangUp(i) => t.fds[i].fd == fd
             case _ => false
    ensures var u := Apply(t, step);
            && !HasSlot(u.fds, fd) && (!step.HangUp? ==> !HasRecord(u.conns, fd))
            && (forall other :: other != fd && other != CLOSED && HasSlot(t.fds, other) ==> HasSlot(u.fds, other))
            && (forall other :: other != fd && other != CLOSED && HasRecord(t.conns, other) ==> HasRecord(u.conns, other))
  {
    ReachableOk(reserved, t);
    match step
    case Readable(i, _) => BadClosesClient(t, reserved, i);
    case WriteFails(c) => WriteFailureClosesClient(t, reserved, c);
    case HangUp(i) => HangUpClosesSlot(t, reserved, i);
  }

  lemma HangUpClosesSlot(t: Table, reserved: seq<int>, i: nat)
    requires Inv(t, reserved) && Enabled(t, HangUp(i))
    ensures var u, fd := Apply(t, HangUp(i)), t.fds[i].fd;
            && !HasSlot(u.fds, fd) && u.conns == t.conns
            && (forall other :: other != fd && other != CLOSED && HasSlot(t.fds, other) ==> HasSlot(u.fds, other))
  {
    var u, fd := Apply(t, HangUp(i)), t.fds[i].fd;
    forall other | other != fd && other != CLOSED && HasSlot(t.fds, other)
      ensures HasSlot(u.fds, other)
    {
      MarkedOnly(t.fds, u.fds, fd, other);
    }
  }

  lemma BadClosesClient(t: Table, reserved: seq<int>, i: nat)
    requires Inv(t, reserved) && Enabled(t, Readable(i, Bad))
    ensures var u, fd := Apply(t, Readable(i, Bad)), t.fds[i].fd;
            && !HasSlot(u.fds, fd) && !HasRecord(u.conns, fd)
            && (forall other :: other != fd && other != CLOSED && HasSlot(t.fds, other) ==> HasSlot(u.fds, other))
            && (forall other :: other != fd && other != CLOSED && HasRecord(t.conns, other) ==> HasRecord(u.conns, other))
  {
    var u, fd := Apply(t, Readable(i, Bad)), t.fds[i].fd;
    HangUpClosesSlot(t, reserved, i);
    var conns := Connected(t.conns, fd);
    var c := FindConn(conns, fd).value;
    ConnectedKeepsOne(t, reserved, i);
    forall d | 0 <= d < |u.conns|
      ensures u.conns[d].fd != fd
    {
      assert u.conns[d] == conns[if d < c then d else d + 1];
    }
    forall other | other != fd && other != CLOSED && HasRecord(t.conns, other)
      ensures HasRecord(u.conns, other)
    {
      var j := FindConn(t.conns, other).value;
      assert conns[j].fd == other && j != c;
      assert u.conns[if j < c then j else j - 1].fd == other;
    }
  }

  lemma ConnectedKeepsOne(t: Table, reserved: seq<int>, i: nat)
    requires Inv(t, reserved) && Enabled(t, Readable(i, Bad))
    ensures OneRecordEach(Connected(t.conns, t.fds[i].fd))
  {
  }

  lemma WriteFailureClosesClient(t: Table, reserved: seq<int>, c: nat)
    requires Inv(t, reserved) && Enabled(t, WriteFails(c)) && t.conns[c].fd != CLOSED
    ensures var u, fd := Apply(t, WriteFails(c)), t.conns[c].fd;
            && !HasSlot(u.fds, fd) && !HasRecord(u.conns, fd)
            && (forall other :: other != fd && other != CLOSED && HasSlot(t.fds, other) ==> HasSlot(u.fds, other))
            && (forall other :: other != fd && other != CLOSED && HasRecord(t.conns, other) ==> HasRecord(u.conns, other))
  {
    var u, fd := Apply(t, WriteFails(c)), t.conns[c].fd;
    CloseOne(t.fds, fd);
    CloseAll(t.fds, fd);
    forall other | other != fd && other != CLOSED && HasSlot(t.fds, other)
      ensures HasSlot(u.fds, other)
    {
      MarkedOnly(t.fds, u.fds, fd, other);
    }
    forall other | other != fd && other != CLOSED && HasRecord(t.conns, other)
      ensures HasRecord(u.conns, other)
    {
      var j := FindConn(t.conns, other).value;
      assert u.conns[j].fd == other;
    }
  }

  /** Marking the first slot of a descriptor leaves none, when no two have the same one. */
  lemma {:induction false} CloseAll(fds: seq<Slot>, fd: int)
    requires Distinct(fds) && fd != CLOSED
    ensures !HasSlot(Close(fds, fd), fd)
  {
    if fds != [] {
      if fds[0].fd == fd {
        assert forall j :: 0 < j < |fds| ==> fds[j].fd != fd;
      } else {
        CloseAll(fds[1..], fd);
        var rest := Close(fds[1..], fd);
        assert Close(fds, fd) == [fds[0]] + rest;
        assert forall j :: 0 <= j < |rest| ==> rest[j].fd != fd;
      }
    }
  }

  /** A client that hung up, and the next one with the same descriptor, accepted after compaction:
      when it sends something, that is taken up where the other had left off, in its record. */
  lemma NextClientGetsRecord(reserved: seq<int>, t: Table, i: nat) returns (u: Table, slot: nat)
    requires Reachable(reserved, t) && Enabled(t, HangUp(i)) && HasRecord(t.conns, t.fds[i].fd)
    ensures Steps(t, [HangUp(i), Compact, Accept(t.fds[i].fd)], u)
    ensures Enabled(u, Readable(slot, Bad)) && u.fds[slot].fd == t.fds[i].fd && u.fds[slot].serial == |t.added|
    ensures HasRecord(u.conns, t.fds[i].fd)
         && u.conns[FindConn(u.conns, t.fds[i].fd).value] == t.conns[FindConn(t.conns, t.fds[i].fd).value]
  {
    ReachableOk(reserved, t);
    var fd := t.fds[i].fd;
    var t1 := Apply(t, HangUp(i));
    var t2 := Apply(t1, Compact);
    StepKeepsInv(t, reserved, HangUp(i));
    StepKeepsInv(t1, reserved, Compact);
    OpenSlotsKept(t1.fds);
    assert forall k :: 0 <= k < |t2.fds| ==> t2.fds[k].fd != fd by {
      forall k | 0 <= k < |t2.fds|
        ensures t2.fds[k].fd != fd
      {
        assert t2.fds[k] in t1.fds;
      }
    }
    var added := t.fds[i];
    assert fd >= 0 by {
      assert InPlace(added, t.added);
    }
    u := Apply(t2, Accept(fd));
    slot := |t2.fds|;
    RecordCompacted(t1.conns, fd);
    StepsThree(t, HangUp(i), Compact, Accept(fd), t1, t2, u);
  }

  lemma RecordCompacted(conns: seq<Conn>, fd: int)
    requires OneRecordEach(conns) && fd != CLOSED && HasRecord(conns, fd)
    ensures HasRecord(OpenConns(conns), fd)
    ensures OpenConns(conns)[FindConn(OpenConns(conns), fd).value] == conns[FindConn(conns, fd).value]
  {
    OpenConnsKept(conns);
    var open, c := OpenConns(conns), FindConn(conns, fd).value;
    assert conns[c] in open;
    var k :| 0 <= k < |open| && open[k] == conns[c];
    assert open[k].fd == fd;
    var found := FindConn(open, fd).value;
    assert open[found] in conns;
    var j :| 0 <= j < |conns| && conns[j] == open[found];
    assert j == c;
  }

  lemma StepsThree(t: Table, a: Step, b: Step, c: Step, t1: Table, t2: Table, t3: Table)
    requires Enabled(t, a) && t1 == Apply(t, a) && Enabled(t1, b) && t2 == Apply(t1, b) && Enabled(t2, c) && t3 == Apply(t2, c)
    ensures Steps(t, [a, b, c], t3)
  {
    hide Enabled, Apply;
    assert [a, b, c][1..] == [b, c] && [b, c][1..] == [c] && [c][1..] == [];
    assert Steps(t2, [c], t3);
    assert Steps(t1, [b, c], t3);
  }

  // ---- The loops that do this in place.

  lemma {:induction false} CloseAt(fds: seq<Slot>, fd: int, i: nat)
    requires i <= |fds| && (forall j :: 0 <= j < i ==> fds[j].fd != fd) && (i < |fds| ==> fds[i].fd == fd)
    ensures Close(fds, fd) == if i < |fds| then fds[i := fds[i].(fd := CLOSED)] else fds
  {
    if i > 0 {
      CloseAt(fds[1..], fd, i - 1);
    }
  }

  lemma {:induction false} EraseSlot(fds: seq<Slot>, i: nat)
    requires i < |fds| && fds[i].fd == CLOSED
    ensures OpenSlots(fds[..i] + fds[i + 1..]) == OpenSlots(fds)
  {
    var rest := fds[..i] + fds[i + 1..];
    if i == 0 {
      assert rest == fds[1..];
    } else {
      EraseSlot(fds[1..], i - 1);
      assert rest[1..] == fds[1..][..i - 1] + fds[1..][i..];
    }
  }

  lemma {:induction false} EraseConn(conns: seq<Conn>, i: nat)
    requires i < |conns| && conns[i].fd == CLOSED
    ensures OpenConns(Without(conns, i)) == OpenConns(conns)
  {
    var rest := Without(conns, i);
    if i == 0 {
      assert rest == conns[1..];
    } else {
      EraseConn(conns[1..], i - 1);
      assert rest[1..] == Without(conns[1..], i - 1);
    }
  }

  lemma {:induction false} AllConnsOpen(conns: seq<Conn>)
    requires forall i :: 0 <= i < |conns| ==> conns[i].fd != CLOSED
    ensures OpenConns(conns) == conns
  {
    if conns != [] {
      AllConnsOpen(conns[1..]);
    }
  }

  /** `fds` and `conns`, with the parts of the main loop that change them. */
  class Poll {
    var fds: seq<Slot>
    var conns: seq<Conn>
    var added: seq<int>

    ghost function At(): Table
      reads this
    {
      Table(fds, conns, added)
    }

    constructor (reserved: seq<int>)
      ensures At() == Start(reserved)
    {
      fds := seq(|reserved|, i requires 0 <= i < |reserved| => Slot(reserved[i], i));
      conns, added := [], reserved;
    }

    method AcceptClient(fd: int)
      requires Enabled(At(), Accept(fd))
      modifies this
      ensures At() == Apply(old(At()), Accept(fd))
    {
      fds := fds + [Slot(fd, |added|)];
      added := added + [fd];
    }

    /** `write_conn` */
    method WriteConn(c: nat, written: bool)
      requires c < |conns|
      modifies this`fds, this`conns
      ensures At() == if written then old(At()) else Apply(old(At()), WriteFails(c))
    {
      if written {
        return;
      }
      var i := 0;
      while i < |fds| && fds[i].fd != conns[c].fd
        invariant i <= |fds| && forall j :: 0 <= j < i ==> fds[j].fd != conns[c].fd
      {
        i := i + 1;
      }
      CloseAt(fds, conns[c].fd, i);
      if i < |fds| {
        fds := fds[i := fds[i].(fd := CLOSED)];
      }
      conns := conns[c := conns[c].(fd := CLOSED)];
    }

    /** Looking up the connection of a descriptor; `|conns|` when it has none. */
    method Lookup(fd: int) returns (c: nat)
      ensures c == if FindConn(conns, fd).Some? then FindConn(conns, fd).value else |conns|
    {
      c := 0;
      while c < |conns| && conns[c].fd != fd
        invariant c <= |conns| && forall j :: 0 <= j < c ==> conns[j].fd != fd
      {
        c := c + 1;
      }
    }

    method HangUpClient(i: nat)
      requires Enabled(At(), HangUp(i))
      modifies this`fds
      ensures At() == Apply(old(At()), HangUp(i))
    {
      fds := fds[i := fds[i].(fd := CLOSED)];
    }

    /** A client that can be read from. */
    method ServeClient(i: nat, outcome: Outcome)
      requires Enabled(At(), Readable(i, outcome))
      modifies this`fds, this`conns
      ensures At() == Apply(old(At()), Readable(i, outcome))
    {
      var fd := fds[i].fd;
      var c := Lookup(fd);
      if c == |conns| {
        NewestFound(conns, fd);
        conns := conns + [Conn(fd, "")];
      }
      assert conns == Connected(old(conns), fd) && c == FindConn(conns, fd).value;
      match outcome
      case More(message) =>
        conns := conns[c := conns[c].(message := message)];
      case Bad =>
        var first := Lookup(fd);
        conns := conns[..first] + conns[first + 1..];
        fds := fds[i := fds[i].(fd := CLOSED)];
    }

    /** `do_compact` */
    method CompactAll()
      modifies this`fds, this`conns
      ensures At() == Apply(old(At()), Compact)
    {
      var i := 0;
      while i < |fds|
        invariant i <= |fds| && forall j :: 0 <= j < i ==> fds[j].fd != CLOSED
        invariant OpenSlots(fds) == OpenSlots(old(fds)) && conns == old(conns)
        decreases |fds| - i
      {
        if fds[i].fd == CLOSED {
          EraseSlot(fds, i);
          fds := fds[..i] + fds[i + 1..];
        } else {
          i := i + 1;
        }
      }
      OpenPrefixStays(fds, |fds|);
      assert OpenSlots(fds)[..|fds|] == OpenSlots(fds);
      i := 0;
      while i < |conns|
        invariant i <= |conns| && forall j :: 0 <= j < i ==> conns[j].fd != CLOSED
        invariant OpenConns(conns) == OpenConns(old(conns)) && fds == OpenSlots(old(fds))
        decreases |conns| - i
      {
        if conns[i].fd == CLOSED {
          EraseConn(conns, i);
          conns := conns[..i] + conns[i + 1..];
        } else {
          i := i + 1;
        }
      }
      AllConnsOpen(conns);
    }
  }

  lemma NewestFound(conns: seq<Conn>, fd: int)
    requires FindConn(conns, fd) == None
    ensures FindConn(conns + [Conn(fd, "")], fd) == Some(|conns|)
  {
    var r := conns + [Conn(fd, "")];
    assert r[|conns|].fd == fd;
    assert forall j :: 0 <= j < |conns| ==> r[j].fd != fd;
  }
}
