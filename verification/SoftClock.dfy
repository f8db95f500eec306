/** The software clock (early/helpers/swclock.cc): at shutdown the distance between the system
    clock and the real-time clock is saved, at start it is added to the real-time clock. */
module SoftClock {
  import opened Text
  import opened Numbers

  datatype Zone = Utc | Localtime

  /** A 64-bit `time_t` as an unsigned number, and back. */
  function Unsigned(t: int): (n: nat)
    ensures n < TWO64
  {
    t % TWO64
  }

  function Signed(n: nat): int {
    if n % TWO64 < TWO63 then n % TWO64 else n % TWO64 - TWO64
  }

  /** `convert_localtime`; `local` is what gmtime and mktime make of the number. */
  function Converted(zone: Zone, epoch: nat, local: Option<nat>): Option<nat> {
    if zone == Utc then Some(epoch) else local
  }

  /** What the real-time clock shows, if it can be read and converted. */
  function Epoch(rtc: Option<string>, zone: Zone, local: Option<nat>): Option<nat> {
    if Number(rtc).Some? then Converted(zone, Number(rtc).value, local) else None
  }

  function Sum(offset: Option<string>, epoch: Option<nat>): Option<int> {
    if offset.None? || epoch.None? || Number(offset).None? then None
    else Some(Signed((epoch.value + Number(offset).value) % TWO64))
  }

  /** The time that the saved offset makes of the real-time clock, if both can be read. */
  function FromOffset(offset: Option<string>, rtc: Option<string>, zone: Zone, local: Option<nat>): Option<int> {
    Sum(offset, Epoch(rtc, zone, local))
  }

  /** The clock after `do_start`: set from the offset, or else from the timestamp, but never
      back. */
  function Started(now: int, offset: Option<string>, timestamp: Option<int>, rtc: Option<string>, zone: Zone,
                   local: Option<nat>): int
  {
    var t := FromOffset(offset, rtc, zone, local);
    if t.Some? && t.value >= now then t.value
    else if timestamp.Some? && timestamp.value >= now then timestamp.value
    else now
  }

  function Distance(now: int, epoch: Option<nat>): Option<string> {
    if epoch.None? || Unsigned(now) <= epoch.value then None else Some(Decimal(Unsigned(now) - epoch.value))
  }

  /** The offset file after `do_stop`. */
  function SavedOffset(now: int, rtc: Option<string>, zone: Zone, local: Option<nat>): Option<string> {
    Distance(now, Epoch(rtc, zone, local))
  }

  /** Which of the calls on the files work when the clock is saved. */
  datatype StopCalls = StopCalls(opensOffset: bool, buffersOffset: bool, opensStamp: bool, setsTimes: bool)

  predicate SavesOffset(now: int, rtc: Option<string>, zone: Zone, local: Option<nat>, calls: StopCalls) {
    SavedOffset(now, rtc, zone, local).Some? ==> calls.opensOffset && calls.buffersOffset
  }

  /** The system clock and the two files, as the two commands work on them. */
  class Clock {
    var now: int
    var timestamp: Option<int>
    var offset: Option<string>

    constructor (now: int)
      ensures this.now == now && timestamp == None && offset == None
    {
      this.now, timestamp, offset := now, None, None;
    }

    /** `do_start` up to `regular_set`: the time to set, if the offset gives one. */
    method TryOffset(rtc: Option<string>, zone: Zone, local: Option<nat>) returns (t: Option<int>)
      ensures t == (if FromOffset(offset, rtc, zone, local).Some? && FromOffset(offset, rtc, zone, local).value >= now
                    then FromOffset(offset, rtc, zone, local) else None)
    {
      t := None;
      if offset == None || rtc == None {
        return;
      }
      var parsed := Number(rtc);
      if parsed == None {
        return;
      }
      var epoch := Converted(zone, parsed.value, local);
      if epoch == None {
        return;
      }
      var distance := Number(offset);
      if distance == None {
        return;
      }
      var sum := (epoch.value + distance.value) % TWO64;
      if Signed(sum) < now {
        return;
      }
      return Some(Signed(sum));
    }

    /** `do_start` */
    method DoStart(rtc: Option<string>, zone: Zone, local: Option<nat>)
      modifies this`now
      ensures now == Started(old(now), offset, timestamp, rtc, zone, local)
    {
      var t := TryOffset(rtc, zone, local);
      hide FromOffset;
      if t == None {
        if timestamp == None || timestamp.value < now {
          return;
        }
        t := timestamp;
      }
      now := t.value;
    }

    /** `do_stop`, which gives up when a call on one of the files fails. */
    method DoStop(rtc: Option<string>, zone: Zone, local: Option<nat>, calls: StopCalls) returns (ok: bool)
      modifies this`offset, this`timestamp
      ensures ok <==> SavesOffset(now, rtc, zone, local, calls) && calls.opensStamp && calls.setsTimes
      ensures offset == if SavesOffset(now, rtc, zone, local, calls) then SavedOffset(now, rtc, zone, local)
                        else if calls.opensOffset then Some("") else None
      ensures timestamp == if ok || (SavesOffset(now, rtc, zone, local, calls) && calls.opensStamp && old(timestamp) == None)
                           then Some(now) else old(timestamp)
    {
      offset := None;
      var parsed := Number(rtc);
      if parsed.Some? {
        var epoch := Converted(zone, parsed.value, local);
        if epoch.Some? && Unsigned(now) > epoch.value {
          if !calls.opensOffset {
            return false;
          }
          offset := Some("");
          if !calls.buffersOffset {
            return false;
          }
          offset := Some(Decimal(Unsigned(now) - epoch.value));
        }
      }
      if !calls.opensStamp {
        return false;
      }
      if timestamp == None {
        timestamp := Some(now);
      }
      if calls.setsTimes {
        timestamp := Some(now);
      }
      ok := calls.setsTimes;
    }
  }

  /** Starting never sets the clock back, and without an offset never below the saved time. */
  lemma StartNeverGoesBack(now: int, offset: Option<string>, timestamp: Option<int>, rtc: Option<string>, zone: Zone,
                           local: Option<nat>)
    ensures Started(now, offset, timestamp, rtc, zone, local) >= now
    ensures FromOffset(offset, rtc, zone, local).None? && timestamp.Some?
            ==> Started(now, offset, timestamp, rtc, zone, local) >= timestamp.value
  {
  }

  /** A real-time clock in local time counts as one that shows the converted time, and not at all
      when it cannot be converted. */
  lemma LocaltimeIsConverted(now: int, offset: Option<string>, rtc: Option<string>, local: nat)
    requires 0 < local < TWO64 && Number(rtc).Some?
    ensures FromOffset(offset, rtc, Localtime, Some(local)) == FromOffset(offset, Some(Decimal(local)), Utc, None)
    ensures SavedOffset(now, rtc, Localtime, Some(local)) == SavedOffset(now, Some(Decimal(local)), Utc, None)
    ensures FromOffset(offset, rtc, Localtime, None) == None && SavedOffset(now, rtc, Localtime, None) == None
  {
    DecimalIsRead(local);
    hide Number, Decimal, Signed, Unsigned;
    assert Epoch(rtc, Localtime, Some(local)) == Epoch(Some(Decimal(local)), Utc, None);
    assert Epoch(rtc, Localtime, None) == None;
    hide Epoch;
  }

  lemma DecimalIsRead(n: nat)
    requires 0 < n < TWO64
    ensures Number(Some(Decimal(n))) == Some(n)
  {
    NumberOfDecimal(n, false);
    assert Decimal(n) + "" == Decimal(n);
    hide Number, Decimal;
  }

  lemma OffsetAdds(distance: nat, after: nat, reading: Option<string>)
    requires Number(reading) == Some(after) && 0 < distance && distance + after < TWO63
    ensures FromOffset(Some(Decimal(distance)), reading, Utc, None) == Some(after + distance)
  {
    NumberOfDecimal(distance, false);
    assert Decimal(distance) + "" == Decimal(distance);
    hide Number, Decimal;
  }

  /** After a stop at `saved` when the clock showed `before`, the offset read at a start when it
      shows `after` gives the saved time plus what has passed on the real-time clock. */
  lemma OffsetCarriesTime(saved: int, before: nat, after: nat, stopRtc: Option<string>, startRtc: Option<string>)
    requires Number(stopRtc) == Some(before) && Number(startRtc) == Some(after)
    requires 0 <= saved < TWO63 && saved + after < TWO63
    ensures var offset := SavedOffset(saved, stopRtc, Utc, None);
            if saved <= before then offset == None
            else FromOffset(offset, startRtc, Utc, None) == Some(saved + after - before)
  {
    hide Number, Decimal, FromOffset;
    if saved > before {
      OffsetAdds(saved - before, after, startRtc);
    }
  }

  /** So the clock after the start is at least the saved time exactly when the real-time clock
      has not gone back, or the offset is not used. */
  lemma StartReachesSavedIff(now: int, saved: int, before: nat, after: nat, stopRtc: Option<string>,
                             startRtc: Option<string>)
    requires Number(stopRtc) == Some(before) && Number(startRtc) == Some(after)
    requires 0 <= saved < TWO63 && saved + after < TWO63
    ensures Started(now, SavedOffset(saved, stopRtc, Utc, None), Some(saved), startRtc, Utc, None) >= saved
       <==> before <= after || saved <= before || saved + after - before < now
  {
    OffsetCarriesTime(saved, before, after, stopRtc, startRtc);
    hide SavedOffset, FromOffset;
  }

  // ---- Any number of reboots, some without a clean stop, on a real-time clock in UTC that does
  // not go back. A stop is several steps, and can be cut off after each of them.

  /** How far a stop has come that began at `time`; `distance` is to be written. */
  datatype Stopping =
    | NotStopping
    | Unlinked(time: int)
    | OffsetOpened(time: int, distance: string, rtc: nat)
    | OffsetDone(time: int)
    | StampOpened(time: int)

  /** When the offset file was written, by the system clock and by the real-time clock. */
  datatype Written = Written(time: int, rtc: nat)

  /** `rtc` is what the real-time clock shows; `running` once this boot has had its start; `saved`
      are the times of all stops that were not cut off, `cut` when one was since the last of them;
      `written` is for the offset file that is there. */
  datatype State = State(
    now: int, timestamp: Option<int>, offset: Option<string>, rtc: nat,
    running: bool, stopping: Stopping, saved: seq<int>, cut: bool, written: Option<Written>)

  datatype Step =
    | Reboot(now: int, rtc: nat)
    | Wait(seconds: nat, rtcSeconds: nat)
    | SetClock(now: int)
    | Start(reading: Option<string>)
    | BeginStop
    | OpenOffset(reading: Option<string>)
    | WriteOffset
    | OpenStamp
    | SetStamp
    | CutOff

  function Initial(now: int, rtc: nat): State {
    State(now, None, None, rtc, false, NotStopping, [], false, None)
  }

  /** The real-time clock is read right, or not at all. */
  predicate ReadsOrFails(reading: Option<string>, rtc: nat) {
    Number(reading) == None || Number(reading) == Some(rtc)
  }

  /** A stop only follows a start, and no sum of times leaves the range of `time_t`. */
  predicate Enabled(s: State, step: Step) {
    match step
    case Reboot(_, rtc) => rtc >= s.rtc
    case Wait(_, _) => true
    case SetClock(_) => true
    case Start(reading) =>
      && s.stopping.NotStopping? && ReadsOrFails(reading, s.rtc)
      && (s.written.Some? ==> s.written.value.time + s.rtc < TWO63)
    case BeginStop => s.running && s.stopping.NotStopping? && 0 <= s.now < TWO63
    case OpenOffset(reading) => s.stopping.Unlinked? && ReadsOrFails(reading, s.rtc)
    case WriteOffset => s.stopping.OffsetOpened?
    case OpenStamp => s.stopping.OffsetDone?
    case SetStamp => s.stopping.StampOpened?
    case CutOff => !s.stopping.NotStopping?
  }

  /** The timestamp file is created with the time of its creation; opened again it keeps its
      time of access until that is set. */
  function Apply(s: State, step: Step): State
    requires Enabled(s, step)
  {
    match step
    case Reboot(now, rtc) =>
      s.(now := now, rtc := rtc, running := false, stopping := NotStopping, cut := s.cut || !s.stopping.NotStopping?)
    case Wait(seconds, rtcSeconds) => s.(now := s.now + seconds, rtc := s.rtc + rtcSeconds)
    case SetClock(now) => s.(now := now)
    case Start(reading) => s.(now := Started(s.now, s.offset, s.timestamp, reading, Utc, None), running := true)
    case BeginStop => s.(offset := None, written := None, stopping := Unlinked(s.now))
    case OpenOffset(reading) =>
      var distance := SavedOffset(s.stopping.time, reading, Utc, None);
      if distance == None then s.(stopping := OffsetDone(s.stopping.time))
      else s.(offset := Some(""), stopping := OffsetOpened(s.stopping.time, distance.value, s.rtc))
    case WriteOffset =>
      s.(offset := Some(s.stopping.distance), written := Some(Written(s.stopping.time, s.stopping.rtc)),
         stopping := OffsetDone(s.stopping.time))
    case OpenStamp =>
      s.(timestamp := if s.timestamp == None then Some(s.now) else s.timestamp, stopping := StampOpened(s.stopping.time))
    case SetStamp =>
      s.(timestamp := Some(s.stopping.time), saved := s.saved + [s.stopping.time], cut := false, stopping := NotStopping)
    case CutOff => s.(stopping := NotStopping, cut := true)
  }

  ghost predicate OffsetIs(distance: string, time: int, rtc: nat) {
    0 < rtc < time < TWO63 && distance == Decimal(time - rtc)
  }

  /** The files, in the middle of a stop and after it. */
  ghost predicate FilesOk(s: State) {
    && (s.saved != [] ==> s.timestamp == Some(Last(s.saved)))
    && (s.written == None ==> s.offset == None || s.offset == Some(""))
    && (s.written.Some? ==> s.offset.Some? && OffsetIs(s.offset.value, s.written.value.time, s.written.value.rtc)
                            && s.written.value.rtc <= s.rtc)
    && (s.stopping.OffsetOpened? ==> OffsetIs(s.stopping.distance, s.stopping.time, s.stopping.rtc) && s.stopping.rtc <= s.rtc)
    && (!s.stopping.NotStopping? ==> 0 <= s.stopping.time < TWO63)
    && (s.stopping.Unlinked? || s.stopping.OffsetOpened? ==> s.written == None)
    && (s.stopping.OffsetDone? || s.stopping.StampOpened? ==> s.written.Some? ==> s.written.value.time == s.stopping.time)
    && (s.stopping.NotStopping? && !s.cut && s.written.Some? ==> s.saved != [] && s.written.value.time == Last(s.saved))
  }

  /** What a start makes of the offset file, when there is one and the clock can be read. */
  function Continued(s: State): int
    requires s.written.Some?
  {
    s.written.value.time + (s.rtc - s.written.value.rtc)
  }

  lemma StartFromFiles(s: State, reading: Option<string>)
    requires FilesOk(s) && Enabled(s, Start(reading))
    ensures Apply(s, Start(reading)).now
         == if s.written.Some? && Number(reading).Some? && Continued(s) >= s.now then Continued(s)
            else if s.timestamp.Some? && s.timestamp.value >= s.now then s.timestamp.value
            else s.now
  {
    if s.written.Some? && Number(reading).Some? {
      OffsetAdds(s.written.value.time - s.written.value.rtc, s.rtc, reading);
    } else if s.written == None {
      assert Number(Some("")) == None;
    }
    hide Decimal, Number;
  }

  lemma OpenKeepsFiles(s: State, reading: Option<string>)
    requires FilesOk(s) && Enabled(s, OpenOffset(reading))
    ensures FilesOk(Apply(s, OpenOffset(reading)))
  {
    hide Number, Decimal;
  }

  lemma StepKeepsFiles(s: State, step: Step)
    requires FilesOk(s) && Enabled(s, step)
    ensures FilesOk(Apply(s, step))
  {
    if step.OpenOffset? {
      OpenKeepsFiles(s, step.reading);
    }
    hide Number, Decimal, Started, OffsetIs, SavedOffset;
  }

  // ---- What holds when nobody sets the clock back between a start and a stop.

  predicate Forward(s: State, step: Step) {
    step.SetClock? ==> step.now >= s.now
  }

  ghost predicate SavedInOrder(s: State) {
    && (forall i, j :: 0 <= i < j < |s.saved| ==> s.saved[i] <= s.saved[j])
    && (!s.stopping.NotStopping? ==> s.running && s.stopping.time <= s.now)
    && (s.saved != [] ==>
          && (s.running ==> s.now >= Last(s.saved)) && (!s.stopping.NotStopping? ==> s.stopping.time >= Last(s.saved))
          && (s.written.Some? ==> s.written.value.time >= Last(s.saved)))
  }

  lemma StepKeepsOrder(s: State, step: Step)
    requires FilesOk(s) && SavedInOrder(s) && Enabled(s, step) && Forward(s, step)
    ensures SavedInOrder(Apply(s, step))
  {
    hide Number, Decimal, SavedOffset;
    if step.Start? {
      StartFromFiles(s, step.reading);
      hide Started;
    }
  }

  ghost predicate Steps(s: State, steps: seq<Step>, t: State)
    decreases |steps|
  {
    if steps == [] then s == t else Enabled(s, steps[0]) && Steps(Apply(s, steps[0]), steps[1..], t)
  }

  ghost predicate StepsForward(s: State, steps: seq<Step>, t: State)
    decreases |steps|
  {
    if steps == [] then s == t
    else Enabled(s, steps[0]) && Forward(s, steps[0]) && StepsForward(Apply(s, steps[0]), steps[1..], t)
  }

  ghost predicate Reachable(t: State) {
    exists now, rtc, steps :: Steps(Initial(now, rtc), steps, t)
  }

  lemma {:induction false} StepsKeepFiles(s: State, steps: seq<Step>, t: State)
    requires FilesOk(s) && Steps(s, steps, t)
    ensures FilesOk(t)
    decreases |steps|
  {
    hide FilesOk, Enabled, Apply;
    if steps != [] {
      StepKeepsFiles(s, steps[0]);
      StepsKeepFiles(Apply(s, steps[0]), steps[1..], t);
    }
  }

  lemma {:induction false} StepsKeepOrder(s: State, steps: seq<Step>, t: State)
    requires FilesOk(s) && SavedInOrder(s) && StepsForward(s, steps, t)
    ensures SavedInOrder(t)
    decreases |steps|
  {
    hide FilesOk, SavedInOrder, Enabled, Forward, Apply;
    if steps != [] {
      StepKeepsFiles(s, steps[0]);
      StepKeepsOrder(s, steps[0]);
      StepsKeepOrder(Apply(s, steps[0]), steps[1..], t);
    }
  }

  lemma ReachableOk(t: State)
    requires Reachable(t)
    ensures FilesOk(t)
  {
    var now, rtc, steps :| Steps(Initial(now, rtc), steps, t);
    StepsKeepFiles(Initial(now, rtc), steps, t);
  }

  /** Over any number of reboots, with or without a clean stop before them, the saved times never
      go back, and a start reaches the last of them even when a stop was cut off since, when
      nobody sets the clock back between a start and a stop. */
  lemma SavedTimesNeverGoBack(now: int, rtc: nat, steps: seq<Step>, t: State)
    requires StepsForward(Initial(now, rtc), steps, t)
    ensures forall i, j :: 0 <= i < j < |t.saved| ==> t.saved[i] <= t.saved[j]
    ensures t.running && t.saved != [] ==> t.now >= Last(t.saved)
  {
    StepsKeepOrder(Initial(now, rtc), steps, t);
  }

  /** Whatever stops were cut off, a start never sets the clock back, and with an offset that was
      written it makes up for what has passed on the real-time clock since, unless the clock is
      ahead of that already. It reaches the last saved time but in one case: a later stop was cut
      off when it had written the offset of an earlier time, and that is not made up for yet. */
  lemma StartContinuesTime(s: State, reading: Option<string>)
    requires Reachable(s) && Enabled(s, Start(reading))
    ensures var t := Apply(s, Start(reading));
            && t.now >= s.now
            && (s.written.Some? && Number(reading).Some? && Continued(s) >= s.now ==> t.now == Continued(s))
            && (s.saved != [] ==>
                 (t.now < Last(s.saved)
                  <==> s.cut && s.written.Some? && Number(reading).Some? && s.now <= Continued(s) < Last(s.saved)))
            && (s.written.Some? ==> s.written.value.rtc <= s.rtc)
            && (s.written.Some? && !s.cut ==> s.saved != [] && s.written.value.time == Last(s.saved))
  {
    ReachableOk(s);
    StartFromFiles(s, reading);
    hide Started, OffsetIs, Number;
  }

  /** The steps of a stop that is not cut off. */
  function WholeStop(s: State, reading: Option<string>): seq<Step> {
    [BeginStop, OpenOffset(reading)] + (if SavedOffset(s.now, reading, Utc, None).Some? then [WriteOffset] else [])
    + [OpenStamp, SetStamp]
  }

  lemma StepsCons(s: State, step: Step, steps: seq<Step>, t: State)
    requires Enabled(s, step) && Steps(Apply(s, step), steps, t)
    ensures Steps(s, [step] + steps, t)
  {
    assert ([step] + steps)[1..] == steps;
  }

  /** A stop in one go leaves the files that `DoStop` leaves when all calls work. */
  lemma StopInOneGo(s: State, reading: Option<string>) returns (t: State)
    requires Enabled(s, BeginStop) && ReadsOrFails(reading, s.rtc)
    ensures Steps(s, WholeStop(s, reading), t)
    ensures t.offset == SavedOffset(s.now, reading, Utc, None) && t.timestamp == Some(s.now)
    ensures t.saved == s.saved + [s.now] && !t.cut && t.now == s.now && t.rtc == s.rtc && t.stopping.NotStopping?
  {
    hide SavedOffset, Number;
    hide Steps;
    var t1 := Apply(s, BeginStop);
    var t2 := Apply(t1, OpenOffset(reading));
    var t3 := if t2.stopping.OffsetOpened? then Apply(t2, WriteOffset) else t2;
    t := Stamped(t3);
    if t2.stopping.OffsetOpened? {
      StepsCons(t2, WriteOffset, [OpenStamp, SetStamp], t);
    }
    var rest := (if t2.stopping.OffsetOpened? then [WriteOffset] else []) + [OpenStamp, SetStamp];
    assert t2.stopping.OffsetDone? ==> rest == [OpenStamp, SetStamp];
    StepsCons(t1, OpenOffset(reading), rest, t);
    StepsCons(s, BeginStop, [OpenOffset(reading)] + rest, t);
    assert WholeStop(s, reading) == [BeginStop] + ([OpenOffset(reading)] + rest);
  }

  lemma Stamped(s: State) returns (t: State)
    requires s.stopping.OffsetDone?
    ensures Steps(s, [OpenStamp, SetStamp], t)
    ensures t == s.(timestamp := Some(s.stopping.time), saved := s.saved + [s.stopping.time], cut := false,
                    stopping := NotStopping)
  {
    var u := Apply(s, OpenStamp);
    t := Apply(u, SetStamp);
    assert [OpenStamp, SetStamp][1..] == [SetStamp] && [SetStamp][1..] == [];
  }

  lemma ReachableStep(s: State, step: Step)
    requires Reachable(s) && Enabled(s, step)
    ensures Reachable(Apply(s, step))
  {
    var now, rtc, steps :| Steps(Initial(now, rtc), steps, s);
    StepsSnoc(Initial(now, rtc), steps, s, step);
    hide Steps, Enabled, Apply;
  }

  lemma {:induction false} StepsSnoc(s: State, steps: seq<Step>, t: State, step: Step)
    requires Steps(s, steps, t) && Enabled(t, step)
    ensures Steps(s, steps + [step], Apply(t, step))
    decreases |steps|
  {
    hide Enabled, Apply;
    if steps == [] {
      assert [step][1..] == [];
    } else {
      StepsSnoc(Apply(s, steps[0]), steps[1..], t, step);
      assert (steps + [step])[1..] == steps[1..] + [step];
    }
  }

  /** A clock that was set back, and a stop that was cut off when the offset had been written:
      the start after it falls behind the last saved time. */
  lemma CutOffStopFallsBehind(saved: int, earlier: int, rtc: nat) returns (s: State, reading: Option<string>)
    requires 0 < rtc < earlier < saved < TWO63 && earlier + rtc < TWO63
    ensures Reachable(s) && Enabled(s, Start(reading)) && s.saved == [saved]
    ensures Apply(s, Start(reading)).now == earlier
  {
    reading := Some(Decimal(rtc));
    NumberOfDecimal(rtc, false);
    assert Decimal(rtc) + "" == Decimal(rtc);
    s := SavedOnce(saved, rtc);
    s := CutOffStop(s, earlier, reading);
    ReachableOk(s);
    StartFromFiles(s, reading);
    hide Apply, Reachable, Decimal, Number, FilesOk;
  }

  lemma SavedOnce(saved: int, rtc: nat) returns (s: State)
    requires 0 <= saved < TWO63
    ensures Reachable(s) && s.running && s.rtc == rtc && s.saved == [saved] && s.stopping.NotStopping?
  {
    s := Initial(saved, rtc);
    assert Steps(s, [], s);
    assert Number(None) == None;
    hide Reachable, Number, Started, SavedOffset;
    ReachableStep(s, Start(None));
    s := Apply(s, Start(None));
    ReachableStep(s, SetClock(saved));
    s := Apply(s, SetClock(saved));
    ReachableStep(s, BeginStop);
    s := Apply(s, BeginStop);
    ReachableStep(s, OpenOffset(None));
    s := Apply(s, OpenOffset(None));
    ReachableStep(s, OpenStamp);
    s := Apply(s, OpenStamp);
    ReachableStep(s, SetStamp);
    s := Apply(s, SetStamp);
  }

  lemma CutOffStop(t: State, earlier: int, reading: Option<string>) returns (s: State)
    requires Reachable(t) && t.running && t.stopping.NotStopping? && Number(reading) == Some(t.rtc)
    requires 0 < t.rtc < earlier < TWO63
    ensures Reachable(s) && s.saved == t.saved && s.now == 0 && s.rtc == t.rtc && s.written == Some(Written(earlier, t.rtc))
    ensures s.stopping.NotStopping?
  {
    hide Reachable, Number, Decimal;
    s := t;
    ReachableStep(s, SetClock(earlier));
    s := Apply(s, SetClock(earlier));
    ReachableStep(s, BeginStop);
    s := Apply(s, BeginStop);
    ReachableStep(s, OpenOffset(reading));
    s := Apply(s, OpenOffset(reading));
    ReachableStep(s, WriteOffset);
    s := Apply(s, WriteOffset);
    ReachableStep(s, Reboot(0, t.rtc));
    s := Apply(s, Reboot(0, t.rtc));
  }
}
