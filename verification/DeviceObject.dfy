/** The `device` object and the dinit callbacks that work on it (early/helpers/devmon.cc), as
    they update it in place. Each callback is one step of `RequestChain`, so an object that is in
    a reachable state stays in one (`RequestChain.ReachableStep`), and all that is proved of
    reachable states there holds of it. */
module DeviceObject {
  import opened RequestChain
  import opened ServiceList
  import opened Text

  /** The outcome of a load: negative, positive and zero return values of the library. */
  datatype Load = Failed | NotLoaded | Loaded(handle: Handle, started: bool)

  /** What has happened to a device so far (see `RequestChain.State`). */
  datatype Past = Past(
    settled: set<Call>, linked: Option<bool>, tagged: seq<Event>, chains: seq<Chain>, ended: nat, signals: seq<bool>)

  class Device {
    var dropping: set<Service>
    var adding: set<Service>
    var next: set<Service>
    var deviceSvc: Option<Handle>
    var pendingSvcs: int
    var removed: bool
    var processing: bool
    var removal: bool
    var pending: bool
    var hasTag: bool

    /** Replies to come, service events to come, and whether the dinit connection is given up. */
    var calls: set<Call>
    var waiting: map<Handle, Service>
    var aborted: bool

    ghost var past: Past

    ghost function At(): State
      reads this
    {
      State(RequestChain.Device(dropping, adding, next, deviceSvc, pendingSvcs,
                                removed, processing, removal, pending, hasTag),
            calls, waiting, aborted, past.settled, past.linked, past.tagged, past.chains, past.ended, past.signals)
    }

    constructor ()
      ensures At() == Initial
    {
      dropping, adding, next, deviceSvc, pendingSvcs := {}, {}, {}, None, 0;
      removed, processing, removal, pending, hasTag := false, false, false, false, false;
      calls, waiting, aborted := {}, map[], false;
      past := Past({}, None, [], [], 0, []);
    }

    /** `process`. All callers give up the connection when it fails, which is done here. */
    method Process(issue: Issue, ghost reply: bool)
      requires !aborted
      modifies this
      ensures At() == RequestChain.Process(old(At()), issue, reply)
    {
      hide Shuffled, Started;
      past := past.(ended := if reply then past.ended + 1 else past.ended);
      if deviceSvc.Some? && !issue.closes {
        processing, pending, aborted := false, false, true;
        return;
      }
      SignalAndShuffle();
      if !pending {
        processing := false;
        return;
      }
      Start(issue.loads, reply);
    }

    method SignalAndShuffle()
      modifies this
      ensures At() == Shuffled(old(At()))
      ensures pending == old(pending) && aborted == old(aborted)
    {
      deviceSvc := None;
      past := past.(signals := past.signals + [!removal]);
      dropping := adding;
      adding := next;
      next := {};
    }

    method Start(loads: bool, ghost reply: bool)
      requires !aborted
      modifies this
      ensures At() == Started(old(At()), loads, reply)
    {
      pending := false;
      removal := removed;
      processing := loads;
      if loads {
        Request(reply);
      } else {
        aborted := true;
      }
    }

    method Request(ghost reply: bool)
      modifies this`calls, this`past
      ensures calls == old(calls) + {LoadDevice}
      ensures past == old(past).(settled := {}, linked := None,
                chains := old(past).chains + [Chain(|past.tagged| - 1, removed, adding, dropping, reply)])
    {
      past := past.(settled := {}, linked := None,
                    chains := past.chains + [Chain(|past.tagged| - 1, removed, adding, dropping, reply)]);
      calls := calls + {LoadDevice};
    }

    /** `handle_device_dinit`, with the tag and the DINIT_WAITS_FOR property of the event, empty
        when it has none. */
    method HandleDeviceDinit(tag: bool, property: string, issue: Issue)
      requires !aborted
      modifies this
      ensures At() == HandleEvent(old(At()), old(removed), tag, Words(property), issue)
      ensures hasTag == (old(hasTag) || tag) && removed == old(removed)
      ensures hasTag && old(processing) ==> pending && next == if removed then {} else Words(property)
      ensures hasTag && !old(processing) && !aborted
          ==> processing && removal == removed && adding == (if removed then {} else Words(property)) && LoadDevice in calls
    {
      HandleEventUses(At(), removed, tag, Words(property), issue);
      hide RequestChain.Process, Words;
      if !hasTag {
        hasTag := tag;
      }
      if !hasTag {
        past := past.(signals := past.signals + [!removed]);
        return;
      }
      Note(property);
      if !processing {
        Process(issue, false);
      }
    }

    method Note(property: string)
      requires hasTag
      modifies this
      ensures At() == Noted(old(At()), Event(old(removed), if old(removed) then {} else Words(property)))
    {
      hide Words;
      next := {};
      if !removed {
        next := ParseServices(property);
      }
      past := past.(tagged := past.tagged + [Event(removed, next)]);
      pending := true;
    }

    /** `--pending_svcs`, and `process` when it gets to zero */
    method SettleOne(issue: Issue)
      requires !aborted
      modifies this
      ensures At() == CountDown(old(At()), issue)
    {
      pendingSvcs := pendingSvcs - 1;
      if pendingSvcs == 0 {
        Process(issue, true);
      }
    }

    /** `dinit_devsvc_load_cb` */
    method DevsvcLoaded(load: Load, depends: bool, issue: Issue)
      requires !aborted && LoadDevice in calls
      modifies this
      ensures At() == Apply(old(At()), DevsvcStep(load, depends, issue))
      ensures load.Failed? ==> aborted
      ensures load.Loaded? ==> deviceSvc == Some(load.handle) && aborted == !depends && (DependDevice in calls || aborted)
      ensures load.NotLoaded? && !aborted ==> deviceSvc == None && (processing <==> old(pending))
    {
      hide RequestChain.Process;
      calls := calls - {LoadDevice};
      match load
      case Failed => aborted := true;
      case NotLoaded =>
        deviceSvc := None;
        ProcessUses(At(), issue, true);
        Process(issue, true);
      case Loaded(h, _) =>
        deviceSvc := Some(h);
        past := past.(linked := Some(!removal));
        if depends {
          calls := calls + {DependDevice};
        } else {
          aborted := true;
        }
    }

    /** `dinit_devsvc_add_cb`; the requests in `refused` cannot be issued. */
    method DevsvcAdded(refused: set<Call>)
      requires !aborted && DependDevice in calls
      modifies this
      ensures aborted <==> old(Wanted(At().dev)) * refused != {}
      ensures !aborted ==> At() == Apply(old(At()), DeviceDepended(true))
    {
      calls := calls - {DependDevice};
      hide Requests;
      RequestAll(refused);
    }

    method RequestAll(refused: set<Call>)
      requires !aborted
      modifies this`calls, this`pendingSvcs, this`aborted
      ensures aborted <==> (Requests(dropping, true) + Requests(adding, false)) * refused != {}
      ensures !aborted ==> calls == old(calls) + Requests(dropping, true) + Requests(adding, false)
      ensures !aborted ==> pendingSvcs == |dropping| + |adding|
    {
      hide Requests;
      pendingSvcs := 0;
      LoadAll(dropping, true, refused);
      if aborted {
        return;
      }
      LoadAll(adding, false, refused);
    }

    /** One of its two loops. */
    method LoadAll(services: set<Service>, drop: bool, refused: set<Call>)
      requires !aborted
      modifies this`calls, this`pendingSvcs, this`aborted
      ensures aborted <==> Requests(services, drop) * refused != {}
      ensures !aborted ==> calls == old(calls) + Requests(services, drop) && pendingSvcs == old(pendingSvcs) + |services|
    {
      hide Requests;
      NoRequests(drop);
      var todo := services;
      assert services - todo == {};
      while todo != {}
        invariant todo <= services && !aborted
        invariant Requests(services - todo, drop) * refused == {}
        invariant calls == old(calls) + Requests(services - todo, drop)
        invariant pendingSvcs == old(pendingSvcs) + |services| - |todo|
      {
        var n :| n in todo;
        var call := LoadService(n, drop);
        OneMoreRequest(services, todo, n, drop);
        if call in refused {
          assert call in Requests(services, drop);
          assert call in Requests(services, drop) * refused;
          aborted := true;
          return;
        }
        calls := calls + {call};
        pendingSvcs := pendingSvcs + 1;
        todo := todo - {n};
      }
      assert services - {} == services;
    }

    static lemma NoRequests(drop: bool)
      ensures Requests({}, drop) == {}
    {
    }

    static lemma OneMoreRequest(services: set<Service>, todo: set<Service>, n: Service, drop: bool)
      requires n in todo && todo <= services
      ensures Requests(services - (todo - {n}), drop) == Requests(services - todo, drop) + {LoadService(n, drop)}
      ensures LoadService(n, drop) in Requests(services, drop)
    {
    }

    /** `dinit_subsvc_load_cb_base` */
    method SubsvcLoaded(service: Service, drop: bool, load: Load, depends: bool, issue: Issue)
      requires !aborted && LoadService(service, drop) in calls
      requires load.Loaded? ==> load.handle !in waiting
      modifies this
      ensures At() == Apply(old(At()), SubsvcStep(service, drop, load, depends, issue))
      ensures load.Failed? || (load.Loaded? && !depends) ==> aborted
      ensures load.Loaded? && !drop && !load.started ==>
                waiting == old(waiting)[load.handle := service] && pendingSvcs == old(pendingSvcs)
      ensures !aborted && (load.NotLoaded? || drop || load.started) ==>
                waiting == old(waiting) && pendingSvcs == old(pendingSvcs) - 1
    {
      hide RequestChain.Process;
      var call := LoadService(service, drop);
      calls := calls - {call};
      match load
      case Failed => aborted := true;
      case NotLoaded =>
        past := past.(settled := past.settled + {call});
        CountDownUses(At(), issue);
        SettleOne(issue);
      case Loaded(h, started) =>
        var noWake := drop || started;
        if !noWake {
          waiting := waiting[h := service];
        }
        if !depends {
          aborted := true;
          return;
        }
        if noWake {
          past := past.(settled := past.settled + {call});
          CountDownUses(At(), issue);
          SettleOne(issue);
        }
    }

    /** `handle_dinit_event`, for a handle that is in `map_svcdev`; its entry goes last. */
    method ServiceEvent(handle: Handle, issue: Issue)
      requires !aborted && handle in waiting
      modifies this
      ensures At() == Apply(old(At()), RequestChain.ServiceEvent(handle, issue))
    {
      past := past.(settled := past.settled + {LoadService(waiting[handle], false)});
      EraseFirst(At(), handle, issue);
      hide CountDown;
      SettleOne(issue);
      waiting := waiting - {handle};
    }
  }

  /** Counting down does not look at the entries of `map_svcdev`. */
  lemma EraseFirst(s: State, h: Handle, issue: Issue)
    ensures CountDown(s.(waiting := s.waiting - {h}), issue) == CountDown(s, issue).(waiting := s.waiting - {h})
    ensures CountDown(s, issue).waiting == s.waiting
  {
  }

  function DevsvcStep(load: Load, depends: bool, issue: Issue): Step {
    match load
    case Failed => LoadFailed(LoadDevice)
    case NotLoaded => DeviceNotLoaded(issue)
    case Loaded(h, _) => DeviceLoaded(h, depends)
  }

  function SubsvcStep(service: Service, drop: bool, load: Load, depends: bool, issue: Issue): Step {
    match load
    case Failed => LoadFailed(LoadService(service, drop))
    case NotLoaded => ServiceNotLoaded(service, drop, issue)
    case Loaded(h, started) => ServiceLoaded(service, drop, h, started, depends, issue)
  }
}
