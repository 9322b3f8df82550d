/**
 * CRUDRegistry: a set of loadable managers that grows with register and is
 * loaded in one sweep by initialize, a global CRUDAdapters instance fixed for
 * the registry's lifetime, and a verbose-logging switch. What the registry
 * logs and which managers it asks to load are recorded as one event trace.
 */
module Registry {
  import opened Adapters

  /** A manager that can be loaded (ILoadable); `name` is its class's simple name. */
  class Loadable {
    const name: string

    constructor (name: string)
      ensures this.name == name
    {
      this.name := name;
    }
  }

  datatype Message =
    | VerboseEnabled
    | Registered(managerName: string)
    | Initializing(count: nat)
    | AllInitialized

  datatype Event = Logged(message: Message) | LoadCalled(manager: Loadable)

  /** The events of a verbose message: the message itself when logging is enabled, nothing otherwise. */
  function Verbose(enabled: bool, message: Message): (events: seq<Event>)
    ensures enabled <==> events == [Logged(message)]
    ensures !enabled <==> events == []
  {
    if enabled then [Logged(message)] else []
  }

  /** One load call per manager, in the order given. */
  function LoadCalls(order: seq<Loadable>): (events: seq<Event>)
    ensures |events| == |order|
    ensures forall i :: 0 <= i < |order| ==> events[i] == LoadCalled(order[i])
  {
    if order == [] then [] else LoadCalls(order[..|order| - 1]) + [LoadCalled(order[|order| - 1])]
  }

  class CRUDRegistry {
    var loggingEnabled: bool
    const globalAdapters: CRUDAdapters
    /** The registered managers (registeredManagers). */
    var registered: set<Loadable>
    /** Everything logged and every load call, oldest first. */
    var events: seq<Event>

    constructor ()
      ensures fresh(globalAdapters)
      ensures !loggingEnabled && registered == {} && events == []
    {
      loggingEnabled := false;
      globalAdapters := new CRUDAdapters();
      registered := {};
      events := [];
    }

    /** getGlobalAdapters: the one instance created with the registry. */
    method GetGlobalAdapters() returns (adapters: CRUDAdapters)
      ensures adapters == globalAdapters
    {
      adapters := globalAdapters;
    }

    /** setLoggingEnabled: switching logging on announces it; switching it off is silent. */
    method SetLoggingEnabled(enabled: bool)
      modifies this`loggingEnabled, this`events
      ensures loggingEnabled == enabled
      ensures events == old(events) + Verbose(enabled, VerboseEnabled)
    {
      loggingEnabled := enabled;
      if enabled {
        LogVerbose(VerboseEnabled);
      }
    }

    /** logVerbose: the message is logged only while logging is enabled. */
    method LogVerbose(message: Message)
      modifies this`events
      ensures events == old(events) + Verbose(loggingEnabled, message)
    {
      if loggingEnabled {
        events := events + [Logged(message)];
      }
    }

    /** register: adds the manager; registering it again leaves the set as it was. */
    method Register(manager: Loadable)
      modifies this`registered, this`events
      ensures registered == old(registered) + {manager}
      ensures manager in old(registered) ==> registered == old(registered)
      ensures events == old(events) + Verbose(loggingEnabled, Registered(manager.name))
    {
      LogVerbose(Registered(manager.name));
      registered := registered + {manager};
    }

    /**
     * initialize: always logs how many managers are registered, asks every
     * registered manager to load exactly once, in some order, and then logs
     * a verbose completion message. The set of managers does not change.
     */
    method Initialize() returns (ghost order: seq<Loadable>)
      modifies this`events
      ensures multiset(order) == multiset(registered)
      ensures events == old(events) + [Logged(Initializing(|registered|))] + LoadCalls(order)
                        + Verbose(loggingEnabled, AllInitialized)
    {
      events := events + [Logged(Initializing(|registered|))];
      ghost var start := events;
      var pending := registered;
      order := [];
      while pending != {}
        invariant pending <= registered
        invariant multiset(order) + multiset(pending) == multiset(registered)
        invariant events == start + LoadCalls(order)
        decreases pending
      {
        var manager :| manager in pending;
        events := events + [LoadCalled(manager)];
        assert (order + [manager])[..|order|] == order;
        order := order + [manager];
        assert multiset(pending) == multiset(pending - {manager}) + multiset{manager};
        pending := pending - {manager};
      }
      LogVerbose(AllInitialized);
    }
  }

  /** Each registered manager is loaded exactly once by initialize. */
  lemma LoadedOnce(order: seq<Loadable>, registered: set<Loadable>, m: Loadable)
    requires multiset(order) == multiset(registered)
    ensures m in registered <==> multiset(order)[m] == 1
    ensures m !in registered <==> m !in order
  {
    assert m in order <==> m in multiset(order);
  }
}
