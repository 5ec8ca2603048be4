/** The service controller: the two module-level flags, `polling` (the
    current timer, or `false`) and `restart`, the functions that start,
    stop and restart the timer, and the message handler the popup and the
    options page talk to. Every handler and every cycle runs to completion
    before the next one starts. */
module Background {
  import opened Records
  import opened Lists
  import Storage
  import Gerrit
  import Polling

  /** The controller's state: the two flags, the storage, the side effects
      so far, and how many timers were armed (each new timer takes the next
      handle, so handles are positive and never reused). */
  datatype Runtime = Runtime(
    polling: Option<Timer>,
    restart: bool,
    store: Storage.Snapshot,
    events: seq<Effect>,
    armed: nat)

  /** The outside world: the browser, the review server, and the endpoint
      probe `Gerrit.test`, whose definition is not part of this model. */
  datatype Env = Env(
    browser: Polling.Browser,
    remote: Gerrit.Remote,
    probe: (Option<string>, Option<Credentials>) -> bool)

  /** The messages the handler dispatches on; `Unrecognised` is any other type. */
  datatype Message =
    | GetData
    | AddChange(id: string)
    | RemoveChanges(ids: seq<string>)
    | TestEndpoint(endpoint: Option<string>, credentials: Option<Credentials>)
    | TriggerRestart
    | ExistsConfig
    | OpenChange(id: string)
    | Unrecognised(kind: string)

  /** What the handler resolves with: a bare boolean, `{response: list}`,
      `{response: bool}`, or a rejection. */
  datatype Reply = Flag(ok: bool) | Listing(changes: seq<Change>) | Answer(result: bool) | Failed(fault: Fault)

  datatype Handled = Handled(rt: Runtime, reply: Reply)

  /** Every state the controller reaches: a restart is only ever requested
      while a timer runs, and the timer's handle is one already handed out. */
  predicate Valid(rt: Runtime) {
    && (rt.polling.None? ==> !rt.restart)
    && (rt.polling.Some? ==> 1 <= rt.polling.value.handle <= rt.armed)
  }

  /* --------------------------- starting and stopping --------------------------- */

  /** `reset`: both flags back to `false`; storage, effects and handles stay. */
  function ResetFlags(rt: Runtime): (r: Runtime)
    ensures r.polling.None? && !r.restart
    ensures Valid(r)
    ensures r.store == rt.store && r.events == rt.events && r.armed == rt.armed
  {
    rt.(polling := None, restart := false)
  }

  /** `stopService`: the current timer is cleared, then both flags reset. */
  function Stopped(rt: Runtime): (r: Runtime)
    ensures r.polling.None? && !r.restart && Valid(r)
    ensures r.store == rt.store && r.armed == rt.armed
    ensures r.events == rt.events + [Cleared(rt.polling)]
  {
    ResetFlags(rt.(events := rt.events + [Cleared(rt.polling)]))
  }

  function Measure(rt: Runtime): nat {
    if rt.restart then 1 else 0
  }

  /** `startService`: with a refresh time set, a timer with that period
      (in milliseconds) is armed and one cycle runs at once; without one,
      nothing happens. */
  function Started(rt: Runtime, env: Env): Runtime
    decreases Measure(rt), 1
  {
    var o := Storage.OptionsOf(rt.store);
    if o.refreshTime.None? then rt
    else
      var timer := Timer(rt.armed + 1, o.refreshTime.value * 1000);
      Cycled(rt.(polling := Some(timer), armed := rt.armed + 1, events := rt.events + [Armed(timer)]), env)
  }

  /** `service`: one polling cycle with the current `restart` flag, after
      which the stop or restart it asked for is carried out. */
  function Cycled(rt: Runtime, env: Env): Runtime
    decreases Measure(rt), 0
  {
    var out := Polling.RunSpec(rt.store, rt.restart, env.browser, env.remote);
    var rt1 := rt.(store := out.state, events := rt.events + out.log);
    if |out.log| > 0 && out.log[|out.log| - 1] == StopCalled then Stopped(rt1)
    else if |out.log| > 0 && out.log[|out.log| - 1] == RestartCalled then Started(Stopped(rt1), env)
    else rt1
  }

  /** `init`: the service starts when the stored list is not empty. */
  function Initialised(rt: Runtime, env: Env): Runtime {
    if |Storage.ChangesOf(rt.store)| > 0 then Started(rt, env) else rt
  }

  /* ------------------------------ the handlers ------------------------------ */

  function Ids(cs: seq<Change>): set<Option<string>> {
    set i | 0 <= i < |cs| :: cs[i].id
  }

  function Outside(ids: set<Option<string>>): Change -> bool {
    (c: Change) => c.id !in ids
  }

  /** The list `getChanges` answers with: the pending buffer, then the
      stored entries whose id is not in the buffer. */
  function Merge(updated: seq<Change>, changes: seq<Change>): (r: seq<Change>)
    ensures |updated| <= |r| <= |updated| + |changes|
    ensures r[..|updated|] == updated
    ensures forall i :: |updated| <= i < |r| ==> r[i] in changes && r[i].id !in Ids(updated)
    ensures forall i :: 0 <= i < |changes| && changes[i].id !in Ids(updated) ==> changes[i] in r[|updated|..]
    ensures forall x: Change :: multiset(r[|updated|..])[x] == if x.id !in Ids(updated) then multiset(changes)[x] else 0
  {
    var rest := Filter(changes, Outside(Ids(updated)));
    assert (updated + rest)[|updated|..] == rest;
    assert forall x: Change :: multiset(rest)[x] == if x.id !in Ids(updated) then multiset(changes)[x] else 0 by {
      forall x: Change ensures multiset(rest)[x] == if x.id !in Ids(updated) then multiset(changes)[x] else 0 {
        FilterCounts(changes, Outside(Ids(updated)), x);
      }
    }
    updated + rest
  }

  /** The stored entries keep their order behind the buffer. */
  lemma MergeKeepsOrder(updated: seq<Change>, changes: seq<Change>)
    ensures Embeds(Merge(updated, changes)[|updated|..], changes)
  {
    var rest := Filter(changes, Outside(Ids(updated)));
    assert Merge(updated, changes)[|updated|..] == rest;
    FilterEmbeds(changes, Outside(Ids(updated)));
  }

  /** With an empty buffer the answer is the stored list. */
  lemma MergeNothingPending(changes: seq<Change>)
    ensures Merge([], changes) == changes
  {
    assert Ids([]) == {};
    FilterKeepsAll(changes, Outside({}));
  }

  predicate UniqueIds(cs: seq<Change>) {
    forall i, j :: 0 <= i < j < |cs| ==> cs[i].id != cs[j].id
  }

  lemma {:induction false} EmbedsUnique(r: seq<Change>, s: seq<Change>)
    requires Embeds(r, s) && UniqueIds(s)
    ensures UniqueIds(r)
    ensures forall i :: 0 <= i < |r| ==> r[i] in s
    decreases |s|
  {
    if r != [] && s != [] {
      if r[0] == s[0] && Embeds(r[1..], s[1..]) {
        EmbedsUnique(r[1..], s[1..]);
        forall j | 0 < j < |r| ensures r[0].id != r[j].id {
          assert r[j] == r[1..][j - 1];
          var k :| 0 <= k < |s[1..]| && s[1..][k] == r[j];
          assert s[k + 1] == r[j];
        }
        forall i, j | 0 <= i < j < |r| ensures r[i].id != r[j].id {
          if i > 0 {
            assert r[i] == r[1..][i - 1] && r[j] == r[1..][j - 1];
          }
        }
        forall i | 0 <= i < |r| ensures r[i] in s {
          if i > 0 {
            assert r[i] == r[1..][i - 1];
          }
        }
      } else {
        assert UniqueIds(s[1..]) by {
          forall i, j | 0 <= i < j < |s[1..]| ensures s[1..][i].id != s[1..][j].id {
            assert s[1..][i] == s[i + 1] && s[1..][j] == s[j + 1];
          }
        }
        EmbedsUnique(r, s[1..]);
      }
    }
  }

  /** When the buffer and the stored list each name every change once, so
      does the answer: an entry of the buffer hides its stored copy. */
  lemma MergeUniqueIds(updated: seq<Change>, changes: seq<Change>)
    requires UniqueIds(updated) && UniqueIds(changes)
    ensures UniqueIds(Merge(updated, changes))
  {
    var r := Merge(updated, changes);
    var rest := r[|updated|..];
    MergeKeepsOrder(updated, changes);
    EmbedsUnique(rest, changes);
    forall i, j | 0 <= i < j < |r| ensures r[i].id != r[j].id {
      if j >= |updated| {
        assert r[j] == rest[j - |updated|];
        if i < |updated| {
          assert r[i] == updated[i];
          assert r[i].id in Ids(updated);
        } else {
          assert r[i] == rest[i - |updated|];
        }
      } else {
        assert r[i] == updated[i] && r[j] == updated[j];
      }
    }
  }

  /** The entries `removeChanges` keeps: those whose id is not listed. */
  function Untargeted(ids: seq<string>): Change -> bool {
    (c: Change) => !(c.id.Some? && c.id.value in ids)
  }

  /** `handleMessage` and the handler it dispatches to. */
  function OnMessage(rt: Runtime, env: Env, m: Message): Handled {
    match m
    case GetData =>
      Handled(rt.(store := rt.store.(updated := Some([]))),
              Listing(Merge(Storage.PendingOf(rt.store), Storage.ChangesOf(rt.store))))
    case AddChange(id) =>
      var saved := rt.(store := rt.store.(changes := Some([Placeholder(id)] + Storage.ChangesOf(rt.store))));
      Handled(if rt.polling.None? then Started(saved, env) else saved, Flag(true))
    case RemoveChanges(ids) =>
      var kept := Filter(Storage.ChangesOf(rt.store), Untargeted(ids));
      var rt1 := if |kept| == 0 then Stopped(rt) else rt;
      Handled(rt1.(store := rt1.store.(changes := Some(kept))), Flag(true))
    case TestEndpoint(endpoint, credentials) =>
      Handled(rt, Answer(env.probe(endpoint, credentials)))
    case TriggerRestart =>
      Handled(if rt.polling.Some? then rt.(restart := true) else rt, Flag(true))
    case ExistsConfig =>
      var config := Storage.ConfigCheck(Storage.OptionsOf(rt.store));
      Handled(rt, if config.Ok? then Answer(config.value) else Failed(config.fault))
    case OpenChange(id) =>
      var o := Storage.OptionsOf(rt.store);
      Handled(if o.endpoint.Some? then rt.(events := rt.events + [OpenTab(o.endpoint.value + "/" + id)]) else rt,
              Flag(true))
    case Unrecognised(_) =>
      Handled(rt, Flag(false))
  }

  /* ------------------------------ what they keep ------------------------------ */

  /** A cycle, and a start, keep the controller valid, only ever append to
      the effects, never hand out a handle twice and never write the options. */
  lemma {:induction false} CycledKeeps(rt: Runtime, env: Env)
    requires Valid(rt)
    ensures var r := Cycled(rt, env);
      && Valid(r)
      && rt.events <= r.events
      && rt.armed <= r.armed
      && r.store.options == rt.store.options
    decreases Measure(rt), 0
  {
    var out := Polling.RunSpec(rt.store, rt.restart, env.browser, env.remote);
    var rt1 := rt.(store := out.state, events := rt.events + out.log);
    if |out.log| > 0 && out.log[|out.log| - 1] == StopCalled {
    } else if |out.log| > 0 && out.log[|out.log| - 1] == RestartCalled {
      assert rt.restart;
      StartedKeeps(Stopped(rt1), env);
    }
  }

  lemma {:induction false} StartedKeeps(rt: Runtime, env: Env)
    requires Valid(rt)
    ensures var r := Started(rt, env);
      && Valid(r)
      && rt.events <= r.events
      && rt.armed <= r.armed
      && r.store.options == rt.store.options
    decreases Measure(rt), 1
  {
    var o := Storage.OptionsOf(rt.store);
    if o.refreshTime.Some? {
      var timer := Timer(rt.armed + 1, o.refreshTime.value * 1000);
      CycledKeeps(rt.(polling := Some(timer), armed := rt.armed + 1, events := rt.events + [Armed(timer)]), env);
    }
  }

  /** Every handler keeps the controller valid and only appends effects. */
  lemma OnMessageKeeps(rt: Runtime, env: Env, m: Message)
    requires Valid(rt)
    ensures Valid(OnMessage(rt, env, m).rt)
    ensures rt.events <= OnMessage(rt, env, m).rt.events
  {
    if m.AddChange? && rt.polling.None? {
      StartedKeeps(rt.(store := rt.store.(changes := Some([Placeholder(m.id)] + Storage.ChangesOf(rt.store)))), env);
    }
  }

  /** A cycle that does not restart never sets the flag. */
  lemma CycledNotRestarting(rt: Runtime, env: Env)
    requires !rt.restart
    ensures !Cycled(rt, env).restart
  {
  }

  lemma StartedNotRestarting(rt: Runtime, env: Env)
    requires !rt.restart
    ensures !Started(rt, env).restart
  {
    var o := Storage.OptionsOf(rt.store);
    if o.refreshTime.Some? {
      var timer := Timer(rt.armed + 1, o.refreshTime.value * 1000);
      CycledNotRestarting(rt.(polling := Some(timer), armed := rt.armed + 1, events := rt.events + [Armed(timer)]), env);
    }
  }

  /** A requested restart is served by the next cycle: the timer is cleared,
      a fresh one armed (when a refresh time is set) with a cycle that runs
      without the flag, and the flag is down afterwards. It stays up only
      while reading the options throws, since then the cycle never starts. */
  lemma CycleServesRestart(rt: Runtime, env: Env)
    requires rt.restart
    ensures var config := Storage.ConfigCheck(Storage.OptionsOf(rt.store));
      && (config == Ok(true) ==>
            Cycled(rt, env) == Started(Stopped(rt.(events := rt.events + [RestartCalled])), env))
      && (Cycled(rt, env).restart <==> config.Err?)
  {
    var config := Storage.ConfigCheck(Storage.OptionsOf(rt.store));
    if config == Ok(true) {
      StartedNotRestarting(Stopped(rt.(events := rt.events + [RestartCalled])), env);
    }
  }

  /** `init` starts the service exactly when the stored list is not empty,
      and a timer runs afterwards only if a refresh time is set. Starting
      arms a timer with the next handle and the refresh time in
      milliseconds before anything else happens. */
  lemma InitialisedStarts(rt: Runtime, env: Env)
    requires rt.polling.None? && !rt.restart
    ensures |Storage.ChangesOf(rt.store)| == 0 ==> Initialised(rt, env) == rt
    ensures |Storage.ChangesOf(rt.store)| > 0 ==> Initialised(rt, env) == Started(rt, env)
    ensures Storage.OptionsOf(rt.store).refreshTime.None? ==> Initialised(rt, env) == rt
    ensures Initialised(rt, env).polling.Some? ==>
      |Storage.ChangesOf(rt.store)| > 0 && Storage.OptionsOf(rt.store).refreshTime.Some?
    ensures var t := Storage.OptionsOf(rt.store).refreshTime;
      |Storage.ChangesOf(rt.store)| > 0 && t.Some? ==>
        && |Initialised(rt, env).events| > |rt.events|
        && Initialised(rt, env).events[..|rt.events| + 1] == rt.events + [Armed(Timer(rt.armed + 1, t.value * 1000))]
  {
    var t := Storage.OptionsOf(rt.store).refreshTime;
    if |Storage.ChangesOf(rt.store)| > 0 && t.Some? {
      var timer := Timer(rt.armed + 1, t.value * 1000);
      var armedRt := rt.(polling := Some(timer), armed := rt.armed + 1, events := rt.events + [Armed(timer)]);
      CycledKeeps(armedRt, env);
    }
  }

  /** GET_DATA answers with the buffer merged in front of the stored list,
      empties the buffer and changes nothing else. */
  lemma OnGetData(rt: Runtime, env: Env)
    ensures var h := OnMessage(rt, env, GetData);
      && h.reply == Listing(Merge(Storage.PendingOf(rt.store), Storage.ChangesOf(rt.store)))
      && Storage.PendingOf(h.rt.store) == []
      && Storage.ChangesOf(h.rt.store) == Storage.ChangesOf(rt.store)
      && h.rt == rt.(store := rt.store.(updated := Some([])))
  {
  }

  /** ADD_CHANGE puts the placeholder in front of the list and answers
      true; the service is started only when no timer runs, and then its
      first cycle sees the new list. */
  lemma OnAddChange(rt: Runtime, env: Env, id: string)
    ensures var h := OnMessage(rt, env, AddChange(id));
      var saved := rt.store.(changes := Some([Placeholder(id)] + Storage.ChangesOf(rt.store)));
      && h.reply == Flag(true)
      && (rt.polling.Some? ==> h.rt == rt.(store := saved))
      && (rt.polling.None? ==> h.rt == Started(rt.(store := saved), env))
  {
  }

  /** REMOVE_CHANGES keeps, in order, exactly the entries whose id is not
      listed, answers true, and stops the service when nothing is left;
      nothing else changes. */
  lemma OnRemoveChanges(rt: Runtime, env: Env, ids: seq<string>)
    ensures var h := OnMessage(rt, env, RemoveChanges(ids));
      var before := Storage.ChangesOf(rt.store);
      var after := Storage.ChangesOf(h.rt.store);
      && h.reply == Flag(true)
      && Embeds(after, before)
      && (forall i :: 0 <= i < |after| ==> !(after[i].id.Some? && after[i].id.value in ids))
      && (forall i :: 0 <= i < |before| && !(before[i].id.Some? && before[i].id.value in ids) ==> before[i] in after)
      && (forall x: Change :: multiset(after)[x] == if x.id.Some? && x.id.value in ids then 0 else multiset(before)[x])
      && (|after| == 0 ==> h.rt.polling.None? && !h.rt.restart)
      && (|after| > 0 ==> h.rt.polling == rt.polling && h.rt.restart == rt.restart)
      && h.rt == (if |after| == 0 then Stopped(rt) else rt).(store := rt.store.(changes := Some(after)))
  {
    var before := Storage.ChangesOf(rt.store);
    FilterEmbeds(before, Untargeted(ids));
    forall x: Change ensures multiset(Filter(before, Untargeted(ids)))[x] == if x.id.Some? && x.id.value in ids then 0 else multiset(before)[x] {
      FilterCounts(before, Untargeted(ids), x);
    }
  }

  /** RESTART_SERVICE answers true and raises the flag only while a timer runs. */
  lemma OnRestartService(rt: Runtime, env: Env)
    ensures var h := OnMessage(rt, env, TriggerRestart);
      && h.reply == Flag(true)
      && h.rt.restart == (rt.restart || rt.polling.Some?)
      && h.rt == rt.(restart := h.rt.restart)
  {
  }

  /** EXISTS_CONFIG answers whether the options are complete, and rejects
      with the fault when reading them throws; it changes nothing. */
  lemma OnExistsConfig(rt: Runtime, env: Env)
    ensures var h := OnMessage(rt, env, ExistsConfig);
      && h.rt == rt
      && (h.reply == Answer(true) <==> Storage.ConfigCheck(Storage.OptionsOf(rt.store)) == Ok(true))
      && (h.reply.Failed? <==> Storage.ConfigCheck(Storage.OptionsOf(rt.store)).Err?)
      && var c := Storage.ConfigCheck(Storage.OptionsOf(rt.store));
         h.reply == (if c.Ok? then Answer(c.value) else Failed(c.fault))
  {
  }

  /** OPEN_CHANGE opens `endpoint/id` when an endpoint is set, and answers true. */
  lemma OnOpenChange(rt: Runtime, env: Env, id: string)
    ensures var h := OnMessage(rt, env, OpenChange(id));
      var e := Storage.OptionsOf(rt.store).endpoint;
      && h.reply == Flag(true)
      && h.rt.events == rt.events + (if e.Some? then [OpenTab(e.value + "/" + id)] else [])
      && h.rt == rt.(events := h.rt.events)
  {
  }

  /** Any other message is answered with false and changes nothing. */
  lemma OnUnrecognised(rt: Runtime, env: Env, kind: string)
    ensures OnMessage(rt, env, Unrecognised(kind)) == Handled(rt, Flag(false))
  {
  }

  /* --------------------------- the controller object --------------------------- */

  /** The background page: the two flags, the effects log and the storage
      area. Each method carries out the function of the same name above. */
  class Controller {
    var polling: Option<Timer>
    var restart: bool
    var events: seq<Effect>
    var armed: nat
    const store: Storage.Store

    function State(): Runtime
      reads this, store
    {
      Runtime(polling, restart, store.State(), events, armed)
    }

    /** The module is loaded: both flags are `false`. */
    constructor (store: Storage.Store)
      ensures this.store == store
      ensures State() == Runtime(None, false, store.State(), [], 0)
      ensures Valid(State())
    {
      polling := None;
      restart := false;
      events := [];
      armed := 0;
      this.store := store;
    }

    method Reset()
      modifies this
      ensures State() == ResetFlags(old(State()))
    {
      polling := None;
      restart := false;
    }

    method StopService()
      modifies this
      ensures State() == Stopped(old(State()))
    {
      events := events + [Cleared(polling)];
      Reset();
    }

    /** The timer is armed before the first cycle runs, so a cycle that stops
        the service clears the timer just armed. */
    method StartService(env: Env)
      modifies this, store
      ensures State() == Started(old(State()), env)
      decreases Measure(State()), 2
    {
      var options := Storage.OptionsOf(store.State());
      if options.refreshTime.Some? {
        var timer := Timer(armed + 1, options.refreshTime.value * 1000);
        armed := armed + 1;
        polling := Some(timer);
        events := events + [Armed(timer)];
        Service(env);
      }
    }

    method RestartService(env: Env)
      modifies this, store
      ensures State() == Started(Stopped(old(State())), env)
      decreases 0, 3
    {
      StopService();
      StartService(env);
    }

    /** The timer's callback: one cycle, then the stop or restart it asked for. */
    method Service(env: Env)
      modifies this, store
      ensures State() == Cycled(old(State()), env)
      ensures Valid(old(State())) ==> Valid(State())
      decreases Measure(State()), 1
    {
      ghost var rt0 := State();
      if Valid(rt0) {
        CycledKeeps(rt0, env);
      }
      var log := Polling.Run(store, restart, env.browser, env.remote);
      events := events + log;
      ghost var out := Polling.RunSpec(rt0.store, rt0.restart, env.browser, env.remote);
      assert log == out.log;
      assert State() == rt0.(store := out.state, events := rt0.events + out.log);
      Follow(env, log);
    }

    /** The callback a cycle ended with: `stopService`, `restartService`,
        or none. The restart callback is only ever passed a raised flag. */
    method Follow(env: Env, log: seq<Effect>)
      requires |log| > 0 && log[|log| - 1] == RestartCalled ==> restart
      modifies this, store
      ensures State() ==
        if |log| > 0 && log[|log| - 1] == StopCalled then Stopped(old(State()))
        else if |log| > 0 && log[|log| - 1] == RestartCalled then Started(Stopped(old(State())), env)
        else old(State())
      decreases Measure(State()), 0
    {
      if |log| > 0 && log[|log| - 1] == StopCalled {
        StopService();
      } else if |log| > 0 && log[|log| - 1] == RestartCalled {
        RestartService(env);
      }
    }

    method Init(env: Env)
      modifies this, store
      ensures State() == Initialised(old(State()), env)
    {
      var data := Storage.ChangesOf(store.State());
      if |data| > 0 {
        StartService(env);
      }
    }

    method HandleMessage(env: Env, m: Message) returns (reply: Reply)
      modifies this, store
      ensures Handled(State(), reply) == OnMessage(old(State()), env, m)
      ensures Valid(old(State())) ==> Valid(State())
    {
      if Valid(State()) {
        OnMessageKeeps(State(), env, m);
      }
      match m
      case GetData =>
        var changes := Storage.ChangesOf(store.State());
        var updated := store.GetUpdatedChanges();
        reply := Listing(Merge(updated, changes));
      case AddChange(id) =>
        var changes := Storage.ChangesOf(store.State());
        var updated := [Placeholder(id)] + changes;
        store.SaveChanges(updated);
        if polling.None? {
          StartService(env);
        }
        reply := Flag(true);
      case RemoveChanges(ids) =>
        var changes := Storage.ChangesOf(store.State());
        var updated := Filter(changes, Untargeted(ids));
        if |updated| == 0 {
          StopService();
        }
        store.SaveChanges(updated);
        reply := Flag(true);
      case TestEndpoint(endpoint, credentials) =>
        reply := Answer(env.probe(endpoint, credentials));
      case TriggerRestart =>
        if polling.Some? {
          restart := true;
        }
        reply := Flag(true);
      case ExistsConfig =>
        var config := Storage.ConfigCheck(Storage.OptionsOf(store.State()));
        reply := if config.Ok? then Answer(config.value) else Failed(config.fault);
      case OpenChange(id) =>
        var options := Storage.OptionsOf(store.State());
        if options.endpoint.Some? {
          events := events + [OpenTab(options.endpoint.value + "/" + id)];
        }
        reply := Flag(true);
      case Unrecognised(_) =>
        reply := Flag(false);
    }
  }
}
