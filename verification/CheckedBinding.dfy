/** A tool call that names an alias is checked by the MCP server against its own reading of the
    target table and carried out by the daemon against the daemon's copy (src/server.mjs,
    src/daemon.mjs, src/core/target-table.mjs). These are two processes and two requests; the table
    file and the daemon can both change in between. One step here is the code between two awaits.
    What a read of the file returns is left open, so every history of the file is covered. */
module CheckedBinding {
  import opened Sequences

  datatype Row = Row(sessionId: string, cwd: string, displayName: Option<string>, permissionMode: string)

  type Table = map<string, Row>

  /** `targetTableDigest`: SHA-256 over the canonical table, taken as injective. */
  datatype Digest = DigestOf(table: Table)

  /** What a look at the file's bytes gives: the file is absent, or some fingerprint. */
  datatype Fingerprint = Absent | Bytes(hash: nat)

  datatype Watch = Watch(seen: Option<Fingerprint>, table: Table, digest: Digest)

  datatype Reading = Reading(changed: bool, unreadable: bool, table: Table, digest: Digest)

  /** The daemon's variables: `targets`, `targetsDigest`, `core.targets` and the table watch. */
  datatype Vars = Vars(targets: Table, digest: Digest, coreTargets: Table, watch: Watch)

  /** A daemon process: its pid and start time together are unique. */
  type DaemonId = nat

  datatype Binding = Binding(daemon: DaemonId, digest: Digest)

  const REACHES_A_TARGET: set<string> := {"peer_status", "peer_send", "code_review_request", "milestone_recover_ack"}
  const REACHES_A_TARGET_UNNAMED: set<string> := {"milestone_recover_ack"}

  // ---------- the daemon between its awaits ----------

  /** Where a reading comes from: there was no file; a load, which found the file at a fingerprint and
      everything else it depends on (mode, owner, the directories the rows name) as `around`; or memory. */
  datatype Origin = NoFile | ByLoad(mark: Fingerprint, around: nat) | Remembered

  /** `seen` is the fingerprint a load was started for. */
  datatype Stage = Arrived | Refreshed | Closed
                 | Loading(seen: Fingerprint) | HasReading(reading: Reading, from: Origin)

  /** `tableWatch.read()` up to its load: an unchanged file is answered from memory. */
  function Observe(v: Vars, seen: Fingerprint): (Vars, Stage)
  {
    var w := v.watch;
    if w.seen == Some(seen) then (v, HasReading(Reading(false, false, w.table, w.digest), Remembered))
    else if seen == Absent then
      var w' := Watch(Some(seen), map[], DigestOf(map[]));
      (v.(watch := w'), HasReading(Reading(true, false, map[], w'.digest), NoFile))
    else (v.(watch := w.(seen := Some(seen))), Loading(seen))
  }

  /** `tableWatch.read()` after its load. A load that fails keeps the last good table. */
  function Load(v: Vars, loaded: Option<Table>, from: Origin): (Vars, Stage)
  {
    match loaded
    case None => (v, HasReading(Reading(true, true, v.watch.table, v.watch.digest), from))
    case Some(table) =>
      var w := v.watch.(table := table, digest := DigestOf(table));
      (v.(watch := w), HasReading(Reading(true, false, table, w.digest), from))
  }

  /** `refreshTargets()` after the read. */
  function Adopt(v: Vars, reading: Reading): Vars
  {
    if !reading.changed || reading.unreadable then v
    else v.(targets := reading.table, digest := reading.digest, coreTargets := reading.table)
  }

  /** `assertChecked` */
  predicate Checked(self: DaemonId, v: Vars, bound: Option<Binding>)
  {
    bound == Some(Binding(self, v.digest))
  }

  /** The three copies of the table agree, and the watch's table and digest agree. */
  predicate Coherent(v: Vars)
  {
    v.digest == DigestOf(v.targets) && v.coreTargets == v.targets && v.watch.digest == DigestOf(v.watch.table)
  }

  predicate CoherentStage(stage: Stage)
  {
    stage.HasReading? ==> stage.reading.digest == DigestOf(stage.reading.table)
  }

  function Started(startup: Table, seen: Fingerprint): Vars
  {
    Vars(startup, DigestOf(startup), startup, Watch(Some(seen), startup, DigestOf(startup)))
  }

  /** The daemon as it is written: variables changed in place between awaits. */
  class Daemon {
    var targets: Table
    var targetsDigest: Digest
    var coreTargets: Table
    var watch: Watch

    function State(): Vars
      reads this
    {
      Vars(targets, targetsDigest, coreTargets, watch)
    }

    /** The first read of the table; one that fails ends the daemon before it starts. */
    constructor (startup: Table, seen: Fingerprint)
      requires seen == Absent ==> startup == map[]
      ensures State() == Started(startup, seen) && Coherent(State())
    {
      targets, targetsDigest, coreTargets := startup, DigestOf(startup), startup;
      watch := Watch(Some(seen), startup, DigestOf(startup));
    }

    method ObserveTable(seen: Fingerprint) returns (stage: Stage)
      requires Coherent(State())
      modifies this`watch
      ensures (State(), stage) == Observe(old(State()), seen)
      ensures Coherent(State()) && CoherentStage(stage)
    {
      if watch.seen == Some(seen) {
        stage := HasReading(Reading(false, false, watch.table, watch.digest), Remembered);
      } else {
        watch := watch.(seen := Some(seen));
        if seen == Absent {
          watch := watch.(table := map[]);
          watch := watch.(digest := DigestOf(watch.table));
          stage := HasReading(Reading(true, false, watch.table, watch.digest), NoFile);
        } else {
          stage := Loading(seen);
        }
      }
    }

    method FinishLoad(loaded: Option<Table>, from: Origin) returns (stage: Stage)
      requires Coherent(State())
      modifies this`watch
      ensures (State(), stage) == Load(old(State()), loaded, from)
      ensures Coherent(State()) && CoherentStage(stage)
    {
      if loaded.None? {
        stage := HasReading(Reading(true, true, watch.table, watch.digest), from);
      } else {
        watch := watch.(table := loaded.value, digest := DigestOf(loaded.value));
        stage := HasReading(Reading(true, false, watch.table, watch.digest), from);
      }
    }

    method AdoptReading(reading: Reading)
      requires Coherent(State()) && reading.digest == DigestOf(reading.table)
      modifies this`targets, this`targetsDigest, this`coreTargets
      ensures State() == Adopt(old(State()), reading) && Coherent(State())
    {
      if !reading.changed || reading.unreadable { return; }
      targets := reading.table;
      targetsDigest := reading.digest;
      coreTargets := targets;
    }
  }

  // ---------- the two processes ----------

  datatype Request = Request(call: Option<nat>, name: string, bound: Option<Binding>, stage: Stage)

  datatype Live = Live(id: DaemonId, vars: Vars, requests: map<nat, Request>)

  /** What the server's own read of the table gave: it was read, it is not there, or neither. */
  datatype ServerReading = Read(table: Table) | NotThere | Unreadable

  datatype Phase = HasTable | Asked | Refused
                 | Answered(daemon: DaemonId, digest: Digest) | Sent(checkedBy: Option<DaemonId>)

  datatype Call = Call(reading: ServerReading, name: string, alias: Option<string>, phase: Phase)

  /** What was in force at the moment `dispatch` was entered for a method that reaches a target. */
  datatype Dispatched = Dispatched(call: Option<nat>, name: string, bound: Option<Binding>,
                                   daemon: DaemonId, targets: Table, coreTargets: Table)

  datatype System = System(live: Option<Live>, calls: map<nat, Call>, nextDaemon: nat, nextRequest: nat,
                           log: seq<Dispatched>)

  datatype Event =
    | StartDaemon(startup: Table, seen: Fingerprint, from: Origin)
    | KillDaemon
    | ServerRead(call: nat, reading: ServerReading, name: string, alias: Option<string>)
    | ServerAsk(call: nat)
    | ServerBind(call: nat)
    | ServerFails(call: nat)
    | OtherClient(name: string, bound: Option<Binding>)
    | DaemonObserve(request: nat, seen: Fingerprint)
    | DaemonLoad(request: nat, loaded: Option<Table>, from: Origin)
    | DaemonAdopt(request: nat)
    | DaemonDispatch(request: nat)

  function TableOf(c: Call): Table
  {
    if c.reading.Read? then c.reading.table else map[]
  }

  /** `callTool`: does this call go through the checkpoint? */
  predicate MustCheck(c: Call)
  {
    c.alias.Some? || c.name in REACHES_A_TARGET_UNNAMED
  }

  /** The refusals the server makes by itself, before it asks the daemon anything. */
  predicate RefusedHere(c: Call)
  {
    c.reading.Unreadable? || (c.alias.Some? && c.alias.value !in TableOf(c))
  }

  function Deliver(s: System, r: Request): System
  {
    if s.live.None? then s
    else
      var l := s.live.value;
      s.(live := Some(l.(requests := l.requests[s.nextRequest := r])), nextRequest := s.nextRequest + 1)
  }

  function Phased(s: System, call: nat, phase: Phase): System
    requires call in s.calls
  {
    s.(calls := s.calls[call := s.calls[call].(phase := phase)])
  }

  predicate At(s: System, request: nat, p: Stage -> bool)
  {
    s.live.Some? && request in s.live.value.requests && p(s.live.value.requests[request].stage)
  }

  function Moved(s: System, request: nat, vars: Vars, stage: Stage): System
    requires s.live.Some? && request in s.live.value.requests
  {
    var l := s.live.value;
    s.(live := Some(l.(vars := vars, requests := l.requests[request := l.requests[request].(stage := stage)])))
  }

  function Step(s: System, e: Event): System
  {
    match e
    case StartDaemon(startup, seen, _) =>
      if s.live.Some? || (seen == Absent && startup != map[]) then s
      else s.(live := Some(Live(s.nextDaemon, Started(startup, seen), map[])), nextDaemon := s.nextDaemon + 1)
    case KillDaemon => s.(live := None)
    case ServerRead(call, reading, name, alias) =>
      if call in s.calls then s else s.(calls := s.calls[call := Call(reading, name, alias, HasTable)])
    case ServerAsk(call) => if call in s.calls && s.calls[call].phase.HasTable? then Ask(s, call) else s
    case ServerBind(call) => if call in s.calls && s.calls[call].phase.Answered? then Bind(s, call) else s
    case ServerFails(call) => if call in s.calls && s.calls[call].phase.Asked? then Phased(s, call, Refused) else s
    case OtherClient(name, bound) => Deliver(s, Request(None, name, bound, Arrived))
    case DaemonObserve(r, seen) =>
      if At(s, r, (g: Stage) => g.Arrived?) then
        var (vars, stage) := Observe(s.live.value.vars, seen);
        Moved(s, r, vars, stage)
      else s
    case DaemonLoad(r, loaded, from) =>
      if At(s, r, (g: Stage) => g.Loading?) then
        var (vars, stage) := Load(s.live.value.vars, loaded, from);
        Moved(s, r, vars, stage)
      else s
    case DaemonAdopt(r) =>
      if At(s, r, (g: Stage) => g.HasReading?) then
        Moved(s, r, Adopt(s.live.value.vars, s.live.value.requests[r].stage.reading), Refreshed)
      else s
    case DaemonDispatch(r) => if At(s, r, (g: Stage) => g.Refreshed?) then Dispatch(s, r) else s
  }

  /** The first half of `callTool`: its own refusals, then `daemon_status`; a call that needs no
      check is sent at once, with no binding. */
  function Ask(s: System, call: nat): System
    requires call in s.calls
  {
    var c := s.calls[call];
    if !MustCheck(c) then Deliver(Phased(s, call, Sent(None)), Request(Some(call), c.name, None, Arrived))
    else if RefusedHere(c) then Phased(s, call, Refused)
    else Deliver(Phased(s, call, Asked), Request(Some(call), "daemon_status", None, Arrived))
  }

  /** The second half: the digests are compared, and the command carries what was checked. It goes
      to whatever daemon is there by then. */
  function Bind(s: System, call: nat): System
    requires call in s.calls && s.calls[call].phase.Answered?
  {
    var c := s.calls[call];
    var digest := DigestOf(TableOf(c));
    if c.phase.digest != digest then Phased(s, call, Refused)
    else
      var bound := Some(Binding(c.phase.daemon, digest));
      Deliver(Phased(s, call, Sent(Some(c.phase.daemon))), Request(Some(call), c.name, bound, Arrived))
  }

  /** `assertChecked` and the entry of `dispatch`, with no await between them. */
  function Dispatch(s: System, r: nat): System
    requires s.live.Some? && r in s.live.value.requests
  {
    var l := s.live.value;
    var request := l.requests[r];
    var closed := Moved(s, r, l.vars, Closed);
    if request.name in REACHES_A_TARGET then
      if !Checked(l.id, l.vars, request.bound) then closed
      else
        var entry := Dispatched(request.call, request.name, request.bound, l.id, l.vars.targets, l.vars.coreTargets);
        closed.(log := s.log + [entry])
    else if request.name == "daemon_status" && request.call.Some? && request.call.value in s.calls
         && s.calls[request.call.value].phase.Asked?
    then Phased(closed, request.call.value, Answered(l.id, l.vars.digest))
    else closed
  }

  function Run(s: System, events: seq<Event>): System
  {
    if events == [] then s else Step(Run(s, Front(events)), Last(events))
  }

  const INITIAL: System := System(None, map[], 0, 0, [])

  // ---------- the invariant ----------

  /** A request the server sent for a call carries no binding, or the one the call was checked with. */
  ghost predicate Bound(calls: map<nat, Call>, r: Request)
  {
    r.call.Some? && r.bound.Some? ==>
      && r.call.value in calls
      && GoodCall(calls[r.call.value], r.name, r.bound.value)
  }

  ghost predicate GoodCall(c: Call, name: string, binding: Binding)
  {
    && c.phase == Sent(Some(binding.daemon))
    && name == c.name
    && !RefusedHere(c)
    && binding.digest == DigestOf(TableOf(c))
  }

  ghost predicate LiveOk(s: System)
  {
    s.live.Some? ==>
      && Coherent(s.live.value.vars)
      && forall r :: r in s.live.value.requests ==>
           CoherentStage(s.live.value.requests[r].stage) && Bound(s.calls, s.live.value.requests[r])
  }

  ghost predicate EntryOk(calls: map<nat, Call>, e: Dispatched)
  {
    && e.bound == Some(Binding(e.daemon, DigestOf(e.targets)))
    && e.coreTargets == e.targets
    && Bound(calls, Request(e.call, e.name, e.bound, Closed))
  }

  ghost predicate Good(s: System)
  {
    && LiveOk(s)
    && (forall c ::
          c in s.calls && (s.calls[c].phase.Asked? || s.calls[c].phase.Answered?) ==> !RefusedHere(s.calls[c]))
    && (forall k :: 0 <= k < |s.log| ==> EntryOk(s.calls, s.log[k]))
  }

  /** What a call was sent with never changes afterwards. */
  ghost predicate KeepsSent(before: map<nat, Call>, after: map<nat, Call>)
  {
    forall c :: c in before && before[c].phase.Sent? ==> c in after && after[c] == before[c]
  }

  lemma LogKept(s: System, calls: map<nat, Call>)
    requires Good(s) && KeepsSent(s.calls, calls)
    ensures forall k :: 0 <= k < |s.log| ==> EntryOk(calls, s.log[k])
    ensures s.live.Some? ==> forall r :: r in s.live.value.requests ==> Bound(calls, s.live.value.requests[r])
  {
  }

  lemma DeliverGood(s: System, r: Request)
    requires Good(s) && Bound(s.calls, r) && CoherentStage(r.stage)
    ensures Good(Deliver(s, r))
  {
    hide Bound, EntryOk, Coherent, CoherentStage, RefusedHere;
  }

  lemma PhasedGood(s: System, call: nat, phase: Phase)
    requires Good(s) && call in s.calls && !s.calls[call].phase.Sent?
    requires phase.Asked? || phase.Answered? ==> !RefusedHere(s.calls[call])
    ensures Good(Phased(s, call, phase))
  {
    hide Bound, EntryOk, Coherent, CoherentStage;
    LogKept(s, Phased(s, call, phase).calls);
  }

  lemma MovedGood(s: System, r: nat, vars: Vars, stage: Stage)
    requires Good(s) && s.live.Some? && r in s.live.value.requests && Coherent(vars) && CoherentStage(stage)
    ensures Good(Moved(s, r, vars, stage))
  {
    hide EntryOk, Coherent, CoherentStage, RefusedHere;
    var before := s.live.value.requests[r];
    assert Bound(s.calls, before) ==> Bound(s.calls, before.(stage := stage));
  }

  lemma AskGood(s: System, call: nat)
    requires Good(s) && call in s.calls && s.calls[call].phase.HasTable?
    ensures Good(Ask(s, call))
  {
    hide Good, RefusedHere;
    var c := s.calls[call];
    if !MustCheck(c) {
      PhasedGood(s, call, Sent(None));
      DeliverGood(Phased(s, call, Sent(None)), Request(Some(call), c.name, None, Arrived));
    } else if RefusedHere(c) {
      PhasedGood(s, call, Refused);
    } else {
      PhasedGood(s, call, Asked);
      DeliverGood(Phased(s, call, Asked), Request(Some(call), "daemon_status", None, Arrived));
    }
  }

  lemma BindGood(s: System, call: nat)
    requires Good(s) && call in s.calls && s.calls[call].phase.Answered?
    ensures Good(Bind(s, call))
  {
    var c := s.calls[call];
    assert !RefusedHere(c);
    hide Good, RefusedHere;
    var digest := DigestOf(TableOf(c));
    if c.phase.digest != digest {
      PhasedGood(s, call, Refused);
    } else {
      var sent := Phased(s, call, Sent(Some(c.phase.daemon)));
      PhasedGood(s, call, Sent(Some(c.phase.daemon)));
      assert !RefusedHere(c) ==> !RefusedHere(sent.calls[call]) by { SameRefusal(c, sent.calls[call]); }
      DeliverGood(sent, Request(Some(call), c.name, Some(Binding(c.phase.daemon, digest)), Arrived));
    }
  }

  lemma SameRefusal(a: Call, b: Call)
    requires a.reading == b.reading && a.alias == b.alias
    ensures RefusedHere(a) == RefusedHere(b)
  {
  }

  lemma DispatchGood(s: System, r: nat)
    requires Good(s) && s.live.Some? && r in s.live.value.requests
    ensures Good(Dispatch(s, r))
  {
    hide RefusedHere, REACHES_A_TARGET;
    var l := s.live.value;
    var request := l.requests[r];
    var closed := Moved(s, r, l.vars, Closed);
    MovedGood(s, r, l.vars, Closed);
    if request.name in REACHES_A_TARGET {
      assert Bound(s.calls, request);
    } else if request.call.Some? && request.call.value in s.calls && s.calls[request.call.value].phase.Asked? {
      PhasedGood(closed, request.call.value, Answered(l.id, l.vars.digest));
    }
  }

  lemma DaemonGood(s: System, e: Event)
    requires Good(s) && (e.DaemonObserve? || e.DaemonLoad? || e.DaemonAdopt?)
    ensures Good(Step(s, e))
  {
    if s.live.Some? && e.request in s.live.value.requests {
      var v := s.live.value.vars;
      var stage := s.live.value.requests[e.request].stage;
      assert CoherentStage(stage);
      match e
      case DaemonObserve(r, seen) =>
        if stage.Arrived? { MovedGood(s, r, Observe(v, seen).0, Observe(v, seen).1); }
      case DaemonLoad(r, loaded, from) =>
        if stage.Loading? { MovedGood(s, r, Load(v, loaded, from).0, Load(v, loaded, from).1); }
      case DaemonAdopt(r) =>
        if stage.HasReading? { MovedGood(s, r, Adopt(v, stage.reading), Refreshed); }
    }
  }

  lemma ServerReadGood(s: System, e: Event)
    requires Good(s) && e.ServerRead?
    ensures Good(Step(s, e))
  {
    hide Bound, EntryOk, Coherent, CoherentStage, RefusedHere;
    LogKept(s, Step(s, e).calls);
  }

  lemma StepGood(s: System, e: Event)
    requires Good(s)
    ensures Good(Step(s, e))
  {
    match e
    case StartDaemon(_, _, _) => hide Bound, EntryOk, RefusedHere;
    case KillDaemon => hide Bound, EntryOk, RefusedHere;
    case ServerRead(_, _, _, _) => ServerReadGood(s, e);
    case ServerAsk(call) => if call in s.calls && s.calls[call].phase.HasTable? { AskGood(s, call); }
    case ServerBind(call) => if call in s.calls && s.calls[call].phase.Answered? { BindGood(s, call); }
    case ServerFails(call) => if call in s.calls && s.calls[call].phase.Asked? { PhasedGood(s, call, Refused); }
    case OtherClient(name, bound) => DeliverGood(s, Request(None, name, bound, Arrived));
    case DaemonDispatch(r) =>
      if s.live.Some? && r in s.live.value.requests && s.live.value.requests[r].stage.Refreshed? { DispatchGood(s, r); }
    case _ => DaemonGood(s, e);
  }

  lemma {:induction false} AlwaysGood(events: seq<Event>)
    ensures Good(Run(INITIAL, events))
  {
    if events != [] {
      AlwaysGood(Front(events));
      StepGood(Run(INITIAL, Front(events)), Last(events));
    }
  }

  // ---------- the theorems ----------

  /** In every interleaving of table rewrites, failed reads, daemon restarts and concurrent
      requests: when a target-reaching method of a server call is dispatched, the daemon is the one
      that answered the server's check, the table in force there (both copies of it) is the table
      the server read for this very call, and the alias the call names is in it. */
  lemma DispatchedAsChecked(events: seq<Event>, k: nat)
    requires k < |Run(INITIAL, events).log| && Run(INITIAL, events).log[k].call.Some?
    ensures var s := Run(INITIAL, events);
            var e := s.log[k];
            && e.call.value in s.calls
            && var c := s.calls[e.call.value];
            && c.phase == Sent(Some(e.daemon)) && c.name == e.name
            && !c.reading.Unreadable?
            && e.targets == TableOf(c) && e.coreTargets == TableOf(c)
            && (c.alias.Some? ==> c.alias.value in e.targets)
  {
    AlwaysGood(events);
    var s := Run(INITIAL, events);
    assert EntryOk(s.calls, s.log[k]);
  }

  /** The same for every other client: nothing that can reach a target is dispatched unless it
      names this daemon and the table in force. */
  lemma NothingUnbound(events: seq<Event>, k: nat)
    requires k < |Run(INITIAL, events).log|
    ensures var e := Run(INITIAL, events).log[k];
            e.bound == Some(Binding(e.daemon, DigestOf(e.targets))) && e.coreTargets == e.targets
  {
    AlwaysGood(events);
  }

  /** `targets`, `core.targets` and `targetsDigest` agree at every await. */
  lemma CopiesAgree(events: seq<Event>)
    ensures var s := Run(INITIAL, events);
            s.live.Some? ==> Coherent(s.live.value.vars)
  {
    AlwaysGood(events);
  }

  /** The daemon a `Sent` call remembers is one that answered its check: the digest it answered with
      was that of the table the call was allowed by. The only other end of a check is a failed control
      call, which ends the call. */
  lemma CheckedMeansAnswered(events: seq<Event>, e: Event, call: nat)
    requires var s := Run(INITIAL, events);
             call in s.calls && s.calls[call].phase.Asked?
             && call in Step(s, e).calls && Step(s, e).calls[call].phase != s.calls[call].phase
    ensures var s := Run(INITIAL, events);
            var phase := Step(s, e).calls[call].phase;
            || (e.ServerFails? && phase == Refused)
            || (s.live.Some? && phase == Answered(s.live.value.id, DigestOf(s.live.value.vars.targets)))
  {
    AlwaysGood(events);
  }

  // ---------- a call that nothing comes between ----------

  /** What the look of a refresh sees, and what its load gives if there is one. */
  datatype Reload = Reload(seen: Fingerprint, loaded: Option<Table>, from: Origin)

  function Refreshing(r: nat, f: Reload): seq<Event>
  {
    [DaemonObserve(r, f.seen), DaemonLoad(r, f.loaded, f.from), DaemonAdopt(r)]
  }

  lemma {:induction false} RunAppend(s: System, a: seq<Event>, b: seq<Event>)
    ensures Run(s, a + b) == Run(Run(s, a), b)
  {
    hide Step;
    if b == [] {
      assert a + b == a;
    } else {
      assert Front(a + b) == a + Front(b);
      RunAppend(s, a, Front(b));
    }
  }

  lemma RunOne(s: System, e: Event)
    ensures Run(s, [e]) == Step(s, e)
  {
    hide Step;
    assert Front([e]) == [];
  }

  lemma RunThree(s: System, a: Event, b: Event, c: Event)
    ensures Run(s, [a, b, c]) == Step(Step(Step(s, a), b), c)
  {
    hide Step;
    assert Front([a, b, c]) == [a, b] && Front([a, b]) == [a];
    RunOne(s, a);
    assert Run(s, [a, b]) == Step(Run(s, [a]), b);
  }

  /** The same but for the variables of the daemon and how far one request has come. */
  ghost predicate OnlyRefreshed(s: System, t: System, r: nat)
  {
    && s.live.Some? && t.live.Some? && r in s.live.value.requests
    && t == Moved(s, r, t.live.value.vars, Refreshed)
  }

  lemma MovedAgain(s: System, r: nat, v: Vars, g: Stage, w: Vars, h: Stage)
    requires s.live.Some? && r in s.live.value.requests
    ensures Moved(Moved(s, r, v, g), r, w, h) == Moved(s, r, w, h)
  {
    var l := s.live.value;
    assert l.requests[r := l.requests[r].(stage := g)][r := l.requests[r].(stage := h)]
        == l.requests[r := l.requests[r].(stage := h)];
  }

  lemma AdoptedAfter(s: System, t: System, r: nat)
    requires s.live.Some? && r in s.live.value.requests
    requires exists v, g :: t == Moved(s, r, v, g)
    requires At(t, r, (g: Stage) => g.HasReading?)
    ensures OnlyRefreshed(s, Step(t, DaemonAdopt(r)), r)
    ensures !t.live.value.requests[r].stage.reading.changed
        ==> Step(t, DaemonAdopt(r)).live.value.vars == t.live.value.vars
  {
    var v, g :| t == Moved(s, r, v, g);
    MovedAgain(s, r, v, g, Adopt(v, g.reading), Refreshed);
  }

  lemma RefreshingEnds(s: System, r: nat, f: Reload)
    requires At(s, r, (g: Stage) => g.Arrived?)
    ensures OnlyRefreshed(s, Run(s, Refreshing(r, f)), r)
    ensures s.live.value.vars.watch.seen == Some(f.seen)
        ==> Run(s, Refreshing(r, f)).live.value.vars == s.live.value.vars
  {
    RunThree(s, DaemonObserve(r, f.seen), DaemonLoad(r, f.loaded, f.from), DaemonAdopt(r));
    hide Run, Ask, Bind, Dispatch, Deliver, OnlyRefreshed, Adopt;
    var v := s.live.value.vars;
    var looked := Step(s, DaemonObserve(r, f.seen));
    var (w, stage) := Observe(v, f.seen);
    assert looked == Moved(s, r, w, stage);
    var after := Step(looked, DaemonLoad(r, f.loaded, f.from));
    if stage.Loading? {
      MovedAgain(s, r, w, stage, Load(w, f.loaded, f.from).0, Load(w, f.loaded, f.from).1);
    } else {
      assert after == looked;
    }
    AdoptedAfter(s, after, r);
  }

  /** The server asks for a call that it does not refuse by itself, and the request is refreshed. */
  function Asking(r: nat, call: nat, f: Reload): seq<Event>
  {
    [ServerAsk(call)] + Refreshing(r, f)
  }

  /** The daemon answers, and the server compares. */
  function Comparing(r: nat, call: nat): seq<Event>
  {
    [DaemonDispatch(r), ServerBind(call)]
  }

  /** The command that was sent is refreshed and carried out. */
  function CarryingOut(r: nat, f: Reload): seq<Event>
  {
    Refreshing(r, f) + [DaemonDispatch(r)]
  }

  /** The server has read a table, and the call names an alias in it or is one that needs none. */
  predicate MayAsk(s: System, call: nat)
  {
    && s.live.Some? && call in s.calls && s.calls[call].phase.HasTable? && s.calls[call].reading.Read?
    && (match s.calls[call].alias
        case Some(alias) => alias in s.calls[call].reading.table
        case None => s.calls[call].name in REACHES_A_TARGET_UNNAMED)
  }

  lemma AskingEnds(s: System, call: nat, f: Reload)
    requires MayAsk(s, call)
    ensures var r, t := s.nextRequest, Run(s, Asking(s.nextRequest, call, f));
            && t.live.Some? && t.live.value.id == s.live.value.id && t.log == s.log
            && t.calls == s.calls[call := s.calls[call].(phase := Asked)] && t.nextRequest == r + 1
            && r in t.live.value.requests
            && t.live.value.requests[r] == Request(Some(call), "daemon_status", None, Refreshed)
            && (s.live.value.vars.watch.seen == Some(f.seen) ==> t.live.value.vars == s.live.value.vars)
  {
    hide Run, Refreshing, Bind, Dispatch;
    RunAppend(s, [ServerAsk(call)], Refreshing(s.nextRequest, f));
    RunOne(s, ServerAsk(call));
    RefreshingEnds(Step(s, ServerAsk(call)), s.nextRequest, f);
  }

  /** An asking call is answered with the digest in force, and goes on if and only if that is its table's. */
  lemma ComparingEnds(s: System, r: nat, call: nat)
    requires s.live.Some? && Coherent(s.live.value.vars)
    requires r in s.live.value.requests && r < s.nextRequest
    requires s.live.value.requests[r] == Request(Some(call), "daemon_status", None, Refreshed)
    requires call in s.calls && s.calls[call].phase.Asked? && s.calls[call].reading.Read?
    ensures var t, l, c := Run(s, Comparing(r, call)), s.live.value, s.calls[call];
            && t.live.Some? && t.live.value.id == l.id && t.live.value.vars == l.vars && t.log == s.log
            && (if l.vars.targets == c.reading.table then
                  var bound := Binding(l.id, DigestOf(c.reading.table));
                  && t.calls == s.calls[call := c.(phase := Sent(Some(l.id)))] && t.nextRequest == s.nextRequest + 1
                  && t.live.value.requests
                  == l.requests[r := l.requests[r].(stage := Closed)]
                               [s.nextRequest := Request(Some(call), c.name, Some(bound), Arrived)]
                else
                  && t.calls == s.calls[call := c.(phase := Refused)] && t.nextRequest == s.nextRequest
                  && t.live.value.requests == l.requests[r := l.requests[r].(stage := Closed)])
  {
    hide Observe, Load, Adopt, Ask;
    var answered := Step(s, DaemonDispatch(r));
    assert Front(Comparing(r, call)) == [DaemonDispatch(r)];
    RunOne(s, DaemonDispatch(r));
    assert Run(s, Comparing(r, call)) == Step(answered, ServerBind(call));
    var l := s.live.value;
    assert answered.calls == s.calls[call := s.calls[call].(phase := Answered(l.id, DigestOf(l.vars.targets)))];
    assert forall phase :: answered.calls[call := s.calls[call].(phase := phase)]
                        == s.calls[call := s.calls[call].(phase := phase)];
  }

  lemma CarryingOutEnds(s: System, r: nat, call: nat, name: string, table: Table, f: Reload)
    requires s.live.Some? && r in s.live.value.requests && name in REACHES_A_TARGET
    requires var bound := Binding(s.live.value.id, DigestOf(table));
             s.live.value.requests[r] == Request(Some(call), name, Some(bound), Arrived)
    requires Run(s, Refreshing(r, f)).live.Some? ==> Coherent(Run(s, Refreshing(r, f)).live.value.vars)
    ensures var t, id := Run(s, CarryingOut(r, f)), s.live.value.id;
            var entry := Dispatched(Some(call), name, Some(Binding(id, DigestOf(table))), id, table, table);
            && t.live.Some? && t.live.value.id == id
            && (s.live.value.vars.watch.seen == Some(f.seen) ==> t.live.value.vars == s.live.value.vars)
            && t.log == s.log + if t.live.value.vars.targets == table then [entry] else []
  {
    hide Run, Refreshing, Ask, Bind, REACHES_A_TARGET;
    RefreshingEnds(s, r, f);
    RunAppend(s, Refreshing(r, f), [DaemonDispatch(r)]);
    RunOne(Run(s, Refreshing(r, f)), DaemonDispatch(r));
  }

  lemma AskedCallGoesThrough(events: seq<Event>, call: nat, first: Reload, second: Reload)
    requires MayAsk(Run(INITIAL, events), call) && Run(INITIAL, events).calls[call].name in REACHES_A_TARGET
    ensures var s := Run(INITIAL, events);
            var r, id, v, c := s.nextRequest, s.live.value.id, s.live.value.vars, s.calls[call];
            var table := c.reading.table;
            var asked := Run(s, Asking(r, call, first));
            var compared := Run(asked, Comparing(r, call));
            var done := Run(compared, CarryingOut(r + 1, second));
            var entry := Dispatched(Some(call), c.name, Some(Binding(id, DigestOf(table))), id, table, table);
            && asked.live.Some? && compared.live.Some? && call in compared.calls && compared.log == s.log
            && (asked.live.value.vars.targets != table ==>
                  && compared.calls[call].phase == Refused
                  && compared.nextRequest == asked.nextRequest
                  && compared.live.value.requests - {r} == asked.live.value.requests - {r})
            && (asked.live.value.vars.targets == table ==>
                  && compared.calls[call].phase == Sent(Some(id)) && done.live.Some?
                  && done.log == s.log + if done.live.value.vars.targets == table then [entry] else [])
            && (v.targets == table && v.watch.seen == Some(first.seen) && first.seen == second.seen ==>
                  done.log == s.log + [entry])
  {
    hide Run, Asking, Comparing, CarryingOut, Refreshing, REACHES_A_TARGET, REACHES_A_TARGET_UNNAMED, Coherent;
    var s := Run(INITIAL, events);
    var r, c := s.nextRequest, s.calls[call];
    var asked := Run(s, Asking(r, call, first));
    AskingEnds(s, call, first);
    AlwaysCoherent(events, Asking(r, call, first));
    ComparingEnds(asked, r, call);
    var compared := Run(asked, Comparing(r, call));
    if asked.live.value.vars.targets == c.reading.table {
      RunAppend(INITIAL, events, Asking(r, call, first));
      RunAppend(INITIAL, events + Asking(r, call, first), Comparing(r, call));
      AlwaysCoherent(events + Asking(r, call, first) + Comparing(r, call), Refreshing(r + 1, second));
      CarryingOutEnds(compared, r + 1, call, c.name, c.reading.table, second);
    }
  }

  /** From any run with a live daemon: the server reads a table for a new call that names an alias in it, or
      needs none, and nothing else comes between the steps of the call. The table in force when the daemon
      answers decides: if it is the one the server read, the call is sent to that daemon, and dispatched there
      once, with that table, if and only if it is still in force after the second refresh; if it is not, the
      call ends refused and no request is delivered. With an unchanged file, a call whose table is in force
      goes through. */
  lemma CheckedCallGoesThrough(events: seq<Event>, call: nat, table: Table, name: string, alias: Option<string>,
                               first: Reload, second: Reload)
    requires Run(INITIAL, events).live.Some? && call !in Run(INITIAL, events).calls && name in REACHES_A_TARGET
    requires if alias.Some? then alias.value in table else name in REACHES_A_TARGET_UNNAMED
    ensures var before := Run(INITIAL, events);
            var r, id, v := before.nextRequest, before.live.value.id, before.live.value.vars;
            var asked := Run(Step(before, ServerRead(call, Read(table), name, alias)), Asking(r, call, first));
            var compared := Run(asked, Comparing(r, call));
            var done := Run(compared, CarryingOut(r + 1, second));
            var entry := Dispatched(Some(call), name, Some(Binding(id, DigestOf(table))), id, table, table);
            && asked.live.Some? && compared.live.Some? && call in compared.calls && compared.log == before.log
            && (asked.live.value.vars.targets != table ==>
                  && compared.calls[call].phase == Refused
                  && compared.nextRequest == asked.nextRequest
                  && compared.live.value.requests - {r} == asked.live.value.requests - {r})
            && (asked.live.value.vars.targets == table ==>
                  && compared.calls[call].phase == Sent(Some(id)) && done.live.Some?
                  && done.log == before.log + if done.live.value.vars.targets == table then [entry] else [])
            && (v.targets == table && v.watch.seen == Some(first.seen) && first.seen == second.seen ==>
                  done.log == before.log + [entry])
  {
    var read := ServerRead(call, Read(table), name, alias);
    hide Run, Asking, Comparing, CarryingOut, REACHES_A_TARGET, REACHES_A_TARGET_UNNAMED;
    RunAppend(INITIAL, events, [read]);
    RunOne(Run(INITIAL, events), read);
    AskedCallGoesThrough(events + [read], call, first, second);
  }

  /** A daemon starts when there is none, under an identity of its own, on the table it has read; a table that
      is not there is an empty one. */
  lemma DaemonStarts(events: seq<Event>, startup: Table, seen: Fingerprint, from: Origin)
    requires Run(INITIAL, events).live.None?
    ensures var s := Run(INITIAL, events);
            var t := Step(s, StartDaemon(startup, seen, from));
            && (t.live.Some? <==> seen == Absent ==> startup == map[])
            && (t.live.Some? ==>
                  && t.live.value.vars.targets == startup && t.live.value.vars.watch.seen == Some(seen)
                  && t.live.value.requests == map[]
                  && forall e :: e in s.log ==> e.daemon != t.live.value.id)
  {
    AlwaysNew(events);
  }

  /** Every daemon that has been is older than the next. */
  ghost predicate Numbered(s: System)
  {
    && (s.live.Some? ==> s.live.value.id < s.nextDaemon)
    && forall e :: e in s.log ==> e.daemon < s.nextDaemon
  }

  lemma StepNumbered(s: System, e: Event)
    requires Numbered(s)
    ensures Numbered(Step(s, e))
  {
    hide Observe, Load, Adopt, REACHES_A_TARGET, RefusedHere, MustCheck, Checked;
  }

  lemma {:induction false} AlwaysNew(events: seq<Event>)
    ensures Numbered(Run(INITIAL, events))
  {
    hide Step;
    if events != [] {
      AlwaysNew(Front(events));
      StepNumbered(Run(INITIAL, Front(events)), Last(events));
    }
  }

  /** A call that names no alias, of a method that needs no check, is sent at once and carries no binding. */
  lemma UncheckedSent(s: System, call: nat)
    requires s.live.Some? && call in s.calls && s.calls[call].phase.HasTable?
    requires s.calls[call].alias.None? && s.calls[call].name !in REACHES_A_TARGET_UNNAMED
    ensures var t, l, c := Step(s, ServerAsk(call)), s.live.value, s.calls[call];
            && t.calls == s.calls[call := c.(phase := Sent(None))] && t.log == s.log && t.live.Some?
            && t.live.value.vars == l.vars
            && t.live.value.requests == l.requests[s.nextRequest := Request(Some(call), c.name, None, Arrived)]
  {
  }

  /** A control call that fails ends the call that made it, and nothing else. */
  lemma FailedAskEnds(s: System, call: nat)
    requires call in s.calls && s.calls[call].phase.Asked?
    ensures Step(s, ServerFails(call)) == s.(calls := s.calls[call := s.calls[call].(phase := Refused)])
  {
  }

  lemma AlwaysCoherent(events: seq<Event>, more: seq<Event>)
    ensures var s := Run(Run(INITIAL, events), more);
            s.live.Some? ==> Coherent(s.live.value.vars)
  {
    RunAppend(INITIAL, events, more);
    CopiesAgree(events + more);
  }

  /** What the server refuses by itself: a table it cannot read, or an alias that is not in the one it read.
      The daemon hears nothing of it. */
  lemma RefusedUnasked(s: System, call: nat)
    requires call in s.calls && s.calls[call].phase.HasTable?
    requires s.calls[call].alias.Some? || s.calls[call].name in REACHES_A_TARGET_UNNAMED
    ensures var t, c := Step(s, ServerAsk(call)), s.calls[call];
            var known := match c.reading case Read(table) => table.Keys case _ => {};
            && (t.calls[call].phase == Refused
                <==> c.reading.Unreadable? || (c.alias.Some? && c.alias.value !in known))
            && (t.calls[call].phase == Refused ==> t == s.(calls := t.calls))
            && (t.calls[call].phase != Refused ==> t.calls[call].phase == Asked)
  {
  }
}
