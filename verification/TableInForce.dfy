/** Is the table in force in the daemon the one on disk (src/core/target-table.mjs, src/daemon.mjs)?
    Every request refreshes the table first. Refreshes can overlap at their awaits, and a load depends on
    more than the fingerprint that decides whether there is one. */
module TableInForce {
  import opened Sequences
  import opened CheckedBinding

  /** What a load of the file gives at a fingerprint and in its surroundings: the mode and owner of the
      file, and where the directories lead that its rows name. A load during which these change counts as
      made in surroundings of its own. */
  type Disk = (Fingerprint, nat) -> Option<Table>

  /** A file that has gone before the load fails to load; one that is not there at the look is empty. */
  function Gives(disk: Disk, from: Origin): Option<Table>
  {
    match from
    case NoFile => Some(map[])
    case ByLoad(mark, around) => if mark == Absent then None else disk(mark, around)
    case Remembered => None
  }

  /** What reading the file from scratch would give. */
  function Now(seen: Fingerprint, around: nat): Origin
  {
    if seen == Absent then NoFile else ByLoad(seen, around)
  }

  /** Loads give what is there when they are made; their fingerprint need not be the one the look saw. */
  ghost predicate HonestEvent(disk: Disk, e: Event)
  {
    match e
    case StartDaemon(startup, seen, from) =>
      (if seen == Absent then from == NoFile else from.ByLoad?) && Gives(disk, from) == Some(startup)
    case DaemonLoad(_, loaded, from) => from.ByLoad? && loaded == Gives(disk, from)
    case _ => true
  }

  ghost predicate Honest(disk: Disk, events: seq<Event>)
  {
    forall k :: 0 <= k < |events| ==> HonestEvent(disk, events[k])
  }

  predicate Readable(stage: Stage)
  {
    stage.HasReading? && stage.reading.changed && !stage.reading.unreadable
  }

  predicate IsArrived(stage: Stage) { stage.Arrived? }
  predicate IsLoading(stage: Stage) { stage.Loading? }

  /** Where the reading comes from that the daemon adopted last, or started with. */
  function Adopted(events: seq<Event>): Option<Origin>
  {
    if events == [] then None
    else AdoptedNext(Run(INITIAL, Front(events)), Last(events), Adopted(Front(events)))
  }

  function AdoptedNext(s: System, e: Event, adopted: Option<Origin>): Option<Origin>
  {
    match e
    case StartDaemon(_, _, from) => if s.live.None? && Step(s, e).live.Some? then Some(from) else adopted
    case KillDaemon => None
    case DaemonAdopt(r) => if At(s, r, Readable) then Some(s.live.value.requests[r].stage.from) else adopted
    case _ => adopted
  }

  /** Where the reading comes from that was made for the fingerprint the daemon remembers: the load after
      the last look that saw a change, whether it succeeded or not. */
  function Current(events: seq<Event>): Option<Origin>
  {
    if events == [] then None
    else CurrentNext(Run(INITIAL, Front(events)), Last(events), Current(Front(events)))
  }

  function CurrentNext(s: System, e: Event, current: Option<Origin>): Option<Origin>
  {
    match e
    case StartDaemon(_, _, from) => if s.live.None? && Step(s, e).live.Some? then Some(from) else current
    case KillDaemon => None
    case DaemonObserve(r, seen) =>
      if At(s, r, IsArrived) && seen == Absent && s.live.value.vars.watch.seen != Some(seen) then Some(NoFile)
      else current
    case DaemonLoad(r, _, from) => if At(s, r, IsLoading) then Some(from) else current
    case _ => current
  }

  // ---------- steps and refreshes ----------

  /** A refresh between its look and its adoption. */
  predicate Underway(stage: Stage)
  {
    stage.Loading? || stage.HasReading?
  }

  predicate Busy(s: System, r: nat)
  {
    At(s, r, Underway)
  }

  /** Requests are numbered as they arrive. */
  ghost predicate Arrivals(s: System)
  {
    s.live.Some? ==> forall r :: r in s.live.value.requests ==> r < s.nextRequest
  }

  /** The same daemon with the same variables and the same refreshes under way. */
  ghost predicate SameRefreshes(s: System, t: System)
  {
    && (s.live.Some? <==> t.live.Some?)
    && (Arrivals(s) ==> Arrivals(t))
    && (s.live.Some? ==> t.live.value.vars == s.live.value.vars && t.live.value.id == s.live.value.id)
    && (forall r :: Busy(t, r) <==> Busy(s, r))
    && (forall r :: Busy(s, r) ==> t.live.value.requests[r].stage == s.live.value.requests[r].stage)
  }

  predicate OfRefresh(e: Event)
  {
    e.DaemonObserve? || e.DaemonLoad? || e.DaemonAdopt?
  }

  predicate OfLife(e: Event)
  {
    e.StartDaemon? || e.KillDaemon?
  }

  lemma DeliverSame(s: System, r: Request)
    requires Arrivals(s) && r.stage.Arrived?
    ensures SameRefreshes(s, Deliver(s, r))
  {
  }

  lemma ClosedSame(s: System, r: nat)
    requires s.live.Some? && r in s.live.value.requests && !Busy(s, r)
    ensures SameRefreshes(s, Moved(s, r, s.live.value.vars, Closed))
  {
  }

  lemma CallsSame(s: System, t: System)
    requires s.live == t.live && s.nextRequest == t.nextRequest
    ensures SameRefreshes(s, t)
  {
  }

  lemma SameThrough(a: System, b: System, c: System)
    requires SameRefreshes(a, b) && SameRefreshes(b, c)
    ensures SameRefreshes(a, c)
  {
    hide Busy, Arrivals;
  }

  lemma AskSame(s: System, call: nat)
    requires Arrivals(s) && call in s.calls
    ensures SameRefreshes(s, Ask(s, call))
  {
    hide SameRefreshes, MustCheck, RefusedHere;
    var c := s.calls[call];
    if !MustCheck(c) {
      CallsSame(s, Phased(s, call, Sent(None)));
      DeliverSame(Phased(s, call, Sent(None)), Request(Some(call), c.name, None, Arrived));
      SameThrough(s, Phased(s, call, Sent(None)), Ask(s, call));
    } else if RefusedHere(c) {
      CallsSame(s, Phased(s, call, Refused));
    } else {
      CallsSame(s, Phased(s, call, Asked));
      DeliverSame(Phased(s, call, Asked), Request(Some(call), "daemon_status", None, Arrived));
      SameThrough(s, Phased(s, call, Asked), Ask(s, call));
    }
  }

  lemma BindSame(s: System, call: nat)
    requires Arrivals(s) && call in s.calls && s.calls[call].phase.Answered?
    ensures SameRefreshes(s, Bind(s, call))
  {
    hide SameRefreshes;
    var c := s.calls[call];
    var digest := DigestOf(TableOf(c));
    if c.phase.digest != digest {
      CallsSame(s, Phased(s, call, Refused));
    } else {
      var sent := Phased(s, call, Sent(Some(c.phase.daemon)));
      CallsSame(s, sent);
      DeliverSame(sent, Request(Some(call), c.name, Some(Binding(c.phase.daemon, digest)), Arrived));
      SameThrough(s, sent, Bind(s, call));
    }
  }

  lemma DispatchSame(s: System, r: nat)
    requires s.live.Some? && r in s.live.value.requests && !Busy(s, r)
    ensures SameRefreshes(s, Dispatch(s, r))
  {
    hide SameRefreshes, REACHES_A_TARGET, Checked, Busy;
    var closed := Moved(s, r, s.live.value.vars, Closed);
    ClosedSame(s, r);
    CallsSame(closed, Dispatch(s, r));
    SameThrough(s, closed, Dispatch(s, r));
  }

  /** A step that is no part of a refresh, in a daemon that goes on, leaves every refresh where it is. */
  lemma OtherSteps(s: System, e: Event)
    requires Arrivals(s) && !OfRefresh(e) && !OfLife(e)
    ensures SameRefreshes(s, Step(s, e))
  {
    hide SameRefreshes, Arrivals, Ask, Bind, Dispatch, Deliver;
    CallsSame(s, s);
    match e
    case ServerRead(_, _, _, _) => CallsSame(s, Step(s, e));
    case ServerFails(_) => CallsSame(s, Step(s, e));
    case ServerAsk(call) => if call in s.calls && s.calls[call].phase.HasTable? { AskSame(s, call); }
    case ServerBind(call) => if call in s.calls && s.calls[call].phase.Answered? { BindSame(s, call); }
    case OtherClient(name, bound) => DeliverSame(s, Request(None, name, bound, Arrived));
    case DaemonDispatch(r) =>
      if s.live.Some? && r in s.live.value.requests && s.live.value.requests[r].stage.Refreshed? { DispatchSame(s, r); }
    case _ =>
  }

  /** A step of one request changes nothing about whether another one is busy. */
  lemma OthersBusy(s: System, r: nat, vars: Vars, stage: Stage)
    requires s.live.Some? && r in s.live.value.requests
    ensures var t := Moved(s, r, vars, stage);
            && (forall q :: q != r ==> (Busy(t, q) <==> Busy(s, q)))
            && (forall q :: q != r && Busy(s, q) ==> t.live.value.requests[q].stage == s.live.value.requests[q].stage)
            && (Busy(t, r) <==> Underway(stage)) && t.live.value.requests[r].stage == stage
            && (Arrivals(s) ==> Arrivals(t))
  {
  }

  // ---------- the table in force is the one adopted last ----------

  ghost predicate Tracked(disk: Disk, s: System, adopted: Option<Origin>)
  {
    && Arrivals(s)
    && (s.live.Some? ==>
          && s.live.value.vars.watch.seen.Some?
          && adopted.Some? && Gives(disk, adopted.value) == Some(s.live.value.vars.targets)
          && forall r :: Busy(s, r) ==> GoodReading(disk, s.live.value.requests[r].stage))
  }

  ghost predicate GoodReading(disk: Disk, stage: Stage)
  {
    Readable(stage) ==> Gives(disk, stage.from) == Some(stage.reading.table)
  }

  lemma RefreshTracked(disk: Disk, s: System, e: Event, adopted: Option<Origin>)
    requires HonestEvent(disk, e) && Tracked(disk, s, adopted) && OfRefresh(e)
    ensures Tracked(disk, Step(s, e), AdoptedNext(s, e, adopted))
  {
    var r := e.request;
    if s.live.Some? && r in s.live.value.requests {
      var v, stage := s.live.value.vars, s.live.value.requests[r].stage;
      hide Busy, Arrivals, Gives;
      match e
      case DaemonObserve(_, seen) =>
        OthersBusy(s, r, Observe(v, seen).0, Observe(v, seen).1);
        assert Gives(disk, NoFile) == Some(map[]) by { AbsentIsEmpty(disk); }
      case DaemonLoad(_, loaded, from) => OthersBusy(s, r, Load(v, loaded, from).0, Load(v, loaded, from).1);
      case DaemonAdopt(_) =>
        if stage.HasReading? {
          assert Busy(s, r) by { BusyHere(s, r); }
          OthersBusy(s, r, Adopt(v, stage.reading), Refreshed);
        }
    }
  }

  lemma AbsentIsEmpty(disk: Disk)
    ensures Gives(disk, NoFile) == Some(map[])
  {
  }

  lemma BusyHere(s: System, r: nat)
    requires s.live.Some? && r in s.live.value.requests
    ensures Busy(s, r) <==> Underway(s.live.value.requests[r].stage)
  {
  }

  lemma StepTracked(disk: Disk, s: System, e: Event, adopted: Option<Origin>)
    requires HonestEvent(disk, e) && Tracked(disk, s, adopted)
    ensures Tracked(disk, Step(s, e), AdoptedNext(s, e, adopted))
  {
    if OfRefresh(e) {
      RefreshTracked(disk, s, e, adopted);
    } else if !OfLife(e) {
      hide Step, Busy, Arrivals;
      OtherSteps(s, e);
    }
  }

  lemma {:induction false} AlwaysTracked(disk: Disk, events: seq<Event>)
    requires Honest(disk, events)
    ensures Tracked(disk, Run(INITIAL, events), Adopted(events))
  {
    hide Tracked, AdoptedNext, Step;
    if events == [] {
      NothingTracked(disk);
    } else {
      assert HonestEvent(disk, events[|events| - 1]);
      AlwaysTracked(disk, Front(events));
      StepTracked(disk, Run(INITIAL, Front(events)), Last(events), Adopted(Front(events)));
    }
  }

  lemma NothingTracked(disk: Disk)
    ensures Tracked(disk, INITIAL, None)
  {
  }

  /** In every run, refreshes overlapping and files and surroundings changing as they may: the table in
      force is the one of the reading adopted last. So it is the one that reading the file now would give
      if and only if that gives the same, and a call checked against a table gets past the daemon if and
      only if that table is the adopted one. */
  lemma InForceIff(disk: Disk, events: seq<Event>)
    requires Honest(disk, events) && Run(INITIAL, events).live.Some?
    ensures var l := Run(INITIAL, events).live.value;
            var adopted := Adopted(events);
            && adopted.Some? && Gives(disk, adopted.value) == Some(l.vars.targets)
            && (forall now ::
                  Gives(disk, now) == Some(l.vars.targets) <==> Gives(disk, now) == Gives(disk, adopted.value))
            && (forall table ::
                  Checked(l.id, l.vars, Some(Binding(l.id, DigestOf(table))))
                  <==> Gives(disk, adopted.value) == Some(table))
  {
    AlwaysTracked(disk, events);
    CopiesAgree(events);
  }

  // ---------- runs without overlap ----------

  /** No refresh starts while another is under way. */
  ghost predicate CalmStep(s: System, e: Event)
  {
    e.DaemonObserve? && At(s, e.request, IsArrived) ==> forall q :: !Busy(s, q)
  }

  ghost predicate Calm(events: seq<Event>)
  {
    events == [] || (Calm(Front(events)) && CalmStep(Run(INITIAL, Front(events)), Last(events)))
  }

  /** The load made for the remembered fingerprint is in force, unless it failed. */
  ghost predicate InForce(disk: Disk, v: Vars, current: Option<Origin>)
  {
    && current.Some? && v.watch.seen.Some?
    && (if v.watch.seen == Some(Absent) then current == Some(NoFile) else current.value.ByLoad?)
    && (Gives(disk, current.value).Some? ==> Gives(disk, current.value) == Some(v.targets))
  }

  /** How far the one refresh that is under way has come. */
  ghost predicate GoodStage(disk: Disk, v: Vars, stage: Stage, current: Option<Origin>)
  {
    match stage
    case Loading(seen) => v.watch.seen == Some(seen) && seen != Absent
    case HasReading(reading, from) =>
      if !reading.changed then InForce(disk, v, current)
      else
        && current == Some(from) && v.watch.seen.Some?
        && (if v.watch.seen == Some(Absent) then from == NoFile else from.ByLoad?)
        && Gives(disk, from) == if reading.unreadable then None else Some(reading.table)
    case _ => true
  }

  ghost predicate Orderly(disk: Disk, s: System, current: Option<Origin>)
  {
    && Arrivals(s)
    && (s.live.Some? ==>
          && (forall q, r :: Busy(s, q) && Busy(s, r) ==> q == r)
          && (forall r :: Busy(s, r) ==> GoodStage(disk, s.live.value.vars, s.live.value.requests[r].stage, current))
          && ((forall r :: !Busy(s, r)) ==> InForce(disk, s.live.value.vars, current)))
  }

  lemma LookOrderly(disk: Disk, s: System, r: nat, seen: Fingerprint, current: Option<Origin>)
    requires Orderly(disk, s, current) && CalmStep(s, DaemonObserve(r, seen))
    ensures Orderly(disk, Step(s, DaemonObserve(r, seen)), CurrentNext(s, DaemonObserve(r, seen), current))
  {
    if At(s, r, IsArrived) {
      hide Arrivals;
      var v := s.live.value.vars;
      OthersBusy(s, r, Observe(v, seen).0, Observe(v, seen).1);
      assert Busy(Step(s, DaemonObserve(r, seen)), r);
    }
  }

  lemma LoadOrderly(disk: Disk, s: System, e: Event, current: Option<Origin>)
    requires Orderly(disk, s, current) && e.DaemonLoad? && HonestEvent(disk, e)
    ensures Orderly(disk, Step(s, e), CurrentNext(s, e, current))
  {
    var r := e.request;
    if At(s, r, IsLoading) {
      hide Arrivals;
      assert Busy(s, r);
      var v := s.live.value.vars;
      OthersBusy(s, r, Load(v, e.loaded, e.from).0, Load(v, e.loaded, e.from).1);
      assert Busy(Step(s, e), r);
    }
  }

  lemma AdoptOrderly(disk: Disk, s: System, r: nat, current: Option<Origin>)
    requires Orderly(disk, s, current)
    ensures Orderly(disk, Step(s, DaemonAdopt(r)), current)
    ensures At(s, r, (g: Stage) => g.HasReading?) ==> forall q :: !Busy(Step(s, DaemonAdopt(r)), q)
  {
    if At(s, r, (g: Stage) => g.HasReading?) {
      hide Arrivals;
      assert Busy(s, r);
      var l := s.live.value;
      OthersBusy(s, r, Adopt(l.vars, l.requests[r].stage.reading), Refreshed);
    }
  }

  lemma LifeOrderly(disk: Disk, s: System, e: Event, current: Option<Origin>)
    requires Orderly(disk, s, current) && HonestEvent(disk, e) && OfLife(e)
    ensures Orderly(disk, Step(s, e), CurrentNext(s, e, current))
  {
    if e.StartDaemon? && s.live.None? {
      assert forall r :: !Busy(Step(s, e), r);
    }
  }

  lemma StepOrderly(disk: Disk, s: System, e: Event, current: Option<Origin>)
    requires Orderly(disk, s, current) && HonestEvent(disk, e) && CalmStep(s, e)
    ensures Orderly(disk, Step(s, e), CurrentNext(s, e, current))
  {
    hide Step, Busy, Arrivals;
    match e
    case DaemonObserve(r, seen) => LookOrderly(disk, s, r, seen, current);
    case DaemonLoad(_, _, _) => LoadOrderly(disk, s, e, current);
    case DaemonAdopt(r) => AdoptOrderly(disk, s, r, current);
    case StartDaemon(_, _, _) => LifeOrderly(disk, s, e, current);
    case KillDaemon => LifeOrderly(disk, s, e, current);
    case _ => OtherSteps(s, e);
  }

  lemma {:induction false} AlwaysOrderly(disk: Disk, events: seq<Event>)
    requires Honest(disk, events) && Calm(events)
    ensures Orderly(disk, Run(INITIAL, events), Current(events))
  {
    hide Step, Orderly, CalmStep, CurrentNext;
    if events == [] {
      NothingOrderly(disk);
    } else {
      assert HonestEvent(disk, events[|events| - 1]);
      AlwaysOrderly(disk, Front(events));
      StepOrderly(disk, Run(INITIAL, Front(events)), Last(events), Current(Front(events)));
    }
  }

  lemma NothingOrderly(disk: Disk)
    ensures Orderly(disk, INITIAL, None)
  {
  }

  /** The reading whose table is in force at a rest: the one made for the remembered fingerprint, or the
      last good one if that failed. */
  function Kept(disk: Disk, events: seq<Event>): Option<Origin>
  {
    var current := Current(events);
    if current.Some? && Gives(disk, current.value).Some? then current else Adopted(events)
  }

  /** In every run in which no refresh starts while another is under way, whenever none is: the table in
      force is the one that the load made when the remembered fingerprint was first seen gave, or the last
      good one if that load failed. So for a file that still has that fingerprint, in any surroundings, it
      is the table a load gives now if and only if the two are equal. What an operator can check is that
      nothing has changed since that load: then it is in force, if it loads at all. */
  lemma InForceWithoutOverlap(disk: Disk, events: seq<Event>)
    requires Honest(disk, events) && Calm(events) && Run(INITIAL, events).live.Some?
    requires forall r :: !Busy(Run(INITIAL, events), r)
    ensures var v := Run(INITIAL, events).live.value.vars;
            var kept, current := Kept(disk, events), Current(events);
            && v.watch.seen.Some? && current.Some? && kept.Some? && Gives(disk, kept.value) == Some(v.targets)
            && (if v.watch.seen == Some(Absent) then current == Some(NoFile) else current.value.ByLoad?)
            && forall around ::
                 var now := Now(v.watch.seen.value, around);
                 && (Gives(disk, now) == Some(v.targets) <==> Gives(disk, now) == Gives(disk, kept.value))
                 && (current == Some(now) && Gives(disk, now).Some? ==> Gives(disk, now) == Some(v.targets))
  {
    AlwaysOrderly(disk, events);
    AlwaysTracked(disk, events);
  }

  /** The next call: an adoption leaves no refresh under way. */
  lemma RestAfterAdoption(disk: Disk, events: seq<Event>, r: nat)
    requires Honest(disk, events) && Calm(events) && At(Run(INITIAL, events), r, (g: Stage) => g.HasReading?)
    ensures forall q :: !Busy(Step(Run(INITIAL, events), DaemonAdopt(r)), q)
  {
    AlwaysOrderly(disk, events);
    AdoptOrderly(disk, Run(INITIAL, events), r, Current(events));
  }

  // ---------- one refresh from any state ----------

  function Refresh(disk: Disk, r: nat, now: Fingerprint, around: nat): seq<Event>
  {
    [DaemonObserve(r, now), DaemonLoad(r, Gives(disk, ByLoad(now, around)), ByLoad(now, around)), DaemonAdopt(r)]
  }

  /** A refresh that nothing interrupts, from any state however it came about, puts the table on disk
      in force if and only if the file does not look as it did when it was last seen, or its table was
      in force already. */
  lemma RefreshAlone(disk: Disk, s: System, r: nat, now: Fingerprint, around: nat)
    requires Gives(disk, Now(now, around)).Some? && At(s, r, IsArrived)
    ensures var after := Run(s, Refresh(disk, r, now, around));
            var table := Gives(disk, Now(now, around)).value;
            && after.live.Some?
            && (after.live.value.vars.targets == table
                <==> s.live.value.vars.watch.seen != Some(now) || s.live.value.vars.targets == table)
  {
    hide Ask, Bind, Dispatch, Deliver;
    var from := ByLoad(now, around);
    RunThree(s, DaemonObserve(r, now), DaemonLoad(r, Gives(disk, from), from), DaemonAdopt(r));
  }

  // ---------- what stays ----------

  /** Looks that see the file unchanged, in a daemon that goes on. */
  ghost predicate Unwritten(seen: Option<Fingerprint>, events: seq<Event>)
  {
    forall k :: 0 <= k < |events| ==>
      !events[k].KillDaemon? && (events[k].DaemonObserve? ==> seen == Some(events[k].seen))
  }

  predicate Unchanged(stage: Stage)
  {
    stage.HasReading? && !stage.reading.changed
  }

  ghost predicate OnlyUnchanged(s: System)
  {
    Arrivals(s) && forall r :: Busy(s, r) ==> Unchanged(s.live.value.requests[r].stage)
  }

  lemma UnwrittenStep(s: System, e: Event)
    requires s.live.Some? && OnlyUnchanged(s) && !e.KillDaemon?
    requires e.DaemonObserve? ==> s.live.value.vars.watch.seen == Some(e.seen)
    ensures OnlyUnchanged(Step(s, e)) && Step(s, e).live.Some?
    ensures Step(s, e).live.value.vars == s.live.value.vars && Step(s, e).live.value.id == s.live.value.id
  {
    if !OfRefresh(e) && !OfLife(e) {
      hide Step, Busy, Arrivals, Unchanged;
      OtherSteps(s, e);
    } else if OfRefresh(e) && e.request in s.live.value.requests {
      UnwrittenRefresh(s, e);
    }
  }

  lemma UnwrittenRefresh(s: System, e: Event)
    requires s.live.Some? && OnlyUnchanged(s) && OfRefresh(e) && e.request in s.live.value.requests
    requires e.DaemonObserve? ==> s.live.value.vars.watch.seen == Some(e.seen)
    ensures OnlyUnchanged(Step(s, e)) && Step(s, e).live.Some?
    ensures Step(s, e).live.value.vars == s.live.value.vars && Step(s, e).live.value.id == s.live.value.id
  {
    hide Arrivals, Busy;
    var r, v := e.request, s.live.value.vars;
    var stage := s.live.value.requests[r].stage;
    BusyHere(s, r);
    match e
    case DaemonObserve(_, seen) => OthersBusy(s, r, Observe(v, seen).0, Observe(v, seen).1);
    case DaemonLoad(_, _, _) =>
    case DaemonAdopt(_) => if stage.HasReading? { OthersBusy(s, r, Adopt(v, stage.reading), Refreshed); }
  }

  /** Once no refresh is under way, nothing but a change of the fingerprint or a restart changes the table
      in force, whatever requests come. */
  lemma {:induction false} StaysUntilWritten(s: System, events: seq<Event>)
    requires s.live.Some? && Arrivals(s) && (forall r :: !Busy(s, r))
    requires Unwritten(s.live.value.vars.watch.seen, events)
    ensures var after := Run(s, events);
            && after.live.Some? && after.live.value.id == s.live.value.id && after.live.value.vars == s.live.value.vars
            && OnlyUnchanged(after)
  {
    hide Step, Busy, Arrivals;
    if events != [] {
      assert Last(events) == events[|events| - 1];
      assert Unwritten(s.live.value.vars.watch.seen, Front(events));
      StaysUntilWritten(s, Front(events));
      UnwrittenStep(Run(s, Front(events)), Last(events));
    }
  }

  // ---------- a repair that no look sees ----------

  /** A daemon that has started on one table, and two requests. */
  function Start(startup: Table, a: nat, around: nat): seq<Event>
  {
    [StartDaemon(startup, Bytes(a), ByLoad(Bytes(a), around)),
     OtherClient("peer_targets", None), OtherClient("peer_targets", None)]
  }

  lemma StartEnds(startup: Table, a: nat, around: nat)
    ensures var request := Request(None, "peer_targets", None, Arrived);
            Run(INITIAL, Start(startup, a, around))
            == System(Some(Live(0, Started(startup, Bytes(a)), map[0 := request, 1 := request])), map[], 1, 2, [])
  {
    RunThree(INITIAL, StartDaemon(startup, Bytes(a), ByLoad(Bytes(a), around)),
             OtherClient("peer_targets", None), OtherClient("peer_targets", None));
  }

  lemma AdoptStep(s: System, r: nat)
    requires At(s, r, (g: Stage) => g.HasReading?)
    ensures var reading := s.live.value.requests[r].stage.reading;
            Step(s, DaemonAdopt(r)) == Moved(s, r, Adopt(s.live.value.vars, reading), Refreshed)
  {
  }

  lemma LookStep(s: System, r: nat, seen: Fingerprint)
    requires At(s, r, IsArrived) && seen != Absent && s.live.value.vars.watch.seen != Some(seen)
    ensures var v := s.live.value.vars;
            Step(s, DaemonObserve(r, seen)) == Moved(s, r, v.(watch := v.watch.(seen := Some(seen))), Loading(seen))
  {
  }

  lemma LoadStep(s: System, r: nat, loaded: Option<Table>, from: Origin)
    requires At(s, r, IsLoading)
    ensures var v := s.live.value.vars;
            var w :=
              if loaded.Some? then v.watch.(table := loaded.value, digest := DigestOf(loaded.value)) else v.watch;
            Step(s, DaemonLoad(r, loaded, from))
            == Moved(s, r, v.(watch := w), HasReading(Reading(true, loaded.None?, w.table, w.digest), from))
  {
  }

  function FirstLook(disk: Disk, startup: Table, a: nat, b: nat, around: nat): seq<Event>
  {
    Start(startup, a, around) + Refresh(disk, 0, Bytes(b), around)
  }

  lemma FirstLookEnds(disk: Disk, startup: Table, a: nat, b: nat, around: nat)
    requires a != b
    ensures var s := Run(INITIAL, FirstLook(disk, startup, a, b, around));
            var loaded := disk(Bytes(b), around);
            && s.live.Some? && Arrivals(s) && (forall r :: !Busy(s, r))
            && s.live.value.vars.watch.seen == Some(Bytes(b))
            && s.live.value.vars.targets == if loaded.Some? then loaded.value else startup
  {
    var s := Run(INITIAL, Start(startup, a, around));
    RunAppend(INITIAL, Start(startup, a, around), Refresh(disk, 0, Bytes(b), around));
    StartEnds(startup, a, around);
    hide Run, Step;
    var from := ByLoad(Bytes(b), around);
    var looked, loaded := DaemonObserve(0, Bytes(b)), DaemonLoad(0, Gives(disk, from), from);
    RunThree(s, looked, loaded, DaemonAdopt(0));
    LookStep(s, 0, Bytes(b));
    LoadStep(Step(s, looked), 0, Gives(disk, from), from);
    AdoptStep(Step(Step(s, looked), loaded), 0);
    assert Refresh(disk, 0, Bytes(b), around) == [looked, loaded, DaemonAdopt(0)];
  }

  lemma {:induction false} CalmAppend(events: seq<Event>, more: seq<Event>)
    requires Calm(events) && forall k :: 0 <= k < |more| ==> !more[k].DaemonObserve?
    ensures Calm(events + more)
  {
    hide CalmStep;
    if more == [] {
      assert events + more == events;
    } else {
      assert Front(events + more) == events + Front(more) && Last(more) == more[|more| - 1];
      CalmAppend(events, Front(more));
      NoLook(Run(INITIAL, events + Front(more)), Last(more));
    }
  }

  lemma NoLook(s: System, e: Event)
    requires !e.DaemonObserve?
    ensures CalmStep(s, e)
  {
  }

  lemma FirstLookCalm(disk: Disk, startup: Table, a: nat, b: nat, around: nat)
    requires disk(Bytes(a), around) == Some(startup)
    ensures Calm(FirstLook(disk, startup, a, b, around)) && Honest(disk, FirstLook(disk, startup, a, b, around))
  {
    var start, refresh := Start(startup, a, around), Refresh(disk, 0, Bytes(b), around);
    hide Run, Step;
    CalmAppend([], start);
    assert [] + start == start;
    StartEnds(startup, a, around);
    assert CalmStep(Run(INITIAL, start), refresh[0]);
    assert Front(start + [refresh[0]]) == start;
    CalmAppend(start + [refresh[0]], refresh[1..]);
    assert start + [refresh[0]] + refresh[1..] == start + refresh;
  }

  /** The second way in which the table in force stays behind. One refresh sees a new file, and its load
      fails, or gives what the directories stand for then; afterwards the mode is put right, the directory
      is made or the link is moved, so that a load would give another table. The fingerprint is the same.
      The run is honest and calm, and whatever requests come, the table in force is not the repaired one
      and calls checked against that are refused, until the file is written or the daemon starts again. */
  lemma RepairAroundUnseen(disk: Disk, startup: Table, a: nat, b: nat, before: nat, later: nat, more: seq<Event>)
    requires a != b && disk(Bytes(a), before) == Some(startup) && Unwritten(Some(Bytes(b)), more)
    requires disk(Bytes(b), later).Some?
    requires disk(Bytes(b), later).value
          != if disk(Bytes(b), before).Some? then disk(Bytes(b), before).value else startup
    ensures var run := FirstLook(disk, startup, a, b, before);
            var repaired := disk(Bytes(b), later).value;
            var s := Run(INITIAL, run + more);
            && Honest(disk, run) && Calm(run)
            && s.live.Some? && s.live.value.vars.watch.seen == Some(Bytes(b)) && s.live.value.vars.targets != repaired
            && !Checked(s.live.value.id, s.live.value.vars, Some(Binding(s.live.value.id, DigestOf(repaired))))
  {
    hide Run, Honest, Calm, Step, Busy, Arrivals, FirstLook;
    var run := FirstLook(disk, startup, a, b, before);
    FirstLookEnds(disk, startup, a, b, before);
    FirstLookCalm(disk, startup, a, b, before);
    RunAppend(INITIAL, run, more);
    StaysUntilWritten(Run(INITIAL, run), more);
    CopiesAgree(run);
  }

  // ---------- overlapping refreshes ----------

  /** Two refreshes overlap, and the one that looked first finishes last. */
  function Looks(b: nat, c: nat, newer: Table, around: nat): seq<Event>
  {
    [DaemonObserve(0, Bytes(b)), DaemonObserve(1, Bytes(c)), DaemonLoad(1, Some(newer), ByLoad(Bytes(c), around))]
  }

  function Ends(b: nat, older: Table, around: nat): seq<Event>
  {
    [DaemonAdopt(1), DaemonLoad(0, Some(older), ByLoad(Bytes(b), around)), DaemonAdopt(0)]
  }

  function Overlap(startup: Table, older: Table, newer: Table, a: nat, b: nat, c: nat, around: nat): seq<Event>
  {
    Start(startup, a, around) + (Looks(b, c, newer, around) + Ends(b, older, around))
  }

  lemma LooksEnd(s: System, b: nat, c: nat, newer: Table, around: nat)
    requires At(s, 0, IsArrived) && At(s, 1, IsArrived) && b != c && s.nextRequest == 2
    requires s.live.value.requests.Keys == {0, 1}
    requires s.live.value.vars.watch.seen !in {Some(Bytes(b)), Some(Bytes(c))}
    ensures var after := Run(s, Looks(b, c, newer, around));
            && At(after, 0, (g: Stage) => g == Loading(Bytes(b)))
            && At(after, 1, (g: Stage) => g.HasReading? && g.reading == Reading(true, false, newer, DigestOf(newer)))
            && after.live.value.requests.Keys == {0, 1} && after.live.value.vars.watch.seen == Some(Bytes(c))
            && after.nextRequest == 2
  {
    RunThree(s, DaemonObserve(0, Bytes(b)), DaemonObserve(1, Bytes(c)),
             DaemonLoad(1, Some(newer), ByLoad(Bytes(c), around)));
  }

  lemma EndsEnd(s: System, b: nat, older: Table, around: nat)
    requires At(s, 0, (g: Stage) => g == Loading(Bytes(b))) && At(s, 1, (g: Stage) => g.HasReading?)
    requires s.live.value.requests.Keys == {0, 1} && s.nextRequest == 2
    ensures var after := Run(s, Ends(b, older, around));
            && after.live.Some? && after.live.value.vars.targets == older
            && after.live.value.vars.watch.seen == s.live.value.vars.watch.seen
            && Arrivals(after) && forall r :: !Busy(after, r)
  {
    hide Run, Step;
    var loaded := ByLoad(Bytes(b), around);
    RunThree(s, DaemonAdopt(1), DaemonLoad(0, Some(older), ByLoad(Bytes(b), around)), DaemonAdopt(0));
    AdoptStep(s, 1);
    LoadStep(Step(s, DaemonAdopt(1)), 0, Some(older), loaded);
    AdoptStep(Step(Step(s, DaemonAdopt(1)), DaemonLoad(0, Some(older), loaded)), 0);
  }

  lemma OverlapEnds(startup: Table, older: Table, newer: Table, a: nat, b: nat, c: nat, around: nat)
    requires a != b && b != c && a != c
    ensures var s := Run(INITIAL, Overlap(startup, older, newer, a, b, c, around));
            && s.live.Some? && s.live.value.vars.targets == older && s.live.value.vars.watch.seen == Some(Bytes(c))
            && Arrivals(s) && forall r :: !Busy(s, r)
  {
    hide Run, Start, Looks, Ends, Busy, Step, Arrivals;
    var s := Run(INITIAL, Start(startup, a, around));
    RunAppend(INITIAL, Start(startup, a, around), Looks(b, c, newer, around) + Ends(b, older, around));
    RunAppend(s, Looks(b, c, newer, around), Ends(b, older, around));
    StartEnds(startup, a, around);
    LooksEnd(s, b, c, newer, around);
    EndsEnd(Run(s, Looks(b, c, newer, around)), b, older, around);
  }

  /** The first way: overlapping refreshes can leave the older table in force under the newer fingerprint,
      with nothing around the files changing. The run is honest and not calm, and after it the newer table
      is refused, whatever requests come, until the file is written or the daemon starts again. */
  lemma OverlappingRefreshesStick(disk: Disk, startup: Table, older: Table, newer: Table, a: nat, b: nat, c: nat,
                                  around: nat, more: seq<Event>)
    requires a != b && b != c && a != c && older != newer && Unwritten(Some(Bytes(c)), more)
    requires disk(Bytes(a), around) == Some(startup)
    requires disk(Bytes(b), around) == Some(older) && disk(Bytes(c), around) == Some(newer)
    ensures var run := Overlap(startup, older, newer, a, b, c, around);
            var s := Run(INITIAL, run + more);
            && Honest(disk, run) && !Calm(run)
            && s.live.Some?
            && s.live.value.vars.watch.seen == Some(Bytes(c)) && s.live.value.vars.targets == older
            && !Checked(s.live.value.id, s.live.value.vars, Some(Binding(s.live.value.id, DigestOf(newer))))
  {
    hide Run, Honest, Calm, Step, Busy, Overlap, Arrivals;
    var run := Overlap(startup, older, newer, a, b, c, around);
    OverlapEnds(startup, older, newer, a, b, c, around);
    RunAppend(INITIAL, run, more);
    StaysUntilWritten(Run(INITIAL, run), more);
    CopiesAgree(run);
    OverlapHonest(disk, startup, older, newer, a, b, c, around);
    OverlapNotCalm(startup, older, newer, a, b, c, around);
  }

  lemma OverlapHonest(disk: Disk, startup: Table, older: Table, newer: Table, a: nat, b: nat, c: nat, around: nat)
    requires disk(Bytes(a), around) == Some(startup)
    requires disk(Bytes(b), around) == Some(older) && disk(Bytes(c), around) == Some(newer)
    ensures Honest(disk, Overlap(startup, older, newer, a, b, c, around))
  {
  }

  lemma {:induction false} CalmPrefix(events: seq<Event>, n: nat)
    requires Calm(events) && n <= |events|
    ensures Calm(events[..n])
  {
    if n == |events| {
      assert events[..n] == events;
    } else {
      assert events[..n] == Front(events)[..n];
      CalmPrefix(Front(events), n);
    }
  }

  lemma OverlapNotCalm(startup: Table, older: Table, newer: Table, a: nat, b: nat, c: nat, around: nat)
    requires a != b
    ensures !Calm(Overlap(startup, older, newer, a, b, c, around))
  {
    var run, start := Overlap(startup, older, newer, a, b, c, around), Start(startup, a, around);
    StartEnds(startup, a, around);
    var first := start + [DaemonObserve(0, Bytes(b))];
    assert Front(first) == start;
    var s := Run(INITIAL, first);
    assert s == Step(Run(INITIAL, start), DaemonObserve(0, Bytes(b)));
    assert Busy(s, 0) && At(s, 1, IsArrived);
    assert !CalmStep(s, DaemonObserve(1, Bytes(c)));
    var second := first + [DaemonObserve(1, Bytes(c))];
    assert Front(second) == first && run[..5] == second;
    assert !Calm(second);
    if Calm(run) { CalmPrefix(run, 5); }
  }
}
