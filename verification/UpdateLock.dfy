/** Any number of updates, rollbacks and recoveries against one state directory
    (tools/update-install.mjs): the journal file is the lock, and it is also what a recovery reads.
    Every event is one atomic step of one process; an event that is not enabled changes nothing. */
module UpdateLock {
  import opened Sequences
  import opened FileTree
  import opened UpdateInstall

  datatype Phase =
    | Opened              // the journal file is created, nothing is written in it yet
    | Holding             // every journaled move has been performed
    | Journaled           // the last journaled move has not been performed yet
    | Undoing(left: nat)  // the first `left` entries of the journal are still to be undone
    | Aside(left: nat)    // so are they, and the tree that stood in the way of the last one is put aside
    | Cleared             // the emptied journal is on disk
    | Finished            // the lock is given up

  datatype Proc = Proc(alive: bool, phase: Phase, journal: Journal)

  /** `base` and `clean` are history: what the trees were before the first move of the latest
      switch, and whether every journaled move found its destination free and no undo has begun. */
  datatype State = State(fs: Trees, file: JournalFile, procs: map<Process, Proc>, base: Trees, clean: bool)

  datatype Event =
    | Open(p: Process, kind: string)
    | Head(p: Process)
    | Stage(p: Process, pkg: Path, tree: Option<Node>)
    | Record(p: Process, m: Move)
    | Perform(p: Process)
    | Fail(p: Process)
    | UndoStep(p: Process)
    | Sidestep(p: Process, now: nat)
    | Restore(p: Process)
    | Refused(p: Process)
    | Clear(p: Process)
    | Release(p: Process)
    | Die(p: Process)
    | Recover(p: Process)

  /** A live process between taking the lock and giving it up. */
  predicate Active(s: State, p: Process)
  {
    p in s.procs && s.procs[p].alive && !s.procs[p].phase.Finished?
  }

  predicate Alive(s: State, p: Process)
  {
    p in s.procs && s.procs[p].alive
  }

  /** What `--recover` asks of the journal it finds. The second clause is the assumption that two
      recoveries are not started at once: the code does not guard against it. */
  predicate MayRecover(s: State, p: Process)
  {
    && p !in s.procs && s.file.Written? && !Alive(s, s.file.journal.owner)
    && forall q :: q in s.procs && Active(s, q) ==> s.procs[q].journal.owner == q
  }

  /** The process is at a journal entry it has to undo, and this is the entry. */
  predicate AtEntry(s: State, p: Process)
  {
    && Active(s, p) && (s.procs[p].phase.Undoing? || s.procs[p].phase.Aside?)
    && 0 < s.procs[p].phase.left <= |s.procs[p].journal.moves|
  }

  function Entry(s: State, p: Process): Move
    requires AtEntry(s, p)
  {
    s.procs[p].journal.moves[s.procs[p].phase.left - 1]
  }

  /** Where a package is staged: nothing else is written before the first move. */
  function Next(pkg: Path): Path
  {
    At(pkg.name + ".next")
  }

  /** `UndoStep` is an entry that needs at most one rename. A tree in the way takes two, `Sidestep`
      and `Restore`. `Refused` is a rename that the system refuses, which is reported and passed over. */
  predicate Enabled(s: State, e: Event)
  {
    match e
    case Open(p, _) => p !in s.procs && s.file == Absent
    case Head(p) => Active(s, p) && s.procs[p].phase == Opened
    case Stage(p, _, _) => Active(s, p) && s.procs[p].phase == Holding && s.procs[p].journal.moves == []
    case Record(p, _) => Active(s, p) && s.procs[p].phase == Holding
    case Perform(p) =>
      && Active(s, p) && s.procs[p].phase == Journaled && s.procs[p].journal.moves != []
      && Rename(s.fs, Last(s.procs[p].journal.moves).from, Last(s.procs[p].journal.moves).to).Some?
    case Fail(p) => Active(s, p) && (s.procs[p].phase == Holding || s.procs[p].phase == Journaled)
    case UndoStep(p) =>
      AtEntry(s, p) && s.procs[p].phase.Undoing? && !(Entry(s, p).to in s.fs && Entry(s, p).from in s.fs)
    case Sidestep(p, now) =>
      && AtEntry(s, p) && s.procs[p].phase.Undoing? && Entry(s, p).to in s.fs && Entry(s, p).from in s.fs
      && UpdateInstall.Aside(Entry(s, p).from, now) !in s.fs
    case Restore(p) =>
      AtEntry(s, p) && s.procs[p].phase.Aside? && Entry(s, p).to in s.fs && Entry(s, p).from !in s.fs
    case Refused(p) => AtEntry(s, p)
    case Clear(p) => Active(s, p) && s.procs[p].phase == Undoing(0)
    case Release(p) => Active(s, p) && (s.procs[p].phase == Holding || s.procs[p].phase == Cleared)
    case Die(p) => Alive(s, p)
    case Recover(p) => MayRecover(s, p)
  }

  function With(s: State, p: Process, proc: Proc): State
  {
    s.(procs := s.procs[p := proc])
  }

  /** The entry is behind: one fewer is left. */
  function Passed(s: State, p: Process): State
    requires AtEntry(s, p)
  {
    With(s, p, s.procs[p].(phase := Undoing(s.procs[p].phase.left - 1))).(clean := false)
  }

  function Step(s: State, e: Event): State
  {
    if !Enabled(s, e) then s
    else match e
      case Open(p, kind) =>
        With(s, p, Proc(true, Opened, Journal(kind, p, []))).(file := Empty, base := s.fs, clean := true)
      case Head(p) =>
        With(s, p, s.procs[p].(phase := Holding)).(file := Written(s.procs[p].journal))
      case Stage(p, pkg, tree) =>
        var fs := if tree.Some? then s.fs[Next(pkg) := tree.value] else s.fs - {Next(pkg)};
        s.(fs := fs, base := fs)
      case Record(p, m) =>
        var j := s.procs[p].journal.(moves := s.procs[p].journal.moves + [m]);
        With(s, p, s.procs[p].(phase := Journaled, journal := j))
        .(file := Written(j), clean := s.clean && m.to !in s.fs)
      case Perform(p) =>
        var m := Last(s.procs[p].journal.moves);
        With(s, p, s.procs[p].(phase := Holding)).(fs := Moved(s.fs, m.from, m.to))
      case Fail(p) =>
        With(s, p, s.procs[p].(phase := Undoing(|s.procs[p].journal.moves|)))
      case UndoStep(p) =>
        var m := Entry(s, p);
        Passed(s, p).(fs := if m.to in s.fs then Moved(s.fs, m.to, m.from) else s.fs)
      case Sidestep(p, now) =>
        var m := Entry(s, p);
        With(s, p, s.procs[p].(phase := Aside(s.procs[p].phase.left)))
        .(fs := Moved(s.fs, m.from, UpdateInstall.Aside(m.from, now)), clean := false)
      case Restore(p) =>
        var m := Entry(s, p);
        Passed(s, p).(fs := Moved(s.fs, m.to, m.from))
      case Refused(p) => Passed(s, p)
      case Clear(p) =>
        var j := s.procs[p].journal.(moves := []);
        With(s, p, s.procs[p].(phase := Cleared, journal := j)).(file := Written(j), clean := false)
      case Release(p) =>
        With(s, p, s.procs[p].(phase := Finished)).(file := Absent)
      case Die(p) =>
        With(s, p, s.procs[p].(alive := false))
      case Recover(p) =>
        With(s, p, Proc(true, Undoing(|s.file.journal.moves|), s.file.journal))
  }

  function Run(s: State, events: seq<Event>): State
  {
    if events == [] then s else Step(Run(s, Front(events)), Last(events))
  }

  function Initial(fs: Trees): State
  {
    State(fs, Absent, map[], fs, true)
  }

  // ---------- the invariant ----------

  /** At most one process is active, and what it believes is in the journal is what is on disk. */
  ghost predicate Exclusive(s: State)
  {
    && (forall p, q :: Active(s, p) && Active(s, q) ==> p == q)
    && (forall p :: Active(s, p) ==>
          s.file == if s.procs[p].phase == Opened then Empty else Written(s.procs[p].journal))
    && (forall p :: Active(s, p) && s.procs[p].phase == Opened ==> s.procs[p].journal.moves == [])
  }

  /** The trees are those of `base` with the journaled moves performed, all of them or all but the
      last, whose destination is then free. */
  ghost predicate MidSwitch(base: Trees, moves: seq<Move>, fs: Trees)
  {
    || Apply(base, moves) == Some(fs)
    || (moves != [] && Apply(base, Front(moves)) == Some(fs) && Last(moves).to !in fs)
  }

  ghost predicate Exact(s: State)
  {
    s.clean ==>
      && (s.file == Empty ==> s.fs == s.base)
      && (s.file.Written? ==> MidSwitch(s.base, s.file.journal.moves, s.fs))
      && (forall p ::
            Active(s, p) && s.procs[p].phase == Holding ==> Apply(s.base, s.procs[p].journal.moves) == Some(s.fs))
      && (forall p :: Active(s, p) && s.procs[p].phase == Journaled ==>
            s.procs[p].journal.moves != [] && Apply(s.base, Front(s.procs[p].journal.moves)) == Some(s.fs))
  }

  ghost predicate Conserved(s: State)
  {
    Stored(s.fs) == Stored(s.base)
  }

  /** What a step does to the one process that takes it, and to the file. */
  lemma ActorAfter(s: State, e: Event)
    requires Exclusive(s) && Enabled(s, e)
    ensures var t := Step(s, e);
            && e.p in t.procs
            && (e.Die? ==> t.file == s.file && !Active(t, e.p))
            && (Active(t, e.p) ==>
                  && t.file == (if t.procs[e.p].phase == Opened then Empty else Written(t.procs[e.p].journal))
                  && (t.procs[e.p].phase == Opened ==> t.procs[e.p].journal.moves == []))
            && (!e.Die? && !Active(t, e.p) ==> t.file == Absent)
  {
    hide Apply, Rename, Moved;
  }

  lemma StepExclusive(s: State, e: Event)
    requires Exclusive(s)
    ensures Exclusive(Step(s, e))
  {
    hide Enabled;
    if Enabled(s, e) {
      hide Step;
      ActorAfter(s, e);
      forall q | q != e.p
        ensures Active(Step(s, e), q) ==> Active(s, q) && e.Die? && Step(s, e).procs[q] == s.procs[q]
      {
        Others(s, e, q);
      }
    }
  }

  lemma StepExact(s: State, e: Event)
    requires Exclusive(s) && Exact(s)
    ensures Exact(Step(s, e))
  {
    if Enabled(s, e) && Step(s, e).clean {
      match e
      case Open(p, kind) => OpenExact(s, p, kind);
      case Record(p, m) => RecordExact(s, p, m);
      case Perform(p) => PerformExact(s, p);
      case _ => SameTrees(s, e);
    }
  }

  lemma Others(s: State, e: Event, q: Process)
    requires Exclusive(s) && Enabled(s, e) && q != e.p
    ensures Active(Step(s, e), q) ==> Active(s, q) && e.Die? && Step(s, e).procs[q] == s.procs[q]
  {
    OtherProcs(s, e, q);
    NoneActive(s, e);
    assert Active(Step(s, e), q) ==> Active(s, q);
    assert e.Open? || e.Recover? || e.Die? || Active(s, e.p);
    assert Active(s, q) && Active(s, e.p) ==> q == e.p;
  }

  /** The lock is taken, and a journal recovered, only when nobody is active. */
  lemma NoneActive(s: State, e: Event)
    requires Exclusive(s) && Enabled(s, e)
    ensures e.Open? || e.Recover? ==> forall q :: !Active(s, q)
  {
    forall q | Active(s, q) ensures !e.Open? && !e.Recover? {
      assert s.file == if s.procs[q].phase == Opened then Empty else Written(s.procs[q].journal);
    }
  }

  lemma OtherProcs(s: State, e: Event, q: Process)
    requires q != e.p
    ensures q in Step(s, e).procs <==> q in s.procs
    ensures q in s.procs ==> Step(s, e).procs[q] == s.procs[q]
  {
    hide Rename, UndoOne, Moved;
  }

  lemma OpenExact(s: State, p: Process, kind: string)
    requires Exclusive(s) && Enabled(s, Open(p, kind))
    ensures Exact(Step(s, Open(p, kind)))
  {
    var t := Step(s, Open(p, kind));
    NoneActive(s, Open(p, kind));
    forall q | Active(t, q) ensures q == p { assert q != p ==> (Active(t, q) <==> Active(s, q)); }
  }

  lemma RecordExact(s: State, p: Process, m: Move)
    requires Exclusive(s) && Exact(s) && Enabled(s, Record(p, m)) && Step(s, Record(p, m)).clean
    ensures Exact(Step(s, Record(p, m)))
  {
    var t := Step(s, Record(p, m));
    assert Front(t.file.journal.moves) == s.procs[p].journal.moves;
    forall q | Active(t, q) && q != p ensures false { Others(s, Record(p, m), q); }
  }

  lemma PerformExact(s: State, p: Process)
    requires Exclusive(s) && Exact(s) && Enabled(s, Perform(p)) && s.clean
    ensures Exact(Step(s, Perform(p)))
  {
    var t := Step(s, Perform(p));
    assert s.file == Written(s.procs[p].journal);
    forall q | Active(t, q) && q != p ensures false { Others(s, Perform(p), q); }
  }

  lemma SameTrees(s: State, e: Event)
    requires Exclusive(s) && Exact(s) && Enabled(s, e) && Step(s, e).clean
    requires !e.Open? && !e.Record? && !e.Perform?
    ensures Exact(Step(s, e))
  {
    var t := Step(s, e);
    forall q | Active(t, q) && q != e.p ensures Active(s, q) && t.procs[q] == s.procs[q] { Others(s, e, q); }
    if e.Stage? {
      assert s.file == Written(s.procs[e.p].journal);
    }
  }

  /** What staging takes off the disk, and what it puts there. Both are at `.next` names. */
  ghost function TakenBy(s: State, e: Event): multiset<Node>
  {
    if e.Stage? && Enabled(s, e) && Next(e.pkg) in s.fs then multiset{s.fs[Next(e.pkg)]} else multiset{}
  }

  ghost function PutBy(s: State, e: Event): multiset<Node>
  {
    if e.Stage? && Enabled(s, e) && e.tree.Some? then multiset{e.tree.value} else multiset{}
  }

  lemma StageBalance(fs: Trees, path: Path, tree: Option<Node>)
    ensures Stored(if tree.Some? then fs[path := tree.value] else fs - {path})
        + (if path in fs then multiset{fs[path]} else multiset{})
         == Stored(fs) + (if tree.Some? then multiset{tree.value} else multiset{})
  {
    hide Stored;
    if path in fs { StoredWithout(fs, path); }
    if tree.Some? {
      StoredWithout(fs[path := tree.value], path);
      assert fs[path := tree.value] - {path} == fs - {path};
    }
    if path !in fs { assert fs - {path} == fs; }
  }

  /** A step other than staging keeps every tree. */
  lemma StepBalance(s: State, e: Event)
    ensures Stored(Step(s, e).fs) + TakenBy(s, e) == Stored(s.fs) + PutBy(s, e)
  {
    hide Stored, Apply;
    if Enabled(s, e) {
      match e
      case Stage(p, pkg, tree) => StageBalance(s.fs, Next(pkg), tree);
      case Perform(p) => MovedStored(s.fs, Last(s.procs[p].journal.moves).from, Last(s.procs[p].journal.moves).to);
      case UndoStep(p) => if Entry(s, p).to in s.fs { MovedStored(s.fs, Entry(s, p).to, Entry(s, p).from); }
      case Sidestep(p, now) => MovedStored(s.fs, Entry(s, p).from, UpdateInstall.Aside(Entry(s, p).from, now));
      case Restore(p) => MovedStored(s.fs, Entry(s, p).to, Entry(s, p).from);
      case _ =>
    }
  }

  lemma StepConserves(s: State, e: Event)
    requires Conserved(s)
    ensures Conserved(Step(s, e))
  {
    hide Stored, Apply;
    StepBalance(s, e);
    if !e.Stage? {
      assert Stored(Step(s, e).fs) + multiset{} == Stored(Step(s, e).fs) && Stored(s.fs) + multiset{} == Stored(s.fs);
    }
  }

  /** The owner of a written journal is known, and alive only while it holds the lock; who works on the
      journal is its owner, or recovers it from a dead one. */
  ghost predicate Owned(s: State)
  {
    && (s.file.Written? ==>
          s.file.journal.owner in s.procs && (Alive(s, s.file.journal.owner) ==> Active(s, s.file.journal.owner)))
    && (forall p :: Active(s, p) ==>
          s.procs[p].journal.owner in s.procs && (Alive(s, s.procs[p].journal.owner) ==> s.procs[p].journal.owner == p))
  }

  /** Whose journal the acting process works on afterwards. */
  lemma ActorJournal(s: State, e: Event)
    requires Exclusive(s) && Enabled(s, e)
    ensures var t := Step(s, e);
            && e.p in t.procs && (e.Open? ==> t.procs[e.p].journal.owner == e.p)
            && (e.Recover?
               ==> s.file.Written? && !Alive(s, s.file.journal.owner) && t.procs[e.p].journal == s.file.journal)
            && (!e.Open? && !e.Recover? ==> Alive(s, e.p) && t.procs[e.p].journal.owner == s.procs[e.p].journal.owner)
            && (!e.Open? && !e.Recover? && !e.Die? ==> Active(s, e.p))
            && (e.Open? || e.Recover? ==> e.p !in s.procs)
  {
    hide Apply, Rename, Moved;
  }

  lemma StepOwned(s: State, e: Event)
    requires Exclusive(s) && Owned(s)
    ensures Owned(Step(s, e))
  {
    hide Enabled, Exclusive;
    if Enabled(s, e) {
      hide Step;
      ActorAfter(s, e);
      ActorJournal(s, e);
      forall q | q != e.p
        ensures q in Step(s, e).procs <==> q in s.procs
        ensures q in s.procs ==> Step(s, e).procs[q] == s.procs[q]
      {
        OtherProcs(s, e, q);
      }
      forall q | q != e.p ensures Active(Step(s, e), q) ==> Active(s, q) && e.Die? {
        Others(s, e, q);
      }
    }
  }

  lemma {:induction false} Reachable(fs: Trees, events: seq<Event>)
    ensures var s := Run(Initial(fs), events);
            Exclusive(s) && Exact(s) && Conserved(s) && Owned(s)
  {
    hide Exclusive, Exact, Conserved, Owned, Step;
    if events == [] {
      Fresh(fs);
    } else {
      Reachable(fs, Front(events));
      var s := Run(Initial(fs), Front(events));
      StepExclusive(s, Last(events));
      StepExact(s, Last(events));
      StepConserves(s, Last(events));
      StepOwned(s, Last(events));
    }
  }

  lemma Fresh(fs: Trees)
    ensures var s := Initial(fs);
            Exclusive(s) && Exact(s) && Conserved(s) && Owned(s)
  {
  }

  // ---------- the theorems ----------

  /** In every run, at most one process is between taking the lock and giving it up, through holder
      death and recovery. */
  lemma MutualExclusion(fs: Trees, events: seq<Event>, p: Process, q: Process)
    requires Active(Run(Initial(fs), events), p) && Active(Run(Initial(fs), events), q)
    ensures p == q
  {
    Reachable(fs, events);
  }

  /** Only the one active process touches the trees or the journal, and when it journals a move the
      file becomes exactly what was on disk with that move at the end: no update is lost. */
  lemma OnlyHolderExtends(fs: Trees, events: seq<Event>, e: Event)
    ensures var s := Run(Initial(fs), events);
            var t := Step(s, e);
            && (t.fs != s.fs ==> Active(s, e.p))
            && (t.file != s.file ==> Active(s, e.p) || s.file == Absent)
            && (Enabled(s, e) && e.Record? ==>
                  s.file.Written? && t.file == Written(s.file.journal.(moves := s.file.journal.moves + [e.m])))
  {
    Reachable(fs, events);
  }

  /** No package tree is ever lost: over any interleaving of moves, crashes (between the two renames
      of a sidestep too), refused renames and repeated or interrupted recoveries, the trees on disk are
      those there were before the first move of the latest switch. */
  lemma NothingLost(fs: Trees, events: seq<Event>)
    ensures Stored(Run(Initial(fs), events).fs) == Stored(Run(Initial(fs), events).base)
  {
    Reachable(fs, events);
  }

  /** What staging has taken and put over a whole run. */
  ghost function Taken(fs: Trees, events: seq<Event>): multiset<Node>
  {
    if events == [] then multiset{}
    else Taken(fs, Front(events)) + TakenBy(Run(Initial(fs), Front(events)), Last(events))
  }

  ghost function Staged(fs: Trees, events: seq<Event>): multiset<Node>
  {
    if events == [] then multiset{}
    else Staged(fs, Front(events)) + PutBy(Run(Initial(fs), Front(events)), Last(events))
  }

  /** Over any number of updates, rollbacks and recoveries the books balance: the trees on disk and
      those that staging took off `.next` names are the trees of the first disk and those it staged. */
  lemma {:induction false} TreesBalance(fs: Trees, events: seq<Event>)
    ensures Stored(Run(Initial(fs), events).fs) + Taken(fs, events) == Stored(fs) + Staged(fs, events)
  {
    hide Stored, Step, TakenBy, PutBy;
    if events != [] {
      TreesBalance(fs, Front(events));
      var s, e := Run(Initial(fs), Front(events)), Last(events);
      StepBalance(s, e);
      SumsBalance(Stored(s.fs), Stored(Step(s, e).fs), Stored(fs), Taken(fs, Front(events)), TakenBy(s, e),
                  Staged(fs, Front(events)), PutBy(s, e));
    }
  }

  lemma SumsBalance(before: multiset<Node>, after: multiset<Node>, first: multiset<Node>, taken: multiset<Node>,
                    taking: multiset<Node>, staged: multiset<Node>, putting: multiset<Node>)
    requires before + taken == first + staged && after + taking == before + putting
    ensures after + (taken + taking) == first + (staged + putting)
  {
    assert after + (taken + taking) == (after + taking) + taken;
    assert (before + putting) + taken == (before + taken) + putting;
  }

  /** Whatever state a run is in, before any undo has begun: one complete undo of the journal on
      disk gives back exactly what was there before the first move. */
  lemma RecoverableAnywhere(fs: Trees, events: seq<Event>, clock: seq<nat>)
    requires var s := Run(Initial(fs), events);
             s.clean && s.file.Written? && |clock| == |s.file.journal.moves|
    ensures var s := Run(Initial(fs), events);
            Undo(s.fs, s.file.journal.moves, clock) == s.base
  {
    hide Run;
    Reachable(fs, events);
    var s := Run(Initial(fs), events);
    var moves := s.file.journal.moves;
    if Apply(s.base, moves) == Some(s.fs) {
      UndoRestores(s.base, moves, clock);
    } else {
      assert Undo(s.fs, moves, clock) == Undo(s.fs, Front(moves), Front(clock));
      UndoRestores(s.base, Front(moves), Front(clock));
    }
  }

  /** The events of taking one entry back: none, one or two renames. */
  function EntryEvents(p: Process, fs: Trees, m: Move, now: nat): seq<Event>
  {
    if m.to !in fs || m.from !in fs then [UndoStep(p)]
    else if UpdateInstall.Aside(m.from, now) in fs then [Refused(p)]
    else if m.to in Moved(fs, m.from, UpdateInstall.Aside(m.from, now)) then [Sidestep(p, now), Restore(p)]
    else [Sidestep(p, now), Refused(p)]
  }

  function UndoEvents(p: Process, fs: Trees, moves: seq<Move>, clock: seq<nat>): seq<Event>
    requires |clock| == |moves|
    decreases moves
  {
    if moves == [] then []
    else
      EntryEvents(p, fs, Last(moves), Last(clock))
      + UndoEvents(p, UndoOne(fs, Last(moves), Last(clock)), Front(moves), Front(clock))
  }

  function RecoverEvents(p: Process, fs: Trees, moves: seq<Move>, clock: seq<nat>): seq<Event>
    requires |clock| == |moves|
  {
    [Recover(p)] + (UndoEvents(p, fs, moves, clock) + [Clear(p), Release(p)])
  }

  lemma {:induction false} RunAppend(s: State, a: seq<Event>, b: seq<Event>)
    ensures Run(s, a + b) == Run(Run(s, a), b)
  {
    hide Step;
    if b == [] {
      assert a + b == a;
    } else {
      assert Front(a + b) == a + Front(b);
      RunAppend(s, a, Front(b));
    }
  }

  lemma RunTwo(s: State, a: Event, b: Event)
    ensures Run(s, [a, b]) == Step(Step(s, a), b) && Run(s, [a]) == Step(s, a)
  {
    hide Step;
    assert Front([a, b]) == [a] && Front([a]) == [];
    assert Run(s, [a]) == Step(s, a);
  }

  /** An entry with a tree in the way takes two steps. */
  lemma SidestepRun(s: State, p: Process, now: nat)
    requires AtEntry(s, p) && Enabled(s, Sidestep(p, now))
    ensures var m := Entry(s, p);
            var cleared := Moved(s.fs, m.from, UpdateInstall.Aside(m.from, now));
            var t := Step(Step(s, Sidestep(p, now)), if m.to in cleared then Restore(p) else Refused(p));
            && t.fs == UndoOne(s.fs, m, now) && t.file == s.file
            && Active(t, p) && t.procs[p] == s.procs[p].(phase := Undoing(s.procs[p].phase.left - 1))
  {
    hide UpdateInstall.Aside, Apply, Rename;
    var mid := Step(s, Sidestep(p, now));
    AsideIsOther(Entry(s, p).from, now);
    assert AtEntry(mid, p) && Entry(mid, p) == Entry(s, p);
  }

  lemma OneStepRun(s: State, p: Process, now: nat)
    requires AtEntry(s, p) && s.procs[p].phase.Undoing?
    requires var m := Entry(s, p);
             m.to !in s.fs || m.from !in s.fs || UpdateInstall.Aside(m.from, now) in s.fs
    ensures var m := Entry(s, p);
            var t := Step(s, if m.to !in s.fs || m.from !in s.fs then UndoStep(p) else Refused(p));
            && t.fs == UndoOne(s.fs, m, now) && t.file == s.file
            && Active(t, p) && t.procs[p] == s.procs[p].(phase := Undoing(s.procs[p].phase.left - 1))
  {
    hide UpdateInstall.Aside, Apply, Rename;
  }

  /** One entry taken back, whatever it takes. */
  lemma EntryRun(s: State, p: Process, now: nat)
    requires AtEntry(s, p) && s.procs[p].phase.Undoing?
    ensures var t := Run(s, EntryEvents(p, s.fs, Entry(s, p), now));
            && t.fs == UndoOne(s.fs, Entry(s, p), now) && t.file == s.file
            && Active(t, p) && t.procs[p] == s.procs[p].(phase := Undoing(s.procs[p].phase.left - 1))
  {
    hide UpdateInstall.Aside, Run, Step, UndoOne;
    RunTwo(s, UndoStep(p), Refused(p));
    RunTwo(s, Refused(p), Refused(p));
    RunTwo(s, Sidestep(p, now), Restore(p));
    RunTwo(s, Sidestep(p, now), Refused(p));
    var m := Entry(s, p);
    if m.to !in s.fs || m.from !in s.fs || UpdateInstall.Aside(m.from, now) in s.fs {
      OneStepRun(s, p, now);
    } else {
      SidestepRun(s, p, now);
    }
  }

  lemma {:induction false} UndoRun(s: State, p: Process, n: nat, clock: seq<nat>)
    requires Active(s, p) && s.procs[p].phase == Undoing(n) && n == |clock| <= |s.procs[p].journal.moves|
    ensures var t := Run(s, UndoEvents(p, s.fs, s.procs[p].journal.moves[..n], clock));
            && t.fs == Undo(s.fs, s.procs[p].journal.moves[..n], clock)
            && t.file == s.file && Active(t, p) && t.procs[p] == s.procs[p].(phase := Undoing(0))
    decreases n
  {
    hide EntryEvents, UndoOne, Step;
    if n > 0 {
      var moves := s.procs[p].journal.moves[..n];
      var first := EntryEvents(p, s.fs, Last(moves), Last(clock));
      assert Front(moves) == s.procs[p].journal.moves[..n - 1];
      EntryRun(s, p, Last(clock));
      var mid := Run(s, first);
      UndoRun(mid, p, n - 1, Front(clock));
      RunAppend(s, first, UndoEvents(p, mid.fs, Front(moves), Front(clock)));
    }
  }

  /** After a crash at any point of a switch, a recovery that runs to its end leaves every path as
      it was before the first move and the lock free. */
  lemma RecoveryRuns(fs: Trees, events: seq<Event>, r: Process, clock: seq<nat>)
    requires var s := Run(Initial(fs), events);
             s.clean && MayRecover(s, r) && |clock| == |s.file.journal.moves|
    ensures var s := Run(Initial(fs), events);
            var t := Run(s, RecoverEvents(r, s.fs, s.file.journal.moves, clock));
            t.fs == s.base && t.file == Absent
  {
    var s := Run(Initial(fs), events);
    RecoverableAnywhere(fs, events, clock);
    RecoveryEnds(s, r, clock);
  }

  lemma RecoveryEnds(s: State, r: Process, clock: seq<nat>)
    requires MayRecover(s, r) && |clock| == |s.file.journal.moves|
    ensures var t := Run(s, RecoverEvents(r, s.fs, s.file.journal.moves, clock));
            t.fs == Undo(s.fs, s.file.journal.moves, clock) && t.file == Absent
  {
    hide Undo, Run, UndoEvents;
    var moves := s.file.journal.moves;
    var a := Step(s, Recover(r));
    assert moves[..|clock|] == moves;
    UndoRun(a, r, |clock|, clock);
    var b := Run(a, UndoEvents(r, s.fs, moves, clock));
    RunAppend(s, [Recover(r)], UndoEvents(r, s.fs, moves, clock) + [Clear(r), Release(r)]);
    RunTwo(s, Recover(r), Recover(r));
    RunAppend(a, UndoEvents(r, s.fs, moves, clock), [Clear(r), Release(r)]);
    RunTwo(b, Clear(r), Release(r));
    CleanEnd(b, r);
  }

  /** An updater that meets an error takes everything back itself. */
  function AbortEvents(p: Process, fs: Trees, moves: seq<Move>, clock: seq<nat>): seq<Event>
    requires |clock| == |moves|
  {
    [Fail(p)] + (UndoEvents(p, fs, moves, clock) + [Clear(p), Release(p)])
  }

  /** An error at any point of a switch: the undo that follows, run to its end, leaves every path as it
      was before the first move and the lock free. */
  lemma AbortRuns(fs: Trees, events: seq<Event>, p: Process, clock: seq<nat>)
    requires var s := Run(Initial(fs), events);
             && s.clean && Active(s, p) && (s.procs[p].phase == Holding || s.procs[p].phase == Journaled)
             && |clock| == |s.procs[p].journal.moves|
    ensures var s := Run(Initial(fs), events);
            var t := Run(s, AbortEvents(p, s.fs, s.procs[p].journal.moves, clock));
            t.fs == s.base && t.file == Absent
  {
    var s := Run(Initial(fs), events);
    Reachable(fs, events);
    assert s.file == Written(s.procs[p].journal);
    RecoverableAnywhere(fs, events, clock);
    AbortEnds(s, p, clock);
  }

  lemma AbortEnds(s: State, p: Process, clock: seq<nat>)
    requires Active(s, p) && (s.procs[p].phase == Holding || s.procs[p].phase == Journaled)
    requires |clock| == |s.procs[p].journal.moves|
    ensures var moves := s.procs[p].journal.moves;
            var t := Run(s, AbortEvents(p, s.fs, moves, clock));
            t.fs == Undo(s.fs, moves, clock) && t.file == Absent
  {
    hide Undo, Run, UndoEvents;
    var moves := s.procs[p].journal.moves;
    var a := Step(s, Fail(p));
    assert moves[..|clock|] == moves;
    UndoRun(a, p, |clock|, clock);
    var b := Run(a, UndoEvents(p, s.fs, moves, clock));
    RunAppend(s, [Fail(p)], UndoEvents(p, s.fs, moves, clock) + [Clear(p), Release(p)]);
    RunTwo(s, Fail(p), Fail(p));
    RunAppend(a, UndoEvents(p, s.fs, moves, clock), [Clear(p), Release(p)]);
    RunTwo(b, Clear(p), Release(p));
    CleanEnd(b, p);
  }

  lemma CleanEnd(s: State, r: Process)
    requires Active(s, r) && s.procs[r].phase == Undoing(0)
    ensures var t := Step(Step(s, Clear(r)), Release(r));
            t.fs == s.fs && t.file == Absent
  {
  }

  /** Each move is journaled and then performed. */
  function MoveEvents(p: Process, moves: seq<Move>): seq<Event>
  {
    if moves == [] then [] else MoveEvents(p, Front(moves)) + [Record(p, Last(moves)), Perform(p)]
  }

  lemma {:induction false} MovesRun(s: State, p: Process, moves: seq<Move>)
    requires Active(s, p) && s.procs[p].phase == Holding && s.procs[p].journal.moves == []
    requires s.clean && Apply(s.fs, moves).Some?
    ensures var t := Run(s, MoveEvents(p, moves));
            && t.fs == Apply(s.fs, moves).value && t.clean && t.base == s.base
            && Active(t, p) && t.procs[p] == s.procs[p].(journal := s.procs[p].journal.(moves := moves))
            && (moves != [] ==> t.file == Written(t.procs[p].journal)) && (moves == [] ==> t.file == s.file)
  {
    hide Step, Rename, Moved;
    if moves != [] {
      MovesRun(s, p, Front(moves));
      var mid := Run(s, MoveEvents(p, Front(moves)));
      RunAppend(s, MoveEvents(p, Front(moves)), [Record(p, Last(moves)), Perform(p)]);
      RunTwo(mid, Record(p, Last(moves)), Perform(p));
      assert Front(moves) + [Last(moves)] == moves;
      OneMove(mid, p, Last(moves));
    }
  }

  lemma OneMove(s: State, p: Process, m: Move)
    requires Active(s, p) && s.procs[p].phase == Holding && s.clean && Rename(s.fs, m.from, m.to).Some?
    ensures var t := Step(Step(s, Record(p, m)), Perform(p));
            && t.fs == Rename(s.fs, m.from, m.to).value && t.clean && t.base == s.base && Active(t, p)
            && t.procs[p] == s.procs[p].(journal := s.procs[p].journal.(moves := s.procs[p].journal.moves + [m]))
            && t.file == Written(t.procs[p].journal)
  {
    assert Last(s.procs[p].journal.moves + [m]) == m;
  }

  /** When nobody holds the lock, a new updater takes it and performs any moves that can be performed, one
      after the other, and gives it up again. Before that the journal holds exactly these moves, and one
      undo of it would give back what was there when the lock was taken. */
  lemma SwitchRuns(s: State, p: Process, kind: string, moves: seq<Move>)
    requires p !in s.procs && s.file == Absent && Apply(s.fs, moves).Some?
    ensures var t := Run(s, [Open(p, kind), Head(p)] + MoveEvents(p, moves));
            && Some(t.fs) == Apply(s.fs, moves) && t.file == Written(Journal(kind, p, moves))
            && t.clean && t.base == s.fs && Active(t, p) && t.procs[p].phase == Holding
            && Step(t, Release(p)).file == Absent && Step(t, Release(p)).fs == t.fs
            && !Active(Step(t, Release(p)), p)
  {
    hide Apply, Run;
    var start := [Open(p, kind), Head(p)];
    RunTwo(s, Open(p, kind), Head(p));
    RunAppend(s, start, MoveEvents(p, moves));
    MovesRun(Run(s, start), p, moves);
  }

  // ---------- what a dead updater leaves ----------

  /** An empty journal file that nobody works on stays there: no later command gets past it. */
  lemma {:induction false} EmptyJournalBlocks(s: State, events: seq<Event>)
    requires s.file == Empty && forall p :: !Active(s, p)
    ensures var t := Run(s, events);
            t.file == Empty && t.fs == s.fs && forall p :: !Active(t, p)
  {
    if events != [] {
      EmptyJournalBlocks(s, Front(events));
      var t, e := Run(s, Front(events)), Last(events);
      if Enabled(t, e) {
        assert !Active(t, e.p);
        assert forall q :: q != e.p ==> (Active(Step(t, e), q) <==> Active(t, q));
      }
    }
  }

  /** Such a file is what a process leaves that is killed between creating the file and writing it. */
  lemma EmptyJournalReached(fs: Trees, p: Process, kind: string)
    ensures var s := Run(Initial(fs), [Open(p, kind), Die(p)]);
            s.file == Empty && s.fs == fs && forall q :: !Active(s, q)
  {
    RunTwo(Initial(fs), Open(p, kind), Die(p));
  }

  /** There is always a process that has not been seen yet. */
  lemma {:induction false} NewProcess(procs: map<Process, Proc>) returns (bound: nat)
    ensures forall p :: p in procs ==> p.pid < bound
    decreases |procs|
  {
    if procs == map[] {
      bound := 0;
    } else {
      var p :| p in procs;
      assert (procs - {p}).Keys + {p} == procs.Keys;
      assert |procs - {p}| < |procs|;
      bound := NewProcess(procs - {p});
      if bound <= p.pid { bound := p.pid + 1; }
    }
  }

  /** In every run: when nobody works on a journal file that is there, some later steps free the lock
      if and only if the file has been written. Then one recovery is enough. */
  lemma FreedIffWritten(fs: Trees, events: seq<Event>)
    requires var s := Run(Initial(fs), events);
             s.file != Absent && forall p :: !Active(s, p)
    ensures var s := Run(Initial(fs), events);
            (exists more :: Run(s, more).file == Absent) <==> s.file.Written?
  {
    hide Run, RecoverEvents;
    Reachable(fs, events);
    var s := Run(Initial(fs), events);
    if s.file.Written? {
      var bound := NewProcess(s.procs);
      var r := Process(bound, "");
      assert r !in s.procs;
      assert !Active(s, s.file.journal.owner);
      var clock := seq(|s.file.journal.moves|, _ => 0);
      RecoveryEnds(s, r, clock);
      assert Run(s, RecoverEvents(r, s.fs, s.file.journal.moves, clock)).file == Absent;
    } else {
      forall more ensures Run(s, more).file != Absent {
        EmptyJournalBlocks(s, more);
      }
    }
  }
}
