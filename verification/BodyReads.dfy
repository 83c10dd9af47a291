/** "Receiver read" (src/daemon.mjs): a body handed to a process is recorded once for each message row
    and reader process. The set of what has been recorded is in memory and the rows are in the ledger;
    calls overlap at every append, appends can fail, and a restart rebuilds the set. */
module BodyReads {
  import opened Sequences

  const MAX_PER_CALL: nat := 50

  /** `${row.seq}|${pid}|${procStart}` */
  datatype Key = Key(seqNumber: int, pid: int, procStart: string)

  /** A row handed to the caller: only one with a body and a number counts. */
  datatype InRow = InRow(number: Option<int>, body: Option<string>)

  /** `writer` is the call that wrote a row; it is not in the ledger. */
  datatype LedgerRow = BodyRead(key: Key, writer: nat) | OtherRow

  datatype Caller = Caller(pid: int, procStart: string)

  function KeyOf(row: InRow, c: Caller): Option<Key>
  {
    if row.body.Some? && row.number.Some? then Some(Key(row.number.value, c.pid, c.procStart)) else None
  }

  // ---------- one call ----------

  /** The keys a call adds when nothing interferes: the first that are new, in order, up to the bound. */
  function NewKeys(rows: seq<InRow>, c: Caller, known: set<Key>, room: nat): seq<Key>
    decreases |rows|
  {
    if rows == [] then []
    else
      var key := KeyOf(rows[0], c);
      if key.None? || key.value in known then NewKeys(rows[1..], c, known, room)
      else if room == 0 then []
      else [key.value] + NewKeys(rows[1..], c, known + {key.value}, room - 1)
  }

  function KeySet(keys: seq<Key>): set<Key>
  {
    set key | key in keys
  }

  class Recorder {
    var bodyReads: set<Key>
    ghost var appended: seq<Key>

    constructor (events: seq<LedgerRow>)
      ensures bodyReads == ReadKeys(events) && appended == []
    {
      bodyReads := set row | row in events && row.BodyRead? :: row.key;
      appended := [];
    }

    /** `recordBodyReads`, without another call between its appends. */
    method RecordBodyReads(rows: seq<InRow>, caller: Option<Caller>)
      modifies this
      ensures caller.None? ==> bodyReads == old(bodyReads) && appended == old(appended)
      ensures caller.Some? ==>
                var keys := NewKeys(rows, caller.value, old(bodyReads), MAX_PER_CALL);
                appended == old(appended) + keys && bodyReads == old(bodyReads) + KeySet(keys)
    {
      if caller.None? { return; }
      var written := 0;
      ghost var keys: seq<Key> := [];
      for k := 0 to |rows|
        invariant written == |keys| <= MAX_PER_CALL
        invariant appended == old(appended) + keys && bodyReads == old(bodyReads) + KeySet(keys)
        invariant NewKeys(rows, caller.value, old(bodyReads), MAX_PER_CALL)
               == keys + NewKeys(rows[k..], caller.value, bodyReads, MAX_PER_CALL - written)
      {
        assert rows[k..][0] == rows[k] && rows[k..][1..] == rows[k + 1..];
        var key := KeyOf(rows[k], caller.value);
        if key.None? || key.value in bodyReads { continue; }
        if written >= MAX_PER_CALL {
          assert keys + [] == keys;
          return;
        }
        Assoc(keys, [key.value],
            NewKeys(rows[k + 1..], caller.value, bodyReads + {key.value}, MAX_PER_CALL - written - 1));
        Assoc(old(appended), keys, [key.value]);
        assert KeySet(keys + [key.value]) == KeySet(keys) + {key.value};
        bodyReads, written := bodyReads + {key.value}, written + 1;
        appended, keys := appended + [key.value], keys + [key.value];
      }
      assert rows[|rows|..] == [] && keys + [] == keys;
    }
  }

  /** The body of a message row with this number is handed to this process. */
  ghost predicate HandedOut(rows: seq<InRow>, c: Caller, key: Key)
  {
    && key.pid == c.pid && key.procStart == c.procStart
    && exists k :: 0 <= k < |rows| && rows[k].number == Some(key.seqNumber) && rows[k].body.Some?
  }

  lemma HandedNext(rows: seq<InRow>, c: Caller, key: Key)
    requires rows != []
    ensures HandedOut(rows, c, key) <==> KeyOf(rows[0], c) == Some(key) || HandedOut(rows[1..], c, key)
  {
    if k :| 0 <= k < |rows| && rows[k].number == Some(key.seqNumber) && rows[k].body.Some? {
      assert k > 0 ==> rows[k] == rows[1..][k - 1];
    }
    if k :| 0 <= k < |rows[1..]| && rows[1..][k].number == Some(key.seqNumber) && rows[1..][k].body.Some? {
      assert rows[k + 1] == rows[1..][k];
    }
  }

  /** One call alone: at most 50 keys, each once, none known before; and every row that counts is known
      afterwards unless the 50 were used up. */
  lemma {:induction false} NewKeysAre(rows: seq<InRow>, c: Caller, known: set<Key>, room: nat)
    ensures var keys := NewKeys(rows, c, known, room);
            && |keys| <= room
            && (forall i :: 0 <= i < |keys| ==> keys[i] !in known && HandedOut(rows, c, keys[i]))
            && (forall i, j :: 0 <= i < j < |keys| ==> keys[i] != keys[j])
            && (|keys| < room ==> forall key :: HandedOut(rows, c, key) ==> key in known + KeySet(keys))
    decreases |rows|
  {
    hide KeyOf, HandedOut;
    if rows == [] {
      NobodyServed(c);
    } else {
      var key := KeyOf(rows[0], c);
      forall k ensures HandedOut(rows, c, k) <==> key == Some(k) || HandedOut(rows[1..], c, k) {
        HandedNext(rows, c, k);
      }
      if key.None? || key.value in known {
        NewKeysAre(rows[1..], c, known, room);
      } else if room > 0 {
        NewKeysAre(rows[1..], c, known + {key.value}, room - 1);
        var rest := NewKeys(rows[1..], c, known + {key.value}, room - 1);
        assert KeySet([key.value] + rest) == {key.value} + KeySet(rest);
      }
    }
  }

  lemma NobodyServed(c: Caller)
    ensures forall key :: !HandedOut([], c, key)
  {
  }

  // ---------- overlapping calls ----------

  function ReadKeys(events: seq<LedgerRow>): set<Key>
  {
    set row | row in events && row.BodyRead? :: row.key
  }

  /** A call between two of its steps: what is left of its rows, how many it has written, and the key
      whose append it waits for. A call of a daemon that has died stays dead. */
  datatype Call = Call(rows: seq<InRow>, caller: Caller, written: nat, pending: Option<Key>, alive: bool)

  datatype System = System(ledger: seq<LedgerRow>, bodyReads: set<Key>, calls: map<nat, Call>)

  /** `Settle` is the end of an append: whether or not it is reported as failed, its row is in the
      ledger or it is not. */
  datatype Event = Other | Restart
                 | Serve(call: nat, rows: seq<InRow>, caller: Caller)
                 | Resume(call: nat) | Settle(call: nat, landed: bool)

  /** The rows up to and with the next one that is appended. */
  function Advance(rows: seq<InRow>, c: Caller, known: set<Key>, written: nat): (seq<InRow>, Option<Key>)
    decreases |rows|
  {
    if rows == [] then ([], None)
    else
      var key := KeyOf(rows[0], c);
      if key.None? || key.value in known then Advance(rows[1..], c, known, written)
      else if written >= MAX_PER_CALL then ([], None)
      else (rows[1..], key)
  }

  function Step(s: System, e: Event): System
  {
    match e
    case Serve(call, rows, caller) =>
      if call in s.calls then s else s.(calls := s.calls[call := Call(rows, caller, 0, None, true)])
    case Resume(call) =>
      if call !in s.calls || !s.calls[call].alive || s.calls[call].pending.Some? then s
      else
        var c := s.calls[call];
        var (rest, key) := Advance(c.rows, c.caller, s.bodyReads, c.written);
        if key.None? then s.(calls := s.calls[call := c.(rows := rest)])
        else
          s.(bodyReads := s.bodyReads + {key.value},
             calls := s.calls[call := c.(rows := rest, written := c.written + 1, pending := key)])
    case Settle(call, landed) =>
      if call !in s.calls || !s.calls[call].alive || s.calls[call].pending.None? then s
      else
        var c := s.calls[call];
        var after := s.(calls := s.calls[call := c.(pending := None)]);
        if landed then after.(ledger := s.ledger + [BodyRead(c.pending.value, call)]) else after
    case Other => s.(ledger := s.ledger + [OtherRow])
    case Restart =>
      System(s.ledger, ReadKeys(s.ledger),
          map call | call in s.calls :: s.calls[call].(alive := false, pending := None))
  }

  const START: System := System([], {}, map[])

  function Run(s: System, events: seq<Event>): System
  {
    if events == [] then s else Step(Run(s, Front(events)), Last(events))
  }

  /** How many rows of the ledger a call wrote. */
  function CountBy(ledger: seq<LedgerRow>, call: nat): nat
  {
    if ledger == [] then 0
    else CountBy(Front(ledger), call) + (if Last(ledger).BodyRead? && Last(ledger).writer == call then 1 else 0)
  }

  ghost predicate OncePerKey(ledger: seq<LedgerRow>)
  {
    forall i, j :: 0 <= i < j < |ledger| && ledger[i].BodyRead? && ledger[j].BodyRead?
        ==> ledger[i].key != ledger[j].key
  }

  ghost predicate Waiting(s: System, call: nat)
  {
    call in s.calls && s.calls[call].pending.Some?
  }

  function Landing(s: System, call: nat): nat
  {
    if call in s.calls && s.calls[call].pending.Some? then 1 else 0
  }

  ghost predicate Good(s: System)
  {
    && OncePerKey(s.ledger)
    && (forall k :: 0 <= k < |s.ledger| && s.ledger[k].BodyRead? ==> s.ledger[k].key in s.bodyReads)
    && (forall c :: Waiting(s, c) ==>
          && s.calls[c].alive && s.calls[c].pending.value in s.bodyReads
          && forall k :: 0 <= k < |s.ledger| && s.ledger[k].BodyRead? ==> s.ledger[k].key != s.calls[c].pending.value)
    && (forall c, d :: Waiting(s, c) && Waiting(s, d) && c != d ==> s.calls[c].pending != s.calls[d].pending)
    && (forall c :: c in s.calls ==>
          s.calls[c].written <= MAX_PER_CALL && CountBy(s.ledger, c) + Landing(s, c) <= s.calls[c].written)
    && (forall c: nat :: c !in s.calls ==> CountBy(s.ledger, c) == 0)
  }

  lemma {:induction false} AdvanceNew(rows: seq<InRow>, c: Caller, known: set<Key>, written: nat)
    ensures var (rest, key) := Advance(rows, c, known, written);
            key.Some? ==> key.value !in known && written < MAX_PER_CALL
    decreases |rows|
  {
    if rows != [] { AdvanceNew(rows[1..], c, known, written); }
  }

  lemma CountNext(ledger: seq<LedgerRow>, row: LedgerRow, call: nat)
    ensures CountBy(ledger + [row], call) == CountBy(ledger, call)
        + (if row.BodyRead? && row.writer == call then 1 else 0)
  {
    assert Front(ledger + [row]) == ledger;
  }

  lemma ResumeGood(s: System, call: nat)
    requires Good(s)
    ensures Good(Step(s, Resume(call)))
  {
    hide CountBy, Advance, OncePerKey;
    if call in s.calls && s.calls[call].alive && s.calls[call].pending.None? {
      var c := s.calls[call];
      AdvanceNew(c.rows, c.caller, s.bodyReads, c.written);
      var after := Step(s, Resume(call));
      assert forall d :: d != call ==> (Waiting(after, d) <==> Waiting(s, d)) && Landing(after, d) == Landing(s, d);
    }
  }

  lemma SettleLost(s: System, call: nat)
    requires Good(s)
    ensures Good(Step(s, Settle(call, false)))
  {
    hide CountBy, OncePerKey;
    var after := Step(s, Settle(call, false));
    assert forall d :: d != call ==> (Waiting(after, d) <==> Waiting(s, d)) && Landing(after, d) == Landing(s, d);
  }

  lemma SettleLanded(s: System, call: nat)
    requires Good(s) && Waiting(s, call)
    ensures Good(Step(s, Settle(call, true)))
  {
    hide CountBy;
    var after := Step(s, Settle(call, true));
    assert !Waiting(after, call);
    assert forall d :: d != call ==> (Waiting(after, d) <==> Waiting(s, d)) && Landing(after, d) == Landing(s, d);
    forall d: nat ensures CountBy(after.ledger, d) == CountBy(s.ledger, d) + (if d == call then 1 else 0) {
      CountNext(s.ledger, BodyRead(s.calls[call].pending.value, call), d);
    }
  }

  lemma SettleNothing(s: System, call: nat, landed: bool)
    requires Good(s) && (landed ==> !Waiting(s, call))
    ensures Good(Step(s, Settle(call, landed)))
  {
    hide Good;
    if !landed { SettleLost(s, call); }
  }

  lemma RestartGood(s: System)
    requires Good(s)
    ensures Good(Step(s, Restart))
  {
    hide CountBy;
    var after := Step(s, Restart);
    forall k | 0 <= k < |s.ledger| && s.ledger[k].BodyRead? ensures s.ledger[k].key in after.bodyReads {
      assert s.ledger[k] in s.ledger;
    }
  }

  lemma ServeGood(s: System, call: nat, rows: seq<InRow>, caller: Caller)
    requires Good(s)
    ensures Good(Step(s, Serve(call, rows, caller)))
  {
    hide CountBy;
    var after := Step(s, Serve(call, rows, caller));
    assert forall d :: (Waiting(after, d) <==> Waiting(s, d)) && Landing(after, d) == Landing(s, d);
  }

  lemma OtherGood(s: System)
    requires Good(s)
    ensures Good(Step(s, Other))
  {
    hide CountBy;
    forall d: nat ensures CountBy(s.ledger + [OtherRow], d) == CountBy(s.ledger, d) {
      CountNext(s.ledger, OtherRow, d);
    }
    assert forall d :: (Waiting(Step(s, Other), d) <==> Waiting(s, d)) && Landing(Step(s, Other), d) == Landing(s, d);
  }

  lemma StepGood(s: System, e: Event)
    requires Good(s)
    ensures Good(Step(s, e))
  {
    hide Good, Step;
    match e
    case Serve(call, rows, caller) => ServeGood(s, call, rows, caller);
    case Resume(call) => ResumeGood(s, call);
    case Settle(call, landed) =>
      if landed && Waiting(s, call) { SettleLanded(s, call); } else { SettleNothing(s, call, landed); }
    case Other => OtherGood(s);
    case Restart => RestartGood(s);
  }

  lemma {:induction false} AlwaysGood(events: seq<Event>)
    ensures Good(Run(START, events))
  {
    if events != [] {
      AlwaysGood(Front(events));
      StepGood(Run(START, Front(events)), Last(events));
    }
  }

  /** In every interleaving of calls, failed appends (whether their row landed or not) and restarts, the
      ledger holds at most one body-read row for a message row and a reader process. */
  lemma RecordedOnce(events: seq<Event>, i: nat, j: nat)
    requires var ledger := Run(START, events).ledger;
             i < j < |ledger| && ledger[i].BodyRead? && ledger[j].BodyRead?
    ensures Run(START, events).ledger[i].key != Run(START, events).ledger[j].key
  {
    AlwaysGood(events);
  }

  /** One call adds at most 50 rows. */
  lemma FiftyPerCall(events: seq<Event>, call: nat)
    ensures CountBy(Run(START, events).ledger, call) <= 50
  {
    AlwaysGood(events);
  }

  // ---------- a call that nothing interferes with ----------

  lemma {:induction false} AdvanceToNew(rows: seq<InRow>, c: Caller, known: set<Key>, written: nat)
    requires written <= MAX_PER_CALL
    ensures var (rest, key) := Advance(rows, c, known, written);
            var keys := NewKeys(rows, c, known, MAX_PER_CALL - written);
            if key.None? then keys == [] && rest == []
            else
              && written < MAX_PER_CALL
              && keys == [key.value] + NewKeys(rest, c, known + {key.value}, MAX_PER_CALL - written - 1)
    decreases |rows|
  {
    hide KeyOf;
    if rows != [] { AdvanceToNew(rows[1..], c, known, written); }
  }

  lemma {:induction false} RunAppend(s: System, a: seq<Event>, b: seq<Event>)
    ensures Run(s, a + b) == Run(Run(s, a), b)
  {
    hide Step;
    if b == [] {
      assert a + b == a;
    } else {
      assert Front(a + b) == a + Front(b);
      RunAppend(s, a, Front(b));
    }
  }

  /** Each append is waited for, and lands. */
  function Rounds(call: nat, n: nat): seq<Event>
  {
    if n == 0 then [] else [Resume(call), Settle(call, true)] + Rounds(call, n - 1)
  }

  function Written(keys: seq<Key>, call: nat): seq<LedgerRow>
  {
    seq(|keys|, i requires 0 <= i < |keys| => BodyRead(keys[i], call))
  }

  predicate Idle(s: System, call: nat)
  {
    call in s.calls && s.calls[call].alive && s.calls[call].pending.None? && s.calls[call].written <= MAX_PER_CALL
  }

  function Left(s: System, call: nat): seq<Key>
    requires Idle(s, call)
  {
    var c := s.calls[call];
    NewKeys(c.rows, c.caller, s.bodyReads, MAX_PER_CALL - c.written)
  }

  lemma OneRound(s: System, call: nat)
    requires Idle(s, call)
    ensures var after := Step(Step(s, Resume(call)), Settle(call, true));
            && Idle(after, call) && after.calls - {call} == s.calls - {call}
            && (if Left(s, call) == [] then
                  Left(after, call) == [] && after.ledger == s.ledger && after.bodyReads == s.bodyReads
                else
                  var key := Left(s, call)[0];
                  && Left(s, call) == [key] + Left(after, call)
                  && after.ledger == s.ledger + [BodyRead(key, call)] && after.bodyReads == s.bodyReads + {key})
  {
    hide NewKeys, Advance;
    var c := s.calls[call];
    AdvanceToNew(c.rows, c.caller, s.bodyReads, c.written);
    NoRows(c.caller, s.bodyReads, MAX_PER_CALL - c.written);
    assert Step(Step(s, Resume(call)), Settle(call, true)).calls - {call} == s.calls - {call};
  }

  lemma NoRows(c: Caller, known: set<Key>, room: nat)
    ensures NewKeys([], c, known, room) == []
  {
  }

  lemma {:induction false} RoundsAdd(s: System, call: nat, n: nat)
    requires Idle(s, call) && n >= |Left(s, call)|
    ensures var after, keys := Run(s, Rounds(call, n)), Left(s, call);
            && after.ledger == s.ledger + Written(keys, call) && after.bodyReads == s.bodyReads + KeySet(keys)
            && after.calls - {call} == s.calls - {call}
    decreases n
  {
    hide Step, Left;
    if n == 0 {
      assert Left(s, call) == [];
    } else {
      var round := [Resume(call), Settle(call, true)];
      var next := Step(Step(s, Resume(call)), Settle(call, true));
      RunAppend(s, round, Rounds(call, n - 1));
      assert Run(s, round) == next by { TwoSteps(s, Resume(call), Settle(call, true)); }
      OneRound(s, call);
      RoundsAdd(next, call, n - 1);
      var keys := Left(s, call);
      if keys != [] {
        assert Written(keys, call) == [BodyRead(keys[0], call)] + Written(Left(next, call), call);
        assert KeySet(keys) == {keys[0]} + KeySet(Left(next, call));
      }
    }
  }

  lemma TwoSteps(s: System, a: Event, b: Event)
    ensures Run(s, [a, b]) == Step(Step(s, a), b)
  {
    hide Step;
    assert Front([a, b]) == [a] && Front([a]) == [];
    assert Run(s, [a]) == Step(s, a);
  }

  /** From any state: a call that is served and goes on with nothing in between adds to the ledger and to the
      set exactly the keys that `recordBodyReads` adds, and touches no other call. */
  lemma AloneAddsNewKeys(s: System, call: nat, rows: seq<InRow>, caller: Caller, n: nat)
    requires call !in s.calls && n >= MAX_PER_CALL
    ensures var after := Run(s, [Serve(call, rows, caller)] + Rounds(call, n));
            var keys := NewKeys(rows, caller, s.bodyReads, MAX_PER_CALL);
            && after.ledger == s.ledger + Written(keys, call) && after.bodyReads == s.bodyReads + KeySet(keys)
            && after.calls - {call} == s.calls
  {
    hide NewKeys, Rounds;
    var serve := Serve(call, rows, caller);
    var served := Step(s, serve);
    RunAppend(s, [serve], Rounds(call, n));
    assert Run(s, [serve]) == served by { assert Front([serve]) == []; }
    NewKeysAre(rows, caller, s.bodyReads, MAX_PER_CALL);
    assert served.calls - {call} == s.calls;
    RoundsAdd(served, call, n);
  }

  // ---------- nothing is recorded that was not handed out ----------

  /** What a call still has to record comes from the rows it was served with. */
  ghost predicate OfServe(events: seq<Event>, call: nat, c: Call)
  {
    exists rows ::
      && Serve(call, rows, c.caller) in events
      && (forall key :: HandedOut(c.rows, c.caller, key) ==> HandedOut(rows, c.caller, key))
      && (c.pending.Some? ==> HandedOut(rows, c.caller, c.pending.value))
  }

  ghost predicate Handed(events: seq<Event>, call: nat, key: Key)
  {
    exists rows, caller :: Serve(call, rows, caller) in events && HandedOut(rows, caller, key)
  }

  ghost predicate AllHanded(events: seq<Event>, s: System)
  {
    && (forall call :: call in s.calls ==> OfServe(events, call, s.calls[call]))
    && (forall k ::
          0 <= k < |s.ledger| && s.ledger[k].BodyRead? ==> Handed(events, s.ledger[k].writer, s.ledger[k].key))
  }

  lemma {:induction false} AdvanceHanded(rows: seq<InRow>, c: Caller, known: set<Key>, written: nat)
    ensures var (rest, key) := Advance(rows, c, known, written);
            && (key.Some? ==> HandedOut(rows, c, key.value))
            && (forall k :: HandedOut(rest, c, k) ==> HandedOut(rows, c, k))
    decreases |rows|
  {
    hide KeyOf, HandedOut;
    NobodyServed(c);
    if rows != [] {
      AdvanceHanded(rows[1..], c, known, written);
      forall k
        ensures HandedOut(rows[1..], c, k) ==> HandedOut(rows, c, k)
        ensures KeyOf(rows[0], c) == Some(k) ==> HandedOut(rows, c, k)
      {
        HandedNext(rows, c, k);
      }
      var (rest, key) := Advance(rows, c, known, written);
      if key.Some? { HandedNext(rows, c, key.value); }
    }
  }

  lemma MoreEvents(events: seq<Event>, e: Event, s: System)
    requires AllHanded(events, s)
    ensures AllHanded(events + [e], s)
  {
    hide HandedOut;
    forall call | call in s.calls ensures OfServe(events + [e], call, s.calls[call]) {
      var c := s.calls[call];
      var rows :|
        && Serve(call, rows, c.caller) in events
        && (forall key :: HandedOut(c.rows, c.caller, key) ==> HandedOut(rows, c.caller, key))
        && (c.pending.Some? ==> HandedOut(rows, c.caller, c.pending.value));
      assert Serve(call, rows, c.caller) in events + [e];
    }
    forall k | 0 <= k < |s.ledger| && s.ledger[k].BodyRead?
      ensures Handed(events + [e], s.ledger[k].writer, s.ledger[k].key)
    {
      var rows, caller :| Serve(s.ledger[k].writer, rows, caller) in events && HandedOut(rows, caller, s.ledger[k].key);
      assert Serve(s.ledger[k].writer, rows, caller) in events + [e];
    }
  }

  lemma ResumeHanded(events: seq<Event>, call: nat, c: Call, known: set<Key>)
    requires OfServe(events, call, c)
    ensures var (rest, key) := Advance(c.rows, c.caller, known, c.written);
            OfServe(events, call, c.(rows := rest, written := c.written + 1, pending := key))
            && (c.pending.None? ==> OfServe(events, call, c.(rows := rest)))
  {
    hide HandedOut, Advance;
    AdvanceHanded(c.rows, c.caller, known, c.written);
    var rows :|
      && Serve(call, rows, c.caller) in events
      && (forall key :: HandedOut(c.rows, c.caller, key) ==> HandedOut(rows, c.caller, key))
      && (c.pending.Some? ==> HandedOut(rows, c.caller, c.pending.value));
    var (rest, key) := Advance(c.rows, c.caller, known, c.written);
    assert forall k :: HandedOut(rest, c.caller, k) ==> HandedOut(rows, c.caller, k);
  }

  lemma SettleHanded(events: seq<Event>, s: System, call: nat, landed: bool)
    requires AllHanded(events, s) && Waiting(s, call)
    ensures AllHanded(events, Step(s, Settle(call, landed)))
  {
    hide HandedOut;
    var c := s.calls[call];
    var rows :|
      && Serve(call, rows, c.caller) in events
      && (forall key :: HandedOut(c.rows, c.caller, key) ==> HandedOut(rows, c.caller, key))
      && (c.pending.Some? ==> HandedOut(rows, c.caller, c.pending.value));
    assert Handed(events, call, c.pending.value);
    assert OfServe(events, call, c.(pending := None));
  }

  lemma StepHanded(events: seq<Event>, s: System, e: Event)
    requires AllHanded(events, s) && e in events
    ensures AllHanded(events, Step(s, e))
  {
    hide HandedOut, Advance;
    match e
    case Serve(call, rows, caller) => assert OfServe(events, call, Call(rows, caller, 0, None, true));
    case Resume(call) =>
      if call in s.calls && s.calls[call].alive && s.calls[call].pending.None? {
        ResumeHanded(events, call, s.calls[call], s.bodyReads);
      }
    case Settle(call, landed) =>
      if Waiting(s, call) { SettleHanded(events, s, call, landed); }
    case Other =>
    case Restart =>
      forall call | call in s.calls ensures OfServe(events, call, s.calls[call].(alive := false, pending := None)) {
        assert OfServe(events, call, s.calls[call]);
      }
  }

  lemma {:induction false} AlwaysHanded(events: seq<Event>)
    ensures AllHanded(events, Run(START, events))
  {
    hide Step, AllHanded;
    if events == [] {
      NothingHanded();
    } else {
      AlwaysHanded(Front(events));
      MoreEvents(Front(events), Last(events), Run(START, Front(events)));
      assert Front(events) + [Last(events)] == events;
      StepHanded(events, Run(START, Front(events)), Last(events));
    }
  }

  lemma NothingHanded()
    ensures AllHanded([], START)
  {
  }

  /** In every interleaving, a body-read row was written by a call that was given a body with that number for
      that process. */
  lemma OnlyHandedOut(events: seq<Event>, k: nat)
    requires k < |Run(START, events).ledger| && Run(START, events).ledger[k].BodyRead?
    ensures var row := Run(START, events).ledger[k];
            exists rows, caller :: Serve(row.writer, rows, caller) in events && HandedOut(rows, caller, row.key)
  {
    AlwaysHanded(events);
    var row := Run(START, events).ledger[k];
    assert Handed(events, row.writer, row.key);
  }

  /** A restart rebuilds the set from the ledger and ends every call there was: none of them does anything
      afterwards. */
  lemma RestartEndsCalls(s: System, call: nat, landed: bool)
    requires call in s.calls
    ensures var after := Step(s, Restart);
            && after.ledger == s.ledger
            && (forall key :: key in after.bodyReads <==> exists w :: BodyRead(key, w) in s.ledger)
            && Step(after, Resume(call)) == after && Step(after, Settle(call, landed)) == after
  {
    forall key ensures key in ReadKeys(s.ledger) <==> exists w :: BodyRead(key, w) in s.ledger {
      if key in ReadKeys(s.ledger) {
        var row :| row in s.ledger && row.BodyRead? && row.key == key;
        assert BodyRead(key, row.writer) in s.ledger;
      }
      if w :| BodyRead(key, w) in s.ledger { assert BodyRead(key, w).key == key; }
    }
  }
}
