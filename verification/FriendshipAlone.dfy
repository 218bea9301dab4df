/**
  Every operation can be run to its end, and run without interference it does
  what its endpoint does: the transactions and the handlers describe the same
  code.
 */
module FriendshipAlone {
  import opened SocialTables
  import opened SocialContracts
  import opened FriendshipProtocol
  import opened FriendshipInvariants
  import opened FriendshipSerial
  import T = FriendshipTheorems
  import A = FriendshipAnswers

  /** How many steps are left at most. */
  function Rank(pc: Pc): nat {
    match pc
    case Start => 11
    case AwaitLock => 10
    case CheckUser => 9
    case CheckBlocked => 8
    case CheckPolicy => 7
    case CheckFriends => 6
    case FindOwn => 5
    case FindReverse => 4
    case InsertRequest => 3
    case Requery => 2
    case SelectForUpdate => 5
    case InsertFriendship(_) => 4
    case MarkRequest(_) => 3
    case CancelOthers(_) => 2
    case DeleteFriendship => 2
    case InsertBlock => 3
    case CancelPending => 2
    case Closing(_) => 1
    case Ended(_) => 0
  }

  lemma StatementFalls(t: Tables, tx: Tx, nextId: RequestId)
    requires tx.InSection() && !tx.pc.Closing? && Stable(tx, t.Restrict(tx.pair))
    ensures Rank(Statement(tx, Overlay(t, tx.delta), nextId).pc) < Rank(tx.pc)
  {
  }

  /** Nobody but `x` holds a pair lock. */
  ghost predicate Undisturbed(s: State, x: TxId) {
    forall p <- s.locks :: s.locks[p] == x
  }

  lemma ExecuteFalls(s: State, x: TxId)
    requires Inv(s) && x in s.txs && s.txs[x].InSection() && !s.txs[x].pc.Closing?
    ensures x in Execute(s, x).txs && Rank(Execute(s, x).txs[x].pc) < Rank(s.txs[x].pc)
    ensures Execute(s, x).locks == s.locks
    ensures Execute(s, x).history == s.history && Execute(s, x).done == s.done
    ensures Execute(s, x).txs[x].op == s.txs[x].op && Execute(s, x).lastId >= s.lastId
    ensures Execute(s, x).txs[x].newId in {s.txs[x].newId, s.lastId + 1}
  {
    forall y ensures !WaitsForRow(s, x, y) {
      T.NoRowWait(s, x, y);
    }
    StatementFalls(s.tables, s.txs[x], s.lastId + 1);
    StatementStaysInSection(s.txs[x], Overlay(s.tables, s.txs[x].delta), s.lastId + 1);
    OpIsKept(s.txs[x], Overlay(s.tables, s.txs[x].delta), s.lastId + 1);
  }

  lemma OpIsKept(tx: Tx, v: Tables, nextId: RequestId)
    ensures Statement(tx, v, nextId).op == tx.op
  {
  }

  /** What one step of `x` leaves as it was, or records about `x`. */
  ghost predicate Recorded(s: State, t: State, x: TxId) {
    && x in s.txs && x in t.txs
    && t.txs[x].op == s.txs[x].op
    && (t.history == s.history || (x !in s.history && t.history == s.history + [x]))
    && (t.done == s.done || (x in t.done && t.done == s.done[x := t.done[x]]))
    && t.lastId >= s.lastId
    && (t.txs[x].newId == s.txs[x].newId || t.txs[x].newId > s.lastId)
  }

  ghost predicate Progress(s: State, t: State, x: TxId) {
    Recorded(s, t, x) && Rank(t.txs[x].pc) < Rank(s.txs[x].pc) && Undisturbed(t, x)
  }

  /** The state after the operation of `x` has left its start, and before it ends. */
  ghost predicate UnderWay(s: State, x: TxId) {
    x in s.txs && !s.txs[x].pc.Start? && !s.txs[x].pc.Ended? && Undisturbed(s, x)
  }

  /** The operation has ended, and its end is on record. */
  ghost predicate OnRecord(t: State, x: TxId) {
    x in t.txs && t.txs[x].pc.Ended? && x in t.done
  }

  lemma LockProgresses(s: State, x: TxId)
    requires LockInv(s.locks, s.txs) && x in s.txs && s.txs[x].pc.AwaitLock? && Undisturbed(s, x) && x !in s.history
    ensures Progress(s, Next(s, Advance(x)), x) && UnderWay(Next(s, Advance(x)), x)
  {
    assert s.txs[x].pair !in s.locks;
    var t := Next(s, Advance(x));
    assert t == Acquire(s, x);
    assert t.done == s.done && t.history == s.history + [x];
  }

  lemma ExecuteProgresses(s: State, x: TxId)
    requires Inv(s) && x in s.txs && s.txs[x].InSection() && !s.txs[x].pc.Closing? && Undisturbed(s, x)
    ensures Progress(s, Next(s, Advance(x)), x) && UnderWay(Next(s, Advance(x)), x)
  {
    ExecuteFalls(s, x);
    StatementStaysInSection(s.txs[x], Overlay(s.tables, s.txs[x].delta), s.lastId + 1);
    assert Next(s, Advance(x)) == Execute(s, x);
  }

  lemma CloseProgresses(s: State, x: TxId)
    requires x in s.txs && s.txs[x].pc.Closing? && Undisturbed(s, x)
    ensures Progress(s, Next(s, Advance(x)), x) && OnRecord(Next(s, Advance(x)), x)
  {
    var t := Next(s, Advance(x));
    assert t == Close(s, x);
    assert t.history == s.history && t.done == s.done[x := t.done[x]];
  }

  /** Not yet under a lock, and never was. */
  ghost predicate Fresh(s: State, x: TxId) {
    x in s.txs && (s.txs[x].pc.Start? || s.txs[x].pc.AwaitLock?) ==> x !in s.history
  }

  lemma StaysUnderWay(s: State, x: TxId)
    requires UnderWay(s, x) && Inv(s) && Fresh(s, x)
    ensures Progress(s, Next(s, Advance(x)), x)
    ensures UnderWay(Next(s, Advance(x)), x) || OnRecord(Next(s, Advance(x)), x)
  {
    if s.txs[x].pc.AwaitLock? {
      LockProgresses(s, x);
    } else if s.txs[x].pc.Closing? {
      CloseProgresses(s, x);
    } else {
      ExecuteProgresses(s, x);
    }
  }

  lemma RecordedTwice(s: State, t: State, u: State, x: TxId)
    requires Recorded(s, t, x) && Recorded(t, u, x)
    ensures Recorded(s, u, x)
  {
  }

  function Advances(x: TxId, n: nat): seq<Label> {
    seq(n, _ => Advance(x))
  }

  /** One more step of `x`. */
  lemma AdvanceOnce(users: set<UserId>, preferences: map<UserId, Preferences>, schedule: seq<Label>, l: Label)
    ensures Run(users, preferences, schedule + [l]) == Next(Run(users, preferences, schedule), l)
    ensures OnlyLocked(schedule) && !l.Unblock? && !l.SetPreferences? ==> OnlyLocked(schedule + [l])
  {
    assert (schedule + [l])[..|schedule|] == schedule;
  }

  lemma SerialIsFresh(s: State, t: Tables, x: TxId)
    requires SerialInv(s, t)
    ensures Fresh(s, x)
  {
  }

  lemma StepAt(users: set<UserId>, preferences: map<UserId, Preferences>, schedule: seq<Label>, x: TxId)
    returns (s: State, t: State)
    requires OnlyLocked(schedule) && UnderWay(Run(users, preferences, schedule), x)
    ensures s == Run(users, preferences, schedule) && t == Run(users, preferences, schedule + [Advance(x)])
    ensures OnlyLocked(schedule + [Advance(x)])
    ensures Recorded(s, t, x) && Rank(t.txs[x].pc) < Rank(s.txs[x].pc)
    ensures UnderWay(t, x) || OnRecord(t, x)
  {
    EveryLockedScheduleIsSerial(users, preferences, schedule);
    s := Run(users, preferences, schedule);
    SerialIsFresh(s, Init(users, preferences).tables, x);
    AdvanceOnce(users, preferences, schedule, Advance(x));
    t := Next(s, Advance(x));
    StaysUnderWay(s, x);
  }

  /** `more` continues the schedule with steps of `x` until it has ended. */
  ghost predicate Finishes(
    users: set<UserId>, preferences: map<UserId, Preferences>, schedule: seq<Label>, x: TxId, n: nat, u: State)
  {
    && u == Run(users, preferences, schedule + Advances(x, n))
    && OnlyLocked(schedule + Advances(x, n))
    && OnRecord(u, x)
  }

  /** Stepping on, the operation ends, and its end is on record. */
  lemma {:induction false} FinishesAlone(
    users: set<UserId>, preferences: map<UserId, Preferences>, schedule: seq<Label>, x: TxId)
    returns (n: nat, s: State, u: State)
    requires OnlyLocked(schedule) && UnderWay(Run(users, preferences, schedule), x)
    ensures s == Run(users, preferences, schedule) && Recorded(s, u, x)
    ensures Finishes(users, preferences, schedule, x, n, u)
    decreases Rank(Run(users, preferences, schedule).txs[x].pc)
  {
    var t;
    s, t := StepAt(users, preferences, schedule, x);
    OneAdvanceFirst(schedule, x, 0);
    if OnRecord(t, x) {
      assert schedule + [Advance(x)] + [] == schedule + [Advance(x)];
      n, u := 1, t;
    } else {
      var m, t';
      m, t', u := FinishesAlone(users, preferences, schedule + [Advance(x)], x);
      OneAdvanceFirst(schedule, x, m);
      n := m + 1;
      RecordedTwice(s, t, u, x);
    }
  }

  lemma OneAdvanceFirst(begun: seq<Label>, x: TxId, m: nat)
    ensures begun + Advances(x, m + 1) == begun + [Advance(x)] + Advances(x, m)
  {
  }

  /** What the record of a lone operation that held its lock says. */
  lemma LoneEntry(users: set<UserId>, preferences: map<UserId, Preferences>, before: State, t: State, x: TxId)
    requires SerialInv(before, Init(users, preferences).tables) && SerialInv(t, Init(users, preferences).tables)
    requires x in t.txs && t.txs[x].pc.Ended? && x in t.done && x !in before.txs
    requires t.history == before.history + [x] && t.done == before.done[x := t.done[x]]
    ensures (t.tables, t.txs[x].pc.outcome)
         == (Overlay(before.tables, Effect(t.txs[x].op, t.txs[x].newId, before.tables).0),
             Effect(t.txs[x].op, t.txs[x].newId, before.tables).1)
  {
    var initial := Init(users, preferences).tables;
    assert x !in before.history;
    ReplayWithout(initial, before.history, before.done, x, t.done[x]);
    assert t.history[..|before.history|] == before.history;
    assert Replay(initial, t.history, t.done) == Alone(Replay(initial, before.history, t.done), x, t.done[x]);
  }

  /** `x` has ended with the answer and the tables of its endpoint on the tables of `s`; a row it created is new. */
  ghost predicate EndsAs(s: State, t: State, x: TxId, op: Op, id: RequestId) {
    && x in t.txs && t.txs[x].pc.Ended?
    && (t.tables, t.txs[x].pc.outcome) == Endpoint(op, id, s.tables)
    && (t.txs[x].pc.outcome.Created? ==> t.txs[x].pc.outcome.id == id && id > s.lastId)
  }

  /** Begun and prepared, nothing is recorded yet; the operation is answered, or waits for its lock. */
  ghost predicate Prepared(s: State, t: State, x: TxId, op: Op) {
    && t.tables == s.tables && t.history == s.history && t.done == s.done && t.lastId == s.lastId && t.locks == s.locks
    && x in t.txs && t.txs[x].op == op && t.txs[x].newId == 0
    && t.txs[x] == Prepare(Tx(op, Start, PairOf(0, 0), 0, {}, NO_CHANGE), s.tables)
  }

  lemma PreparesFirst(s: State, x: TxId, op: Op)
    requires x !in s.txs
    ensures Prepared(s, Next(Next(s, Begin(x, op)), Advance(x)), x, op)
  {
  }

  lemma PreparedAnswers(s: State, t: State, x: TxId, op: Op)
    requires Prepared(s, t, x, op) && t.txs[x].pc.Ended?
    ensures (t.tables, t.txs[x].pc.outcome) == Endpoint(op, 0, s.tables) && !t.txs[x].pc.outcome.Created?
  {
    A.PreparedAnswerIsEndpoint(Tx(op, Start, PairOf(0, 0), 0, {}, NO_CHANGE), s.tables, 0);
    EarlyIsNotCreated(Tx(op, Start, PairOf(0, 0), 0, {}, NO_CHANGE), s.tables);
  }

  /** From the lock on: the operation ends with the answer and the tables of its endpoint. */
  lemma LockedEndIsEndpoint(
    users: set<UserId>, preferences: map<UserId, Preferences>, prepared: seq<Label>, before: State, x: TxId, op: Op)
    returns (n: nat, id: RequestId)
    requires OnlyLocked(prepared) && SerialInv(before, Init(users, preferences).tables)
    requires x !in before.txs && before.locks == map[]
    requires Prepared(before, Run(users, preferences, prepared), x, op)
    requires !Run(users, preferences, prepared).txs[x].pc.Ended?
    ensures EndsAs(before, Run(users, preferences, prepared + Advances(x, n)), x, op, id)
  {
    var s, t;
    n, s, t := FinishesAlone(users, preferences, prepared, x);
    EveryLockedScheduleIsSerial(users, preferences, prepared + Advances(x, n));
    LoneHistory(t, Init(users, preferences).tables, x);
    assert x !in before.history;
    LoneEntry(users, preferences, before, t, x);
    id := t.txs[x].newId;
    NewIdIsDrawn(t, Init(users, preferences).tables, x, before.tables);
  }

  /**
    From every state in which no pair lock is held, a new operation can be run to
    its end, and its answer and the tables it leaves are those of its endpoint.
   */
  lemma RunAloneIsEndpoint(
    users: set<UserId>, preferences: map<UserId, Preferences>, schedule: seq<Label>, x: TxId, op: Op)
    returns (n: nat, id: RequestId)
    requires OnlyLocked(schedule)
    requires Run(users, preferences, schedule).locks == map[] && x !in Run(users, preferences, schedule).txs
    ensures EndsAs(Run(users, preferences, schedule),
                   Run(users, preferences, schedule + [Begin(x, op)] + Advances(x, n)), x, op, id)
  {
    var s := Run(users, preferences, schedule);
    var begun := schedule + [Begin(x, op)];
    var prepared := begun + [Advance(x)];
    AdvanceOnce(users, preferences, schedule, Begin(x, op));
    AdvanceOnce(users, preferences, begun, Advance(x));
    PreparesFirst(s, x, op);
    if Run(users, preferences, prepared).txs[x].pc.Ended? {
      PreparedAnswers(s, Run(users, preferences, prepared), x, op);
      n, id := 1, 0;
      OneAdvanceFirst(begun, x, 0);
      assert prepared + [] == prepared;
    } else {
      EveryLockedScheduleIsSerial(users, preferences, schedule);
      var m;
      m, id := LockedEndIsEndpoint(users, preferences, prepared, s, x, op);
      OneAdvanceFirst(begun, x, m);
      n := m + 1;
    }
  }

  lemma EarlyIsNotCreated(tx: Tx, t: Tables)
    requires Prepare(tx, t).pc.Ended?
    ensures !Prepare(tx, t).pc.outcome.Created?
  {
  }

  lemma LoneHistory(t: State, initial: Tables, x: TxId)
    requires SerialInv(t, initial) && x in t.done
    ensures x in t.history
  {
  }

  /** The id of a created request was drawn, so it is positive. */
  lemma NewIdIsDrawn(t: State, initial: Tables, x: TxId, before: Tables)
    requires SerialInv(t, initial) && x in t.done && x in t.history && x in t.txs && t.txs[x].pc.Ended?
    requires t.txs[x].pc.outcome == Effect(t.txs[x].op, t.txs[x].newId, before).1
    ensures t.txs[x].pc.outcome.Created? ==> t.txs[x].pc.outcome.id == t.txs[x].newId > 0
  {
    assert EntryAtHome(t.done[x], t.issued);
  }
}
