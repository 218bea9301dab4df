/**
  With preferences fixed and no unlocked unblock, every interleaving leaves the
  tables and the outcomes that the operations give when they run alone, one at
  a time, in the order in which they acquired their pair locks.
 */
module FriendshipSerial {
  import opened SocialTables
  import opened FriendshipProtocol
  import opened FriendshipInvariants

  /** The committed tables and the outcome of each operation of a serial run. */
  datatype Serial = Serial(tables: Tables, outcomes: map<TxId, Outcome>)

  ghost function Alone(s: Serial, x: TxId, e: Entry): Serial {
    var effect := Effect(e.op, e.newId, s.tables);
    Serial(Overlay(s.tables, effect.0), s.outcomes[x := effect.1])
  }

  /** The operations of `order` that ended, each run alone after the one before it. */
  ghost function Replay(t: Tables, order: seq<TxId>, done: map<TxId, Entry>): Serial {
    if order == [] then Serial(t, map[])
    else
      var s := Replay(t, order[..|order| - 1], done);
      var x := order[|order| - 1];
      if x in done then Alone(s, x, done[x]) else s
  }

  /** Neither an unblock nor a preference update, which take no lock. */
  ghost predicate OnlyLocked(schedule: seq<Label>) {
    forall l <- schedule :: !l.Unblock? && !l.SetPreferences?
  }

  /** What the program counter says about the serial meaning of the operation. */
  ghost predicate Faithful(tx: Tx, r: Tables) {
    match tx.pc
    case CheckUser => true
    case CheckBlocked => tx.op.Create? && tx.op.other in r.users
    case CheckPolicy => tx.op.Create? && tx.op.other in r.users
    case CheckFriends => Admitted(tx, r)
    case FindOwn => Admitted(tx, r)
    case FindReverse => Admitted(tx, r)
    case InsertRequest => Admitted(tx, r)
    case AwaitLock => tx.op.Block? ==> tx.op.other in r.users
    case InsertBlock => tx.op.Block? && tx.op.other in r.users
    case CancelPending =>
      tx.op.Block? && tx.op.other in r.users && tx.delta.blocks == {(tx.op.viewer, tx.op.other)} - r.blocks
    case Closing(o) => Effect(tx.op, tx.newId, r) == (Published(tx), o)
    case _ => true
  }

  ghost predicate Admitted(tx: Tx, r: Tables) {
    tx.op.Create? && tx.op.other in r.users && !r.RefusesRequests(tx.op.other)
  }

  lemma StatementKeepsFaithful(tx: Tx, t: Tables, nextId: RequestId)
    requires t.Good() && nextId !in t.requests && nextId > 0
    requires tx.InSection() && Stable(tx, t.Restrict(tx.pair)) && Faithful(tx, t.Restrict(tx.pair))
    ensures Faithful(Statement(tx, Overlay(t, tx.delta), nextId), t.Restrict(tx.pair))
  {
    if tx.op.Create? {
      CreateKeepsFaithful(tx, t, nextId);
    } else if tx.op.OnRequest() {
      AnswerKeepsFaithful(tx, t, nextId);
    } else {
      PairStatementKeepsFaithful(tx, t, nextId);
    }
  }

  lemma CreateKeepsFaithful(tx: Tx, t: Tables, nextId: RequestId)
    requires t.Good() && nextId !in t.requests
    requires tx.InSection() && Stable(tx, t.Restrict(tx.pair)) && Faithful(tx, t.Restrict(tx.pair)) && tx.op.Create?
    ensures Faithful(Statement(tx, Overlay(t, tx.delta), nextId), t.Restrict(tx.pair))
  {
    if !tx.pc.Closing? {
      assert Overlay(t, tx.delta) == t;
      PendingFromIsLocal(t, tx.op.viewer, tx.op.other);
      PendingFromIsLocal(t, tx.op.other, tx.op.viewer);
    }
  }

  lemma AnswerKeepsFaithful(tx: Tx, t: Tables, nextId: RequestId)
    requires t.Good()
    requires tx.InSection() && Stable(tx, t.Restrict(tx.pair)) && Faithful(tx, t.Restrict(tx.pair)) && tx.op.OnRequest()
    ensures Faithful(Statement(tx, Overlay(t, tx.delta), nextId), t.Restrict(tx.pair))
  {
    AnswerKeepsStable(tx, t, nextId);
    var tx' := Statement(tx, Overlay(t, tx.delta), nextId);
    if tx'.pc == Closing(Done) {
      AnswerIsEffect(tx', t.Restrict(tx.pair));
    }
  }

  lemma AnswerIsEffect(tx: Tx, r: Tables)
    requires r.Good() && tx.op.OnRequest() && tx.pc == Closing(Done) && Stable(tx, r)
    ensures Effect(tx.op, tx.newId, r) == (tx.delta, Done)
  {
    if tx.op.Accept? {
      forall j ensures j !in CancelAll(r, tx.pair, {tx.op.id}) {
        assert j in r.PendingIn(tx.pair) ==> j == tx.op.id;
      }
      assert CancelAll(r, tx.pair, {tx.op.id}) + Answered(tx, r) == Answered(tx, r);
      assert {tx.pair} - r.friendships == {tx.pair};
    }
  }

  lemma PairStatementKeepsFaithful(tx: Tx, t: Tables, nextId: RequestId)
    requires t.Good()
    requires tx.InSection() && Stable(tx, t.Restrict(tx.pair)) && Faithful(tx, t.Restrict(tx.pair))
    requires tx.op.Remove? || tx.op.Block?
    ensures Faithful(Statement(tx, Overlay(t, tx.delta), nextId), t.Restrict(tx.pair))
  {
    PairStatementKeepsStable(tx, t, nextId);
    var r := t.Restrict(tx.pair);
    var tx' := Statement(tx, Overlay(t, tx.delta), nextId);
    if tx.op.Remove? {
      assert r.friendships * {tx.pair} == r.friendships;
    } else if tx.pc.InsertBlock? {
      var b := (tx.op.viewer, tx.op.other);
      assert b in t.blocks <==> b in r.blocks;
    }
  }

  /** Every row carries the pair its id was drawn for. */
  ghost predicate AtHome(t: Tables, issued: map<RequestId, Issue>) {
    forall i <- t.requests :: i in issued && issued[i].pair == t.requests[i].Users()
  }

  ghost predicate EntryAtHome(e: Entry, issued: map<RequestId, Issue>) {
    && (if e.op.OnRequest() then e.op.id in issued && issued[e.op.id].pair == e.pair
        else e.pair == PairOf(e.op.viewer, e.op.other) && e.op.viewer != e.op.other)
    && (e.outcome.Created? ==> e.newId in issued && issued[e.newId].pair == e.pair)
  }

  lemma HomeConcerns(t: Tables, e: Entry, issued: map<RequestId, Issue>)
    requires AtHome(t, issued) && EntryAtHome(e, issued)
    ensures Concerns(e.op, e.pair, t)
  {
  }

  /** The rows an operation writes are rows of its pair, or the row it creates. */
  lemma EffectRows(t: Tables, op: Op, nextId: RequestId, p: Pair)
    requires Concerns(op, p, t)
    ensures forall i <- Effect(op, nextId, t).0.requests ::
      || (i in t.requests && t.requests[i].Users() == p)
      || (i == nextId && Effect(op, nextId, t).1 == Created(nextId))
  {
  }

  /** An operation run alone keeps rows at home and does not disturb the other pairs. */
  lemma AloneIsLocal(s: Serial, x: TxId, e: Entry, issued: map<RequestId, Issue>, q: Pair)
    requires AtHome(s.tables, issued) && EntryAtHome(e, issued)
    requires Effect(e.op, e.newId, s.tables).1 == e.outcome
    ensures AtHome(Alone(s, x, e).tables, issued)
    ensures q != e.pair ==> Alone(s, x, e).tables.Restrict(q) == s.tables.Restrict(q)
  {
    var d := Effect(e.op, e.newId, s.tables).0;
    HomeConcerns(s.tables, e, issued);
    EffectIsLocal(e.op, e.newId, s.tables, e.pair);
    EffectRows(s.tables, e.op, e.newId, e.pair);
    if q != e.pair {
      OverlayKeepsOtherPairs(s.tables, d, e.pair, q);
    }
  }

  /** Operations on different pairs may be exchanged. */
  lemma AloneCommutes(s: Serial, x: TxId, e: Entry, y: TxId, f: Entry, issued: map<RequestId, Issue>)
    requires AtHome(s.tables, issued) && EntryAtHome(e, issued) && EntryAtHome(f, issued)
    requires x != y && e.pair != f.pair
    requires Effect(e.op, e.newId, s.tables).1 == e.outcome
    requires Effect(f.op, f.newId, s.tables).1 == f.outcome
    ensures Alone(Alone(s, x, e), y, f) == Alone(Alone(s, y, f), x, e)
    ensures Effect(e.op, e.newId, Alone(s, y, f).tables) == Effect(e.op, e.newId, s.tables)
  {
    EffectElsewhere(s, x, e, y, f, issued);
    EffectElsewhere(s, y, f, x, e, issued);
    EffectsCommute(s.tables, e, f, issued);
    assert s.outcomes[x := e.outcome][y := f.outcome] == s.outcomes[y := f.outcome][x := e.outcome];
  }

  lemma EffectAtHome(t: Tables, e: Entry, issued: map<RequestId, Issue>)
    requires AtHome(t, issued) && EntryAtHome(e, issued)
    requires Effect(e.op, e.newId, t).1 == e.outcome
    ensures var d := Effect(e.op, e.newId, t).0;
      Within(d, e.pair) && forall i <- d.requests :: i in issued && issued[i].pair == e.pair
  {
    HomeConcerns(t, e, issued);
    EffectIsLocal(e.op, e.newId, t, e.pair);
    EffectRows(t, e.op, e.newId, e.pair);
  }

  lemma EffectsCommute(t: Tables, e: Entry, f: Entry, issued: map<RequestId, Issue>)
    requires AtHome(t, issued) && EntryAtHome(e, issued) && EntryAtHome(f, issued)
    requires e.pair != f.pair
    requires Effect(e.op, e.newId, t).1 == e.outcome && Effect(f.op, f.newId, t).1 == f.outcome
    ensures var d, g := Effect(e.op, e.newId, t).0, Effect(f.op, f.newId, t).0;
      Overlay(Overlay(t, d), g) == Overlay(Overlay(t, g), d)
  {
    EffectAtHome(t, e, issued);
    EffectAtHome(t, f, issued);
    OverlaysCommute(t, Effect(e.op, e.newId, t).0, e.pair, Effect(f.op, f.newId, t).0, f.pair);
  }

  lemma EffectElsewhere(s: Serial, x: TxId, e: Entry, y: TxId, f: Entry, issued: map<RequestId, Issue>)
    requires AtHome(s.tables, issued) && EntryAtHome(e, issued) && EntryAtHome(f, issued)
    requires e.pair != f.pair
    requires Effect(f.op, f.newId, s.tables).1 == f.outcome
    ensures Effect(e.op, e.newId, Alone(s, y, f).tables) == Effect(e.op, e.newId, s.tables)
  {
    AloneIsLocal(s, y, f, issued, e.pair);
    HomeConcerns(s.tables, e, issued);
    HomeConcerns(Alone(s, y, f).tables, e, issued);
    EffectIsLocal(e.op, e.newId, s.tables, e.pair);
    EffectIsLocal(e.op, e.newId, Alone(s, y, f).tables, e.pair);
  }

  lemma OverlaysCommute(t: Tables, d: Delta, p: Pair, g: Delta, q: Pair)
    requires Within(d, p) && Within(g, q) && p != q && d.requests.Keys !! g.requests.Keys
    ensures Overlay(Overlay(t, d), g) == Overlay(Overlay(t, g), d)
  {
    assert t.requests + d.requests + g.requests == t.requests + g.requests + d.requests;
  }

  ghost predicate Distinct(order: seq<TxId>) {
    forall i, j | 0 <= i < j < |order| :: order[i] != order[j]
  }

  /** The serial run gives each operation the outcome it had. */
  ghost predicate Sound(t: Tables, order: seq<TxId>, done: map<TxId, Entry>, issued: map<RequestId, Issue>) {
    && AtHome(t, issued)
    && (forall x <- order | x in done ::
          && EntryAtHome(done[x], issued)
          && x in Replay(t, order, done).outcomes && Replay(t, order, done).outcomes[x] == done[x].outcome)
  }

  lemma SoundPrefix(t: Tables, order: seq<TxId>, done: map<TxId, Entry>, issued: map<RequestId, Issue>)
    requires order != [] && Distinct(order) && Sound(t, order, done, issued)
    ensures var prefix, y := order[..|order| - 1], order[|order| - 1];
      && Distinct(prefix) && Sound(t, prefix, done, issued)
      && (y in done ==>
            EntryAtHome(done[y], issued)
            && Effect(done[y].op, done[y].newId, Replay(t, prefix, done).tables).1 == done[y].outcome)
  {
    var prefix, y := order[..|order| - 1], order[|order| - 1];
    forall x | x in prefix && x in done
      ensures EntryAtHome(done[x], issued)
      ensures x in Replay(t, prefix, done).outcomes && Replay(t, prefix, done).outcomes[x] == done[x].outcome
    {
      assert x in order && x != y;
    }
    assert y in order;
  }

  lemma {:induction false} ReplayAtHome(
    t: Tables, order: seq<TxId>, done: map<TxId, Entry>, issued: map<RequestId, Issue>)
    requires Distinct(order) && Sound(t, order, done, issued)
    ensures AtHome(Replay(t, order, done).tables, issued)
  {
    if order != [] {
      var prefix, y := order[..|order| - 1], order[|order| - 1];
      SoundPrefix(t, order, done, issued);
      ReplayAtHome(t, prefix, done, issued);
      if y in done {
        AloneIsLocal(Replay(t, prefix, done), y, done[y], issued, done[y].pair);
      }
    }
  }

  lemma {:induction false} ReplayWithout(t: Tables, order: seq<TxId>, done: map<TxId, Entry>, x: TxId, e: Entry)
    requires x !in order
    ensures Replay(t, order, done[x := e]) == Replay(t, order, done)
  {
    if order != [] {
      ReplayWithout(t, order[..|order| - 1], done, x, e);
      assert order[|order| - 1] in order;
    }
  }

  /**
    When the operation that locked its pair k-th ends, and those that locked
    later and have ended were on other pairs, running it in its place is running
    it last.
   */
  lemma {:induction false} ReplayInsert(
    t: Tables, order: seq<TxId>, done: map<TxId, Entry>, k: nat, e: Entry, issued: map<RequestId, Issue>)
    requires k < |order| && order[k] !in done
    requires Distinct(order) && Sound(t, order, done, issued) && EntryAtHome(e, issued)
    requires forall i | k < i < |order| && order[i] in done :: done[order[i]].pair != e.pair
    requires Effect(e.op, e.newId, Replay(t, order, done).tables).1 == e.outcome
    ensures Replay(t, order, done[order[k] := e]) == Alone(Replay(t, order, done), order[k], e)
  {
    var x := order[k];
    var prefix, y := order[..|order| - 1], order[|order| - 1];
    SoundPrefix(t, order, done, issued);
    ReplayAtHome(t, prefix, done, issued);
    var s := Replay(t, prefix, done);
    if k == |order| - 1 {
      assert x !in prefix;
      ReplayWithout(t, prefix, done, x, e);
    } else {
      assert prefix[k] == x && y != x;
      if y in done {
        EffectElsewhere(s, x, e, y, done[y], issued);
        ReplayInsert(t, prefix, done, k, e, issued);
        AloneCommutes(s, x, e, y, done[y], issued);
      } else {
        ReplayInsert(t, prefix, done, k, e, issued);
      }
    }
  }

  ghost predicate FaithfulTx(t: Tables, tx: Tx) {
    if tx.InSection() then Faithful(tx, t.Restrict(tx.pair))
    else tx.pc.AwaitLock? ==> Faithful(tx, t)
  }

  /** The lock order lists each transaction once; while one is in its section, later ones are on other pairs. */
  ghost predicate OrderInv(order: seq<TxId>, txs: map<TxId, Tx>) {
    && Distinct(order)
    && (forall x <- order :: x in txs && (txs[x].InSection() || txs[x].pc.Ended?))
    && (forall x <- txs | txs[x].InSection() :: x in order)
    && (forall i, j | 0 <= i < j < |order| && txs[order[i]].InSection() :: txs[order[j]].pair != txs[order[i]].pair)
  }

  /** The record of the operations that ended under their lock. */
  ghost predicate DoneInv(order: seq<TxId>, txs: map<TxId, Tx>, done: map<TxId, Entry>) {
    && (forall x <- done :: x in order && x in txs && txs[x].pc == Ended(done[x].outcome)
                         && done[x] == Entry(txs[x].op, txs[x].pair, txs[x].newId, done[x].outcome))
    && (forall x <- order | x in txs && txs[x].pc.Ended? && txs[x].pc.outcome != Aborted :: x in done)
  }

  ghost predicate SerialInv(s: State, t: Tables) {
    && Inv(s)
    && (forall x <- s.txs :: FaithfulTx(s.tables, s.txs[x]))
    && OrderInv(s.history, s.txs)
    && DoneInv(s.history, s.txs, s.done)
    && Sound(t, s.history, s.done, s.issued)
    && s.tables == Replay(t, s.history, s.done).tables
  }

  /** A transaction moves on its own: it takes no lock and publishes nothing. */
  ghost predicate Quiet(s: State, x: TxId, tx': Tx) {
    if x !in s.txs then !tx'.InSection() && !tx'.pc.Ended?
    else
      && !s.txs[x].pc.Ended?
      && (if s.txs[x].InSection() then tx'.pair == s.txs[x].pair && (tx'.InSection() || tx'.pc == Ended(Aborted))
          else !tx'.InSection())
  }

  lemma QuietKeepsOrder(s: State, x: TxId, tx': Tx)
    requires OrderInv(s.history, s.txs) && DoneInv(s.history, s.txs, s.done) && Quiet(s, x, tx')
    ensures OrderInv(s.history, s.txs[x := tx']) && DoneInv(s.history, s.txs[x := tx'], s.done)
  {
  }

  lemma SoundGrows(
    t: Tables, order: seq<TxId>, done: map<TxId, Entry>, issued: map<RequestId, Issue>, issued': map<RequestId, Issue>)
    requires Sound(t, order, done, issued)
    requires forall i <- issued :: i in issued' && issued'[i] == issued[i]
    ensures Sound(t, order, done, issued')
  {
  }

  lemma QuietStep(s: State, t: Tables, x: TxId, tx': Tx, s': State)
    requires SerialInv(s, t) && Inv(s') && Quiet(s, x, tx')
    requires s'.tables == s.tables && s'.history == s.history && s'.done == s.done && s'.txs == s.txs[x := tx']
    requires forall i <- s.issued :: i in s'.issued && s'.issued[i] == s.issued[i]
    requires FaithfulTx(s.tables, tx')
    ensures SerialInv(s', t)
  {
    QuietKeepsOrder(s, x, tx');
    SoundGrows(t, s.history, s.done, s.issued, s'.issued);
  }

  lemma StatementIsQuiet(s: State, x: TxId)
    requires x in s.txs && s.txs[x].InSection() && !s.txs[x].pc.Closing?
    ensures Quiet(s, x, Statement(s.txs[x], Overlay(s.tables, s.txs[x].delta), s.lastId + 1))
  {
    StatementStaysInSection(s.txs[x], Overlay(s.tables, s.txs[x].delta), s.lastId + 1);
  }

  lemma StatementIsFaithful(s: State, x: TxId)
    requires Inv(s) && x in s.txs && FaithfulTx(s.tables, s.txs[x])
    requires s.txs[x].InSection() && !s.txs[x].pc.Closing?
    ensures FaithfulTx(s.tables, Statement(s.txs[x], Overlay(s.tables, s.txs[x].delta), s.lastId + 1))
  {
    var tx := s.txs[x];
    assert TxInv(s.tables, tx);
    assert forall i <- s.tables.requests :: i in s.issued && i <= s.lastId;
    StatementKeepsFaithful(tx, s.tables, s.lastId + 1);
    StatementStaysInSection(tx, Overlay(s.tables, tx.delta), s.lastId + 1);
  }

  lemma ExecuteShape(s: State, x: TxId, tx': Tx)
    requires IdInv(s.tables, s.lastId, s.issued) && x in s.txs
    requires tx' == Statement(s.txs[x], Overlay(s.tables, s.txs[x].delta), s.lastId + 1)
    ensures var s' := Execute(s, x);
      s' == s
      || (s'.tables == s.tables && s'.history == s.history && s'.done == s.done && s'.txs == s.txs[x := tx']
          && forall i <- s.issued :: i in s'.issued && s'.issued[i] == s.issued[i])
  {
    assert s.lastId + 1 !in s.issued;
  }

  lemma ExecuteIsSerial(s: State, t: Tables, x: TxId)
    requires SerialInv(s, t) && x in s.txs && s.txs[x].InSection() && !s.txs[x].pc.Closing?
    ensures SerialInv(Execute(s, x), t)
  {
    var tx' := Statement(s.txs[x], Overlay(s.tables, s.txs[x].delta), s.lastId + 1);
    var s' := Execute(s, x);
    ExecuteShape(s, x, tx');
    if s' != s {
      ExecuteKeepsInv(s, x);
      StatementIsQuiet(s, x);
      StatementIsFaithful(s, x);
      QuietStep(s, t, x, tx', s');
    }
  }

  lemma AcquireIsSerial(s: State, t: Tables, x: TxId)
    requires SerialInv(s, t) && x in s.txs && s.txs[x].pc.AwaitLock?
    ensures SerialInv(Acquire(s, x), t)
  {
    var tx := s.txs[x];
    var s' := Acquire(s, x);
    AcquireKeepsInv(s, x);
    if tx.pair !in s.locks {
      AcquireKeepsOrder(s, x);
      ReplayAppend(t, s.history, s.done, s.issued, x);
      FirstLockedIsFaithful(s.tables, tx);
      AcquireKeepsFaithful(s, x);
    }
  }

  lemma AcquireKeepsFaithful(s: State, x: TxId)
    requires x in s.txs && forall y <- s.txs :: FaithfulTx(s.tables, s.txs[y])
    requires FaithfulTx(s.tables, s.txs[x].(pc := FirstLocked(s.txs[x].op)))
    ensures forall y <- Acquire(s, x).txs :: FaithfulTx(s.tables, Acquire(s, x).txs[y])
  {
  }

  lemma FirstLockedIsFaithful(t: Tables, tx: Tx)
    requires tx.pc.AwaitLock? && FaithfulTx(t, tx)
    ensures FaithfulTx(t, tx.(pc := FirstLocked(tx.op)))
  {
  }

  lemma ReplayAppend(t: Tables, order: seq<TxId>, done: map<TxId, Entry>, issued: map<RequestId, Issue>, x: TxId)
    requires Sound(t, order, done, issued) && x !in done
    ensures Replay(t, order + [x], done) == Replay(t, order, done)
    ensures Sound(t, order + [x], done, issued)
  {
    assert (order + [x])[..|order|] == order;
  }

  lemma AcquireKeepsOrder(s: State, x: TxId)
    requires OrderInv(s.history, s.txs) && DoneInv(s.history, s.txs, s.done) && LockInv(s.locks, s.txs)
    requires x in s.txs && s.txs[x].pc.AwaitLock? && s.txs[x].pair !in s.locks
    ensures OrderInv(Acquire(s, x).history, Acquire(s, x).txs)
    ensures DoneInv(Acquire(s, x).history, Acquire(s, x).txs, s.done)
  {
    var tx' := s.txs[x].(pc := FirstLocked(s.txs[x].op));
    assert x !in s.history;
    assert forall y <- s.txs | s.txs[y].InSection() :: s.txs[y].pair != tx'.pair;
    OrderAppend(s.history, s.txs, x, tx');
    DoneAppend(s.history, s.txs, s.done, x, tx');
  }

  lemma OrderAppend(order: seq<TxId>, txs: map<TxId, Tx>, x: TxId, tx': Tx)
    requires OrderInv(order, txs) && x !in order && tx'.InSection()
    requires forall y <- txs | txs[y].InSection() :: txs[y].pair != tx'.pair
    ensures OrderInv(order + [x], txs[x := tx'])
  {
  }

  lemma DoneAppend(order: seq<TxId>, txs: map<TxId, Tx>, done: map<TxId, Entry>, x: TxId, tx': Tx)
    requires DoneInv(order, txs, done) && x !in order && tx'.InSection()
    ensures DoneInv(order + [x], txs[x := tx'], done)
  {
  }

  lemma CloseKeepsOrder(s: State, x: TxId)
    requires OrderInv(s.history, s.txs) && DoneInv(s.history, s.txs, s.done)
    requires x in s.txs && s.txs[x].pc.Closing?
    ensures OrderInv(Close(s, x).history, Close(s, x).txs)
    ensures DoneInv(Close(s, x).history, Close(s, x).txs, Close(s, x).done)
  {
  }

  lemma CloseKeepsFaithful(s: State, x: TxId)
    requires Inv(s) && x in s.txs && s.txs[x].pc.Closing?
    requires forall y <- s.txs :: FaithfulTx(s.tables, s.txs[y])
    ensures forall y <- Close(s, x).txs :: FaithfulTx(Close(s, x).tables, Close(s, x).txs[y])
  {
    ClosingFacts(s, x);
    PublishedRows(s.tables, s.txs[x]);
    var s' := Close(s, x);
    forall y | y in s'.txs ensures FaithfulTx(s'.tables, s'.txs[y]) {
      if y != x {
        assert FaithfulTx(s.tables, s.txs[y]);
        if s.txs[y].InSection() {
          OverlayKeepsOtherPairs(s.tables, Published(s.txs[x]), s.txs[x].pair, s.txs[y].pair);
        }
      }
    }
  }

  /** The record of a closing transaction, and its serial meaning at this moment. */
  lemma ClosingEntry(s: State, x: TxId)
    requires Inv(s) && x in s.txs && s.txs[x].pc.Closing? && FaithfulTx(s.tables, s.txs[x])
    ensures var tx := s.txs[x];
      var e := Entry(tx.op, tx.pair, tx.newId, tx.pc.outcome);
      EntryAtHome(e, s.issued) && Effect(e.op, e.newId, s.tables) == (Published(tx), e.outcome)
  {
    var tx := s.txs[x];
    var r := s.tables.Restrict(tx.pair);
    ClosingFacts(s, x);
    EffectIsLocal(tx.op, tx.newId, s.tables, tx.pair);
    if tx.op.OnRequest() {
      assert tx.op.id in r.requests;
    }
  }

  lemma CloseIsSerial(s: State, t: Tables, x: TxId)
    requires SerialInv(s, t) && x in s.txs && s.txs[x].pc.Closing?
    ensures SerialInv(Close(s, x), t)
  {
    var tx := s.txs[x];
    var e := Entry(tx.op, tx.pair, tx.newId, tx.pc.outcome);
    CloseKeepsInv(s, x);
    CloseKeepsOrder(s, x);
    CloseKeepsFaithful(s, x);
    assert FaithfulTx(s.tables, tx);
    ClosingEntry(s, x);
    var k :| 0 <= k < |s.history| && s.history[k] == x;
    ReplayInsert(t, s.history, s.done, k, e, s.issued);
    SoundInsert(t, s.history, s.done, x, e, s.issued);
  }

  lemma SoundInsert(
    t: Tables, order: seq<TxId>, done: map<TxId, Entry>, x: TxId, e: Entry, issued: map<RequestId, Issue>)
    requires Sound(t, order, done, issued) && EntryAtHome(e, issued)
    requires Replay(t, order, done[x := e]) == Alone(Replay(t, order, done), x, e)
    requires Effect(e.op, e.newId, Replay(t, order, done).tables).1 == e.outcome
    ensures Sound(t, order, done[x := e], issued)
  {
  }

  lemma PrepareIsSerial(s: State, t: Tables, x: TxId)
    requires SerialInv(s, t) && x in s.txs && s.txs[x].pc.Start?
    ensures SerialInv(s.(txs := s.txs[x := Prepare(s.txs[x], s.tables)]), t)
  {
    PrepareKeepsInv(s, x);
    QuietStep(s, t, x, Prepare(s.txs[x], s.tables), s.(txs := s.txs[x := Prepare(s.txs[x], s.tables)]));
  }

  lemma BeginIsSerial(s: State, t: Tables, x: TxId, op: Op)
    requires SerialInv(s, t)
    ensures SerialInv(Next(s, Begin(x, op)), t)
  {
    BeginKeepsInv(s, x, op);
    if x !in s.txs {
      QuietStep(s, t, x, Tx(op, Start, PairOf(0, 0), 0, {}, NO_CHANGE), Next(s, Begin(x, op)));
    }
  }

  lemma AbortIsSerial(s: State, t: Tables, x: TxId)
    requires SerialInv(s, t)
    ensures SerialInv(Next(s, Abort(x)), t)
  {
    AbortKeepsInv(s, x);
    if x in s.txs && !s.txs[x].pc.Ended? {
      QuietStep(s, t, x, s.txs[x].(pc := Ended(Aborted), rows := {}, delta := NO_CHANGE), Next(s, Abort(x)));
    }
  }

  lemma AdvanceIsSerial(s: State, t: Tables, x: TxId)
    requires SerialInv(s, t)
    ensures SerialInv(Next(s, Advance(x)), t)
  {
    if x in s.txs && !s.txs[x].pc.Ended? {
      if s.txs[x].pc.Start? {
        PrepareIsSerial(s, t, x);
      } else if s.txs[x].pc.AwaitLock? {
        AcquireIsSerial(s, t, x);
      } else if s.txs[x].pc.Closing? {
        CloseIsSerial(s, t, x);
      } else {
        ExecuteIsSerial(s, t, x);
      }
    }
  }

  lemma NextIsSerial(s: State, t: Tables, l: Label)
    requires SerialInv(s, t) && !l.Unblock? && !l.SetPreferences?
    ensures SerialInv(Next(s, l), t)
  {
    match l
    case Begin(x, op) => BeginIsSerial(s, t, x, op);
    case Abort(x) => AbortIsSerial(s, t, x);
    case Advance(x) => AdvanceIsSerial(s, t, x);
  }

  lemma {:induction false} EveryLockedScheduleIsSerial(
    users: set<UserId>, preferences: map<UserId, Preferences>, schedule: seq<Label>)
    requires OnlyLocked(schedule)
    ensures SerialInv(Run(users, preferences, schedule), Init(users, preferences).tables)
  {
    if schedule == [] {
      EveryScheduleKeepsInv(users, preferences, schedule);
    } else {
      var before := schedule[..|schedule| - 1];
      EveryLockedScheduleIsSerial(users, preferences, before);
      NextIsSerial(Run(users, preferences, before), Init(users, preferences).tables, schedule[|schedule| - 1]);
    }
  }

  /**
    Running the operations that were not aborted one at a time, in the order in
    which they acquired their pair locks, gives the committed tables and every
    outcome of the interleaving.
   */
  lemma LockOrderSerializes(users: set<UserId>, preferences: map<UserId, Preferences>, schedule: seq<Label>)
    requires OnlyLocked(schedule)
    ensures var s := Run(users, preferences, schedule);
      var serial := Replay(Init(users, preferences).tables, s.history, s.done);
      && s.tables == serial.tables
      && Distinct(s.history)
      && (forall x <- s.txs | x in s.history && s.txs[x].pc.Ended? && s.txs[x].pc.outcome != Aborted ::
            && x in s.done && s.done[x].op == s.txs[x].op
            && x in serial.outcomes && s.txs[x].pc == Ended(serial.outcomes[x]))
      && (forall x <- s.done :: x in s.history)
  {
    EveryLockedScheduleIsSerial(users, preferences, schedule);
  }
}
