/**
  What every schedule keeps: the promises of `Tables.Good`, the lock
  discipline, and for each transaction under its lock what its program counter
  has established about its pair.
 */
module FriendshipInvariants {
  import opened SocialTables
  import opened FriendshipProtocol

  /** The pair the transaction has locked is the pair its operation is about. */
  ghost predicate Targets(tx: Tx, r: Tables) {
    && tx.op.WellFormed()
    && (if tx.op.OnRequest() then tx.op.id in r.requests && r.requests[tx.op.id].Users() == tx.pair
        else tx.pair == PairOf(tx.op.viewer, tx.op.other))
  }

  ghost predicate NonePending(r: Tables) {
    forall i <- r.requests :: r.requests[i].status != Pending
  }

  /** The request of the operation is still pending and its viewer may answer it. */
  ghost predicate Answers(tx: Tx, r: Tables) {
    && tx.op.OnRequest() && tx.op.id in r.requests
    && r.requests[tx.op.id].status == Pending
    && tx.op.viewer == (if tx.op.Cancel? then r.requests[tx.op.id].sender else r.requests[tx.op.id].recipient)
  }

  ghost predicate AnswersTo(tx: Tx, s: UserId, r: Tables) {
    Answers(tx, r) && r.requests[tx.op.id].sender == s
  }

  function Answered(tx: Tx, r: Tables): map<RequestId, Request>
    requires tx.op.OnRequest() && tx.op.id in r.requests
  {
    map[tx.op.id := r.requests[tx.op.id].(status := StatusSetBy(tx.op))]
  }

  /** What a finished handler is about to publish, whatever happened since it read. */
  ghost predicate Publishes(tx: Tx, o: Outcome, r: Tables) {
    match o
    case Created(i) =>
      && tx.op.Create? && i == tx.newId && i > 0
      && tx.delta == NO_CHANGE.(requests := map[i := Request(tx.op.viewer, tx.op.other, tx.op.message, Pending)])
      && !r.BlockedEither(tx.op.viewer, tx.op.other) && r.friendships == {} && NonePending(r)
    case Done => (
      match tx.op
      case Create(_, _, _) => false
      case Accept(_, _) =>
        Answers(tx, r) && tx.delta == Delta(Answered(tx, r), {tx.pair}, {}, {})
      case Reject(_, _) =>
        Answers(tx, r) && tx.delta == NO_CHANGE.(requests := Answered(tx, r))
      case Cancel(_, _) =>
        Answers(tx, r) && tx.delta == NO_CHANGE.(requests := Answered(tx, r))
      case Remove(_, _) => tx.delta == NO_CHANGE.(friendDels := r.friendships)
      case Block(v, o) =>
        tx.delta == NO_CHANGE.(requests := CancelAll(r, tx.pair, {}), blocks := tx.delta.blocks)
        && tx.delta.blocks <= {(v, o)}
    )
    case _ => tx.delta == NO_CHANGE
  }

  /** What the program counter says of the committed rows `r` of the transaction's pair. */
  ghost predicate Stable(tx: Tx, r: Tables) {
    && Targets(tx, r)
    && tx.rows <= r.requests.Keys
    && match tx.pc
       case Start => false
       case AwaitLock => false
       case Ended(_) => false
       case CheckUser => tx.op.Create? && tx.delta == NO_CHANGE
       case CheckBlocked => tx.op.Create? && tx.delta == NO_CHANGE
       case CheckPolicy => Passed(tx, r, 1)
       case CheckFriends => Passed(tx, r, 1)
       case FindOwn => Passed(tx, r, 2)
       case FindReverse => Passed(tx, r, 3)
       case InsertRequest => Passed(tx, r, 4)
       case Requery => false
       case SelectForUpdate => tx.op.OnRequest() && tx.delta == NO_CHANGE
       case InsertFriendship(s) => tx.op.Accept? && AnswersTo(tx, s, r) && tx.delta == NO_CHANGE
       case MarkRequest(s) =>
         AnswersTo(tx, s, r) && tx.delta == NO_CHANGE.(friendAdds := if tx.op.Accept? then {tx.pair} else {})
       case CancelOthers(s) =>
         tx.op.Accept? && AnswersTo(tx, s, r) && tx.delta == Delta(Answered(tx, r), {tx.pair}, {}, {})
       case DeleteFriendship => tx.op.Remove? && tx.delta == NO_CHANGE
       case InsertBlock => tx.op.Block? && tx.delta == NO_CHANGE
       case CancelPending =>
         tx.op.Block? && tx.delta == NO_CHANGE.(blocks := tx.delta.blocks)
         && tx.delta.blocks <= {(tx.op.viewer, tx.op.other)}
       case Closing(o) => Publishes(tx, o, r)
  }

  /** The checks of `create_request` passed so far: blocks, friends, own pending, reverse pending. */
  ghost predicate Passed(tx: Tx, r: Tables, checks: nat) {
    && tx.op.Create? && tx.delta == NO_CHANGE
    && (checks >= 1 ==> !r.BlockedEither(tx.op.viewer, tx.op.other))
    && (checks >= 2 ==> r.friendships == {})
    && (checks >= 3 ==> r.PendingFrom(tx.op.viewer, tx.op.other) == {})
    && (checks >= 4 ==> r.PendingFrom(tx.op.other, tx.op.viewer) == {})
  }

  /** A statement reads the pair's rows as its program counter expects them, and establishes the next expectation. */
  lemma StatementKeepsStable(tx: Tx, t: Tables, nextId: RequestId)
    requires t.Good() && nextId !in t.requests && nextId > 0
    requires tx.InSection() && Stable(tx, t.Restrict(tx.pair))
    ensures Stable(Statement(tx, Overlay(t, tx.delta), nextId), t.Restrict(tx.pair))
  {
    if tx.op.Create? {
      CreateKeepsStable(tx, t, nextId);
    } else if tx.op.OnRequest() {
      AnswerKeepsStable(tx, t, nextId);
    } else {
      PairStatementKeepsStable(tx, t, nextId);
    }
  }

  lemma CreateKeepsStable(tx: Tx, t: Tables, nextId: RequestId)
    requires t.Good() && nextId !in t.requests && nextId > 0
    requires tx.InSection() && Stable(tx, t.Restrict(tx.pair)) && tx.op.Create?
    ensures Stable(Statement(tx, Overlay(t, tx.delta), nextId), t.Restrict(tx.pair))
  {
    if !tx.pc.Closing? {
      var r := t.Restrict(tx.pair);
      assert Overlay(t, tx.delta) == t;
      PendingFromIsLocal(t, tx.op.viewer, tx.op.other);
      PendingFromIsLocal(t, tx.op.other, tx.op.viewer);
      if tx.pc.InsertRequest? {
        NoPendingEitherWay(r, tx.op.viewer, tx.op.other);
      }
    }
  }

  lemma AnswerKeepsStable(tx: Tx, t: Tables, nextId: RequestId)
    requires t.Good()
    requires tx.InSection() && Stable(tx, t.Restrict(tx.pair)) && tx.op.OnRequest()
    ensures Stable(Statement(tx, Overlay(t, tx.delta), nextId), t.Restrict(tx.pair))
  {
    if tx.pc.SelectForUpdate? {
      SelectKeepsStable(tx, t, nextId);
    } else {
      AnswerWriteKeepsStable(tx, t, nextId);
    }
  }

  lemma SelectKeepsStable(tx: Tx, t: Tables, nextId: RequestId)
    requires tx.pc.SelectForUpdate? && Stable(tx, t.Restrict(tx.pair))
    ensures Stable(Statement(tx, Overlay(t, tx.delta), nextId), t.Restrict(tx.pair))
  {
    assert Overlay(t, tx.delta) == t;
  }

  lemma AnswerWriteKeepsStable(tx: Tx, t: Tables, nextId: RequestId)
    requires t.Good() && !tx.pc.SelectForUpdate?
    requires tx.InSection() && Stable(tx, t.Restrict(tx.pair)) && tx.op.OnRequest()
    ensures Stable(Statement(tx, Overlay(t, tx.delta), nextId), t.Restrict(tx.pair))
  {
    var v := Overlay(t, tx.delta);
    if tx.pc.CancelOthers? {
      assert t.requests[tx.op.id].Users() == tx.pair;
      forall j ensures j !in CancelAll(v, tx.pair, {tx.op.id}) {
        assert j in t.PendingIn(tx.pair) ==> j == tx.op.id;
      }
    }
  }

  lemma PairStatementKeepsStable(tx: Tx, t: Tables, nextId: RequestId)
    requires t.Good()
    requires tx.InSection() && Stable(tx, t.Restrict(tx.pair)) && (tx.op.Remove? || tx.op.Block?)
    ensures Stable(Statement(tx, Overlay(t, tx.delta), nextId), t.Restrict(tx.pair))
  {
    if tx.pc.CancelPending? {
      var r := t.Restrict(tx.pair);
      var v := Overlay(t, tx.delta);
      assert v.requests == t.requests;
      assert v.PendingIn(tx.pair) == r.PendingIn(tx.pair);
      assert CancelAll(v, tx.pair, {}) == CancelAll(r, tx.pair, {});
    }
  }

  /** Every lock is held by a transaction in its section, and every such transaction holds its lock. */
  ghost predicate LockInv(locks: map<Pair, TxId>, txs: map<TxId, Tx>) {
    && (forall p <- locks :: locks[p] in txs && txs[locks[p]].InSection() && txs[locks[p]].pair == p)
    && (forall t <- txs | txs[t].InSection() :: txs[t].pair in locks && locks[txs[t].pair] == t)
  }

  ghost predicate TxInv(t: Tables, tx: Tx) {
    if tx.InSection() then Stable(tx, t.Restrict(tx.pair))
    else
      && tx.delta == NO_CHANGE && tx.rows == {}
      && (!tx.pc.Ended? ==> tx.newId == 0)
      && (tx.pc.AwaitLock? ==> Targets(tx, t))
  }

  ghost predicate TxsInv(t: Tables, txs: map<TxId, Tx>) {
    forall x <- txs :: TxInv(t, txs[x])
  }

  /** Ids are drawn once; a request row carries the pair its id was drawn for. */
  ghost predicate IdInv(t: Tables, lastId: RequestId, issued: map<RequestId, Issue>) {
    && 0 <= lastId
    && (forall i <- issued :: 0 < i <= lastId)
    && (forall i <- t.requests :: i in issued && issued[i].pair == t.requests[i].Users())
  }

  /** An id a running transaction has drawn is its own, and not yet published. */
  ghost predicate DrawnInv(t: Tables, issued: map<RequestId, Issue>, txs: map<TxId, Tx>) {
    forall x <- txs | txs[x].InSection() && txs[x].newId != 0 ::
      && txs[x].newId in issued && issued[txs[x].newId] == Issue(x, txs[x].pair)
      && txs[x].newId !in t.requests
  }

  /** Every acceptance is either undone by a removal or still stands as a friendship. */
  ghost predicate CountInv(t: Tables, removals: multiset<Pair>) {
    forall p :: |t.AcceptedIn(p)| == removals[p] + (if p in t.friendships then 1 else 0)
  }

  ghost predicate Inv(s: State) {
    && s.tables.Good()
    && LockInv(s.locks, s.txs)
    && TxsInv(s.tables, s.txs)
    && IdInv(s.tables, s.lastId, s.issued)
    && DrawnInv(s.tables, s.issued, s.txs)
    && CountInv(s.tables, s.removals)
  }

  /** Fewer blocks and other preferences do not disturb what a transaction relies on. */
  ghost predicate OnlyUnblocks(t: Tables, t': Tables) {
    t'.requests == t.requests && t'.friendships == t.friendships && t'.blocks <= t.blocks
  }

  lemma StableUnderUnblock(tx: Tx, r: Tables, r': Tables)
    requires Stable(tx, r) && OnlyUnblocks(r, r')
    ensures Stable(tx, r')
  {
    if tx.op.Create? {
      assert r'.PendingFrom(tx.op.viewer, tx.op.other) == r.PendingFrom(tx.op.viewer, tx.op.other);
      assert r'.PendingFrom(tx.op.other, tx.op.viewer) == r.PendingFrom(tx.op.other, tx.op.viewer);
    }
    assert r.PendingIn(tx.pair) == r'.PendingIn(tx.pair);
    assert CancelAll(r, tx.pair, {}) == CancelAll(r', tx.pair, {});
  }

  lemma TxInvUnderUnblock(t: Tables, t': Tables, tx: Tx)
    requires TxInv(t, tx) && OnlyUnblocks(t, t')
    ensures TxInv(t', tx)
  {
    if tx.InSection() {
      var r, r' := t.Restrict(tx.pair), t'.Restrict(tx.pair);
      assert r.requests == r'.requests;
      StableUnderUnblock(tx, r, r');
    }
  }

  lemma CountUnderUnblock(t: Tables, t': Tables, removals: multiset<Pair>)
    requires CountInv(t, removals) && OnlyUnblocks(t, t')
    ensures CountInv(t', removals)
  {
    forall p ensures |t'.AcceptedIn(p)| == removals[p] + (if p in t'.friendships then 1 else 0) {
      assert t'.AcceptedIn(p) == t.AcceptedIn(p);
    }
  }

  lemma UnblocksKeepInv(s: State, t': Tables)
    requires Inv(s) && OnlyUnblocks(s.tables, t')
    ensures Inv(s.(tables := t'))
  {
    forall x | x in s.txs ensures TxInv(t', s.txs[x]) {
      TxInvUnderUnblock(s.tables, t', s.txs[x]);
    }
    CountUnderUnblock(s.tables, t', s.removals);
  }

  /** A transaction changes, the tables do not. */
  lemma ReplaceTx(s: State, x: TxId, tx': Tx)
    requires TxsInv(s.tables, s.txs) && TxInv(s.tables, tx')
    ensures TxsInv(s.tables, s.txs[x := tx'])
  {
  }

  lemma BeginKeepsInv(s: State, x: TxId, op: Op)
    requires Inv(s)
    ensures Inv(Next(s, Begin(x, op)))
  {
    if x !in s.txs {
      ReplaceTx(s, x, Tx(op, Start, PairOf(0, 0), 0, {}, NO_CHANGE));
    }
  }

  lemma PrepareKeepsInv(s: State, x: TxId)
    requires Inv(s) && x in s.txs && s.txs[x].pc.Start?
    ensures Inv(s.(txs := s.txs[x := Prepare(s.txs[x], s.tables)]))
  {
    var tx' := Prepare(s.txs[x], s.tables);
    PreparedIsIdle(s.txs[x], s.tables);
    WaitingStep(s, x, tx');
  }

  lemma PreparedIsIdle(tx: Tx, t: Tables)
    requires tx.pc.Start? && TxInv(t, tx)
    ensures !Prepare(tx, t).InSection() && TxInv(t, Prepare(tx, t))
  {
  }

  /** A transaction that holds no lock goes on without one. */
  lemma WaitingStep(s: State, x: TxId, tx': Tx)
    requires Inv(s) && x in s.txs && !s.txs[x].InSection()
    requires !tx'.InSection() && TxInv(s.tables, tx')
    ensures Inv(s.(txs := s.txs[x := tx']))
  {
    ReplaceTx(s, x, tx');
  }

  lemma FirstLockedIsStable(t: Tables, tx: Tx)
    requires TxInv(t, tx) && tx.pc.AwaitLock?
    ensures TxInv(t, tx.(pc := FirstLocked(tx.op))) && tx.(pc := FirstLocked(tx.op)).InSection()
  {
  }

  lemma AcquireKeepsInv(s: State, x: TxId)
    requires Inv(s) && x in s.txs && s.txs[x].pc.AwaitLock?
    ensures Inv(Acquire(s, x))
  {
    var tx' := s.txs[x].(pc := FirstLocked(s.txs[x].op));
    FirstLockedIsStable(s.tables, s.txs[x]);
    ReplaceTx(s, x, tx');
    if tx'.pair !in s.locks {
      LockTaken(s.locks, s.txs, x, tx');
    }
  }

  lemma LockTaken(locks: map<Pair, TxId>, txs: map<TxId, Tx>, x: TxId, tx': Tx)
    requires LockInv(locks, txs) && x in txs && !txs[x].InSection()
    requires tx'.InSection() && tx'.pair !in locks
    ensures LockInv(locks[tx'.pair := x], txs[x := tx'])
  {
  }

  lemma AbortKeepsInv(s: State, x: TxId)
    requires Inv(s)
    ensures Inv(Next(s, Abort(x)))
  {
    if x in s.txs {
      ReplaceTx(s, x, s.txs[x].(pc := Ended(Aborted), rows := {}, delta := NO_CHANGE));
    }
  }

  lemma StatementStaysInSection(tx: Tx, v: Tables, nextId: RequestId)
    requires tx.InSection() && !tx.pc.Closing?
    ensures var tx' := Statement(tx, v, nextId);
      tx'.InSection() && tx'.pair == tx.pair && (tx'.newId == tx.newId || (tx.pc.InsertRequest? && tx'.newId == nextId))
  {
  }

  lemma StepKeepsLocks(locks: map<Pair, TxId>, txs: map<TxId, Tx>, x: TxId, tx': Tx)
    requires LockInv(locks, txs) && x in txs && txs[x].InSection()
    requires tx'.InSection() && tx'.pair == txs[x].pair
    ensures LockInv(locks, txs[x := tx'])
  {
  }

  /** A transaction moves on inside its section, drawing an id or not. */
  lemma StepInSection(s: State, x: TxId, tx': Tx, lastId': RequestId, issued': map<RequestId, Issue>)
    requires Inv(s) && x in s.txs && s.txs[x].InSection()
    requires tx'.InSection() && tx'.pair == s.txs[x].pair && TxInv(s.tables, tx')
    requires
      || (lastId' == s.lastId && issued' == s.issued && tx'.newId == s.txs[x].newId)
      || (lastId' == s.lastId + 1 && issued' == s.issued[lastId' := Issue(x, tx'.pair)]
          && tx'.newId in {s.txs[x].newId, lastId'})
    ensures Inv(s.(txs := s.txs[x := tx'], lastId := lastId', issued := issued'))
  {
    ReplaceTx(s, x, tx');
    StepKeepsLocks(s.locks, s.txs, x, tx');
    StepKeepsDrawn(s, x, tx', lastId', issued');
  }

  lemma StepKeepsDrawn(s: State, x: TxId, tx': Tx, lastId': RequestId, issued': map<RequestId, Issue>)
    requires IdInv(s.tables, s.lastId, s.issued) && DrawnInv(s.tables, s.issued, s.txs)
    requires x in s.txs && s.txs[x].InSection() && tx'.InSection() && tx'.pair == s.txs[x].pair
    requires
      || (lastId' == s.lastId && issued' == s.issued && tx'.newId == s.txs[x].newId)
      || (lastId' == s.lastId + 1 && issued' == s.issued[lastId' := Issue(x, tx'.pair)]
          && tx'.newId in {s.txs[x].newId, lastId'})
    ensures IdInv(s.tables, lastId', issued') && DrawnInv(s.tables, issued', s.txs[x := tx'])
  {
    assert s.lastId + 1 !in s.issued;
  }

  lemma ExecuteKeepsInv(s: State, x: TxId)
    requires Inv(s) && x in s.txs
    requires s.txs[x].InSection() && !s.txs[x].pc.Closing?
    ensures Inv(Execute(s, x))
  {
    var tx := s.txs[x];
    var nextId := s.lastId + 1;
    assert forall i <- s.tables.requests :: i in s.issued && i <= s.lastId;
    assert TxInv(s.tables, tx);
    StatementKeepsStable(tx, s.tables, nextId);
    var tx' := Statement(tx, Overlay(s.tables, tx.delta), nextId);
    StatementStaysInSection(tx, Overlay(s.tables, tx.delta), nextId);
    if tx.pc.InsertRequest? {
      StepInSection(s, x, tx', nextId, s.issued[nextId := Issue(x, tx'.pair)]);
    } else {
      StepInSection(s, x, tx', s.lastId, s.issued);
    }
  }

  /** What is published concerns the transaction's pair only, and adds at most the row of its own id. */
  lemma PublishedRows(t: Tables, tx: Tx)
    requires tx.pc.Closing? && Stable(tx, t.Restrict(tx.pair))
    requires tx.newId !in t.requests
    ensures Within(Published(tx), tx.pair)
    ensures forall i <- Published(tx).requests ::
      if i in t.requests then t.requests[i].Users() == tx.pair else i == tx.newId && i > 0
  {
    var r := t.Restrict(tx.pair);
    forall i | i in Published(tx).requests
      ensures if i in t.requests then t.requests[i].Users() == tx.pair else i == tx.newId && i > 0
    {
      if tx.pc.outcome == Done {
        assert i in r.requests;
      }
    }
  }

  lemma PublishedKeepsGood(t: Tables, tx: Tx)
    requires t.Good()
    requires tx.pc.Closing? && Stable(tx, t.Restrict(tx.pair))
    requires tx.newId !in t.requests
    ensures Overlay(t, Published(tx)).Good()
  {
    match tx.pc.outcome
    case Created(_) => CreatedKeepsGood(t, tx);
    case Done =>
      if tx.op.Accept? || tx.op.Reject? || tx.op.Cancel? {
        AnsweredKeepsGood(t, tx);
      } else if tx.op.Remove? {
        assert Overlay(t, Published(tx)).requests == t.requests;
      } else {
        BlockedKeepsGood(t, tx);
      }
    case _ => assert Overlay(t, Published(tx)) == t;
  }

  lemma CreatedKeepsGood(t: Tables, tx: Tx)
    requires t.Good() && tx.newId !in t.requests
    requires tx.pc.Closing? && tx.pc.outcome.Created? && Stable(tx, t.Restrict(tx.pair))
    ensures Overlay(t, Published(tx)).Good()
  {
    var r := t.Restrict(tx.pair);
    forall j | j in t.requests && t.requests[j].Users() == tx.pair ensures t.requests[j].status != Pending {
      assert j in r.requests;
    }
  }

  lemma AnsweredKeepsGood(t: Tables, tx: Tx)
    requires t.Good() && tx.op.OnRequest()
    requires tx.pc == Closing(Done) && Stable(tx, t.Restrict(tx.pair))
    ensures Overlay(t, Published(tx)).Good()
  {
    var u := Overlay(t, Published(tx));
    forall j | j in u.requests && u.requests[j].status == Pending
      ensures j in t.requests && u.requests[j] == t.requests[j] && j != tx.op.id
    {
    }
  }

  lemma BlockedKeepsGood(t: Tables, tx: Tx)
    requires t.Good() && tx.op.Block?
    requires tx.pc == Closing(Done) && Stable(tx, t.Restrict(tx.pair))
    ensures Overlay(t, Published(tx)).Good()
  {
    var r := t.Restrict(tx.pair);
    var u := Overlay(t, Published(tx));
    forall j | j in u.requests && u.requests[j].status == Pending
      ensures j in t.requests && u.requests[j] == t.requests[j] && t.requests[j].Users() != tx.pair
    {
      assert j !in Published(tx).requests;
      assert j !in r.PendingIn(tx.pair);
    }
  }

  /** Publishing for one pair leaves the transactions of the other pairs as they were. */
  lemma PublishedKeepsOthers(t: Tables, tx: Tx, other: Tx)
    requires tx.pc.Closing? && Stable(tx, t.Restrict(tx.pair))
    requires TxInv(t, other) && (other.InSection() ==> other.pair != tx.pair)
    requires tx.newId !in t.requests
    ensures TxInv(Overlay(t, Published(tx)), other)
  {
    PublishedRows(t, tx);
    if other.InSection() {
      OverlayKeepsOtherPairs(t, Published(tx), tx.pair, other.pair);
    }
  }

  /** Publishing an acceptance adds one accepted row and one friendship; a removal moves a friendship to the record. */
  lemma PublishedKeepsCount(t: Tables, tx: Tx, removals: multiset<Pair>)
    requires t.Good() && CountInv(t, removals)
    requires tx.pc.Closing? && Stable(tx, t.Restrict(tx.pair))
    requires tx.newId !in t.requests
    ensures CountInv(Overlay(t, Published(tx)), removals + multiset(Published(tx).friendDels))
  {
    var u := Overlay(t, Published(tx));
    var removals' := removals + multiset(Published(tx).friendDels);
    PublishedRows(t, tx);
    forall p ensures |u.AcceptedIn(p)| == removals'[p] + (if p in u.friendships then 1 else 0) {
      if p != tx.pair {
        OverlayKeepsOtherPairs(t, Published(tx), tx.pair, p);
        SameSliceSameAccepted(t, u, p);
      } else {
        PublishedCount(t, tx);
      }
    }
  }

  lemma SameSliceSameAccepted(t: Tables, u: Tables, p: Pair)
    requires t.Restrict(p) == u.Restrict(p)
    ensures t.AcceptedIn(p) == u.AcceptedIn(p)
    ensures p in t.friendships <==> p in u.friendships
  {
    forall i ensures i in t.AcceptedIn(p) <==> i in u.AcceptedIn(p) {
      assert i in t.Restrict(p).requests <==> i in u.Restrict(p).requests;
    }
    assert p in t.friendships <==> p in t.Restrict(p).friendships;
    assert p in u.friendships <==> p in u.Restrict(p).friendships;
  }

  lemma PublishedCount(t: Tables, tx: Tx)
    requires t.Good()
    requires tx.pc.Closing? && Stable(tx, t.Restrict(tx.pair))
    requires tx.newId !in t.requests
    ensures var u := Overlay(t, Published(tx));
      |u.AcceptedIn(tx.pair)| - (if tx.pair in u.friendships then 1 else 0)
      == |t.AcceptedIn(tx.pair)| - (if tx.pair in t.friendships then 1 else 0)
         + (if tx.pair in Published(tx).friendDels then 1 else 0)
  {
    var u := Overlay(t, Published(tx));
    assert tx.pair in t.friendships <==> tx.pair in t.Restrict(tx.pair).friendships;
    if tx.pc.outcome == Done && tx.op.Accept? {
      AcceptedGrows(t, tx);
    } else {
      AcceptedStays(t, tx);
    }
  }

  lemma AcceptedGrows(t: Tables, tx: Tx)
    requires t.Good()
    requires tx.pc == Closing(Done) && Stable(tx, t.Restrict(tx.pair)) && tx.op.Accept?
    ensures Overlay(t, Published(tx)).AcceptedIn(tx.pair) == t.AcceptedIn(tx.pair) + {tx.op.id}
    ensures tx.op.id !in t.AcceptedIn(tx.pair)
    ensures tx.pair !in t.friendships
  {
  }

  lemma AcceptedStays(t: Tables, tx: Tx)
    requires tx.pc.Closing? && Stable(tx, t.Restrict(tx.pair))
    requires tx.newId !in t.requests
    requires !(tx.pc.outcome == Done && tx.op.Accept?)
    ensures Overlay(t, Published(tx)).AcceptedIn(tx.pair) == t.AcceptedIn(tx.pair)
  {
    PublishedIsPending(t, tx);
  }

  lemma PublishedIsPending(t: Tables, tx: Tx)
    requires tx.pc.Closing? && Stable(tx, t.Restrict(tx.pair))
    requires tx.newId !in t.requests
    requires !(tx.pc.outcome == Done && tx.op.Accept?)
    ensures forall i <- Published(tx).requests ::
      Published(tx).requests[i].status != Accepted && (i in t.requests ==> t.requests[i].status == Pending)
  {
    var r := t.Restrict(tx.pair);
    forall i | i in Published(tx).requests
      ensures Published(tx).requests[i].status != Accepted && (i in t.requests ==> t.requests[i].status == Pending)
    {
      if tx.pc.outcome == Done {
        assert i in r.requests;
      }
    }
  }

  /** The facts about a closing transaction that the whole state supplies. */
  lemma ClosingFacts(s: State, x: TxId)
    requires Inv(s) && x in s.txs && s.txs[x].pc.Closing?
    ensures Stable(s.txs[x], s.tables.Restrict(s.txs[x].pair))
    ensures s.txs[x].newId !in s.tables.requests
    ensures forall y <- s.txs | y != x && s.txs[y].InSection() :: s.txs[y].pair != s.txs[x].pair
  {
    assert TxInv(s.tables, s.txs[x]);
    assert 0 !in s.tables.requests by {
      assert forall i <- s.tables.requests :: i in s.issued && 0 < i;
    }
  }

  lemma CloseKeepsIds(s: State, x: TxId)
    requires Inv(s) && x in s.txs && s.txs[x].pc.Closing?
    ensures IdInv(Close(s, x).tables, s.lastId, s.issued)
    ensures DrawnInv(Close(s, x).tables, s.issued, Close(s, x).txs)
  {
    ClosingFacts(s, x);
    var tx := s.txs[x];
    var u := Close(s, x).tables;
    PublishedRows(s.tables, tx);
    assert u.requests == s.tables.requests + Published(tx).requests;
    forall i | i in u.requests
      ensures i in s.issued && s.issued[i].pair == u.requests[i].Users()
      ensures i in s.tables.requests || i == tx.newId != 0
    {
      if i !in s.tables.requests {
        assert i in Published(tx).requests && i == tx.newId;
      }
    }
  }

  lemma CloseKeepsLocks(s: State, x: TxId)
    requires LockInv(s.locks, s.txs) && x in s.txs && s.txs[x].pc.Closing?
    ensures LockInv(Close(s, x).locks, Close(s, x).txs)
  {
  }

  lemma CloseKeepsTxs(s: State, x: TxId)
    requires Inv(s) && x in s.txs && s.txs[x].pc.Closing?
    ensures TxsInv(Close(s, x).tables, Close(s, x).txs)
  {
    ClosingFacts(s, x);
    var s' := Close(s, x);
    forall y | y in s'.txs ensures TxInv(s'.tables, s'.txs[y]) {
      if y != x {
        assert TxInv(s.tables, s.txs[y]);
        PublishedKeepsOthers(s.tables, s.txs[x], s.txs[y]);
      }
    }
  }

  lemma CloseKeepsInv(s: State, x: TxId)
    requires Inv(s) && x in s.txs && s.txs[x].pc.Closing?
    ensures Inv(Close(s, x))
  {
    ClosingFacts(s, x);
    CloseKeepsIds(s, x);
    CloseKeepsLocks(s, x);
    CloseKeepsTxs(s, x);
    PublishedKeepsGood(s.tables, s.txs[x]);
    PublishedKeepsCount(s.tables, s.txs[x], s.removals);
  }

  lemma UnlockedKeepsInv(s: State, l: Label)
    requires Inv(s) && (l.Unblock? || l.SetPreferences?)
    ensures Inv(Next(s, l))
  {
    var t' := Next(s, l).tables;
    assert Next(s, l) == s.(tables := t');
    UnblocksKeepInv(s, t');
  }

  lemma NextKeepsInv(s: State, l: Label)
    requires Inv(s)
    ensures Inv(Next(s, l))
  {
    match l
    case Begin(x, op) => BeginKeepsInv(s, x, op);
    case Abort(x) => AbortKeepsInv(s, x);
    case Unblock(_, _) => UnlockedKeepsInv(s, l);
    case SetPreferences(_, _) => UnlockedKeepsInv(s, l);
    case Advance(x) => AdvanceKeepsInv(s, x);
  }

  lemma AdvanceKeepsInv(s: State, x: TxId)
    requires Inv(s)
    ensures Inv(Next(s, Advance(x)))
  {
    if x in s.txs && !s.txs[x].pc.Ended? {
      if s.txs[x].pc.Start? {
        PrepareKeepsInv(s, x);
      } else if s.txs[x].pc.AwaitLock? {
        AcquireKeepsInv(s, x);
      } else if s.txs[x].pc.Closing? {
        CloseKeepsInv(s, x);
      } else {
        ExecuteKeepsInv(s, x);
      }
    }
  }

  /** Every schedule keeps the invariant. */
  lemma {:induction false} EveryScheduleKeepsInv(
    users: set<UserId>, preferences: map<UserId, Preferences>, schedule: seq<Label>)
    ensures Inv(Run(users, preferences, schedule))
  {
    if schedule == [] {
      var t := Init(users, preferences).tables;
      forall p ensures |t.AcceptedIn(p)| == 0 {
        assert t.AcceptedIn(p) == {};
      }
    } else {
      EveryScheduleKeepsInv(users, preferences, schedule[..|schedule| - 1]);
      NextKeepsInv(Run(users, preferences, schedule[..|schedule| - 1]), schedule[|schedule| - 1]);
    }
  }
}
