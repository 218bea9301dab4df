/** What the invariant means for every schedule, and why no transaction ever waits for a row. */
module FriendshipTheorems {
  import opened SocialTables
  import opened FriendshipProtocol
  import opened FriendshipInvariants

  /**
    In every committed state of every interleaving a pair has at most one
    pending request, and none when the two are friends or either blocks the
    other.
   */
  lemma AtMostOnePending(
    users: set<UserId>, preferences: map<UserId, Preferences>, schedule: seq<Label>, a: UserId, b: UserId)
    ensures var t := Run(users, preferences, schedule).tables;
      && (forall i, j | i in t.PendingIn(PairOf(a, b)) && j in t.PendingIn(PairOf(a, b)) :: i == j)
      && (t.AreFriends(a, b) || t.BlockedEither(a, b) ==> t.PendingIn(PairOf(a, b)) == {})
  {
    EveryScheduleKeepsInv(users, preferences, schedule);
    var t := Run(users, preferences, schedule).tables;
    assert t.Good();
    if t.AreFriends(a, b) || t.BlockedEither(a, b) {
      forall i ensures i !in t.PendingIn(PairOf(a, b)) {
      }
    }
  }

  /** For every pair, acceptances = removals that deleted a row + (1 if friends now). */
  lemma AcceptancesAreConserved(
    users: set<UserId>, preferences: map<UserId, Preferences>, schedule: seq<Label>, p: Pair)
    ensures var s := Run(users, preferences, schedule);
      |s.tables.AcceptedIn(p)| == s.removals[p] + (if p in s.tables.friendships then 1 else 0)
  {
    EveryScheduleKeepsInv(users, preferences, schedule);
  }

  /**
    Three defensive branches never act: the conflict branch of the request
    insert is never entered, the friendship insert of an acceptance finds no
    row, and cancelling the other pending requests changes no row.
   */
  lemma DefensiveBranchesAreIdle(
    users: set<UserId>, preferences: map<UserId, Preferences>, schedule: seq<Label>, x: TxId)
    requires x in Run(users, preferences, schedule).txs
    ensures var s := Run(users, preferences, schedule);
      var tx := s.txs[x];
      var v := Overlay(s.tables, tx.delta);
      && !tx.pc.Requery?
      && (tx.pc.InsertRequest? ==> tx.op.Create? && v.PendingFrom(tx.op.viewer, tx.op.other) == {})
      && (tx.pc.InsertFriendship? ==> PairOf(tx.op.viewer, tx.pc.sender) !in v.friendships)
      && (tx.pc.CancelOthers? ==> tx.op.Accept? && v.PendingIn(PairOf(tx.op.viewer, tx.pc.sender)) == {})
  {
    EveryScheduleKeepsInv(users, preferences, schedule);
    var s := Run(users, preferences, schedule);
    IdleBranches(s.tables, s.txs[x]);
  }

  lemma IdleBranches(t: Tables, tx: Tx)
    requires t.Good() && TxInv(t, tx)
    ensures !tx.pc.Requery?
    ensures tx.pc.InsertRequest? ==>
      tx.op.Create? && Overlay(t, tx.delta).PendingFrom(tx.op.viewer, tx.op.other) == {}
    ensures tx.pc.InsertFriendship? ==>
      PairOf(tx.op.viewer, tx.pc.sender) !in Overlay(t, tx.delta).friendships
    ensures tx.pc.CancelOthers? ==>
      tx.op.Accept? && Overlay(t, tx.delta).PendingIn(PairOf(tx.op.viewer, tx.pc.sender)) == {}
  {
    var v := Overlay(t, tx.delta);
    if tx.pc.InsertRequest? {
      PendingFromIsLocal(t, tx.op.viewer, tx.op.other);
      assert v == t;
    } else if tx.pc.CancelOthers? {
      forall j ensures j !in v.PendingIn(tx.pair) {
        assert j in t.PendingIn(tx.pair) ==> j == tx.op.id;
      }
    }
  }

  /** The pair a row lock or a unique key belongs to. */
  ghost predicate KeyIn(k: Key, p: Pair, t: Tables) {
    match k
    case RowKey(i) => i in t.requests && t.requests[i].Users() == p
    case PendingKey(a, b) => PairOf(a, b) == p
    case FriendKey(q) => q == p
    case BlockKey(a, b) => PairOf(a, b) == p
  }

  lemma TouchesOwnPair(t: Tables, tx: Tx, k: Key)
    requires tx.InSection() && Stable(tx, t.Restrict(tx.pair)) && k in Touches(tx)
    ensures KeyIn(k, tx.pair, t)
  {
    var r := t.Restrict(tx.pair);
    match k
    case RowKey(i) => assert i in r.requests;
    case PendingKey(a, b) =>
      var i :| i in tx.delta.requests && tx.delta.requests[i].sender == a && tx.delta.requests[i].recipient == b;
      assert tx.delta.requests[i].Users() == tx.pair;
    case FriendKey(q) => assert q in tx.delta.friendAdds + tx.delta.friendDels;
    case BlockKey(a, b) => assert (a, b) in tx.delta.blocks;
  }

  lemma NeedsOwnPair(t: Tables, tx: Tx, k: Key)
    requires t.Good()
    requires tx.InSection() && Stable(tx, t.Restrict(tx.pair)) && k in Needs(tx, Overlay(t, tx.delta))
    ensures KeyIn(k, tx.pair, t)
  {
    if tx.pc.CancelOthers? {
      IdleBranches(t, tx);
    } else if tx.pc.CancelPending? {
      var i :| i in Overlay(t, tx.delta).PendingIn(tx.pair) && k == RowKey(i);
      assert Overlay(t, tx.delta).requests == t.requests;
    }
  }

  /** No statement waits for a row or a unique key: whoever could hold it would hold the pair lock. */
  lemma NoRowWait(s: State, x: TxId, y: TxId)
    requires Inv(s)
    ensures !WaitsForRow(s, x, y)
  {
    if WaitsForRow(s, x, y) {
      var tx, ty := s.txs[x], s.txs[y];
      var k := Pick(Needs(tx, Overlay(s.tables, tx.delta)) * Touches(ty));
      NeedsOwnPair(s.tables, tx, k);
      TouchesOwnPair(s.tables, ty, k);
      assert false;
    }
  }

  /** In every schedule the row locks, FOR UPDATE among them, and the unique keys are free when they are needed. */
  lemma RowLocksNeverWait(
    users: set<UserId>, preferences: map<UserId, Preferences>, schedule: seq<Label>, x: TxId, y: TxId)
    ensures !WaitsForRow(Run(users, preferences, schedule), x, y)
  {
    EveryScheduleKeepsInv(users, preferences, schedule);
    NoRowWait(Run(users, preferences, schedule), x, y);
  }

  /** Each transaction on the path waits for the next. */
  ghost predicate WaitPath(s: State, path: seq<TxId>) {
    forall i | 0 <= i < |path| - 1 :: WaitsFor(s, path[i], path[i + 1])
  }

  /** Whoever is waited for does not wait, so a path of waits has one edge at most and no path is a cycle. */
  lemma WaitsForIsAcyclic(
    users: set<UserId>, preferences: map<UserId, Preferences>, schedule: seq<Label>, path: seq<TxId>)
    requires |path| >= 2 && WaitPath(Run(users, preferences, schedule), path)
    ensures |path| == 2 && path[0] != path[1]
  {
    var s := Run(users, preferences, schedule);
    EveryScheduleKeepsInv(users, preferences, schedule);
    WaitedForRuns(s, path[0], path[1]);
    if |path| > 2 {
      WaitedForRuns(s, path[1], path[2]);
    }
  }

  lemma WaitedForRuns(s: State, x: TxId, y: TxId)
    requires Inv(s) && WaitsFor(s, x, y)
    ensures x in s.txs && s.txs[x].pc.AwaitLock?
    ensures y in s.txs && s.txs[y].InSection()
  {
    NoRowWait(s, x, y);
  }

  /** While some transaction has not ended, some transaction can take its next step. */
  lemma SomeTransactionProceeds(
    users: set<UserId>, preferences: map<UserId, Preferences>, schedule: seq<Label>, x: TxId)
    requires x in Run(users, preferences, schedule).txs && !Run(users, preferences, schedule).txs[x].pc.Ended?
    ensures var s := Run(users, preferences, schedule);
      exists y <- s.txs :: Next(s, Advance(y)).txs[y].pc != s.txs[y].pc
  {
    var s := Run(users, preferences, schedule);
    EveryScheduleKeepsInv(users, preferences, schedule);
    var y := if s.txs[x].pc.AwaitLock? && s.txs[x].pair in s.locks then s.locks[s.txs[x].pair] else x;
    UnlockedProceeds(s, y);
  }

  lemma UnlockedProceeds(s: State, y: TxId)
    requires Inv(s) && y in s.txs && !s.txs[y].pc.Ended?
    requires s.txs[y].pc.AwaitLock? ==> s.txs[y].pair !in s.locks
    ensures y in Next(s, Advance(y)).txs && Next(s, Advance(y)).txs[y].pc != s.txs[y].pc
  {
    forall z ensures !WaitsForRow(s, y, z) {
      NoRowWait(s, y, z);
    }
    if s.txs[y].InSection() && !s.txs[y].pc.Closing? {
      StatementMovesOn(s.tables, s.txs[y], s.lastId + 1);
      ExecuteMovesOn(s, y);
    }
  }

  lemma ExecuteMovesOn(s: State, y: TxId)
    requires y in s.txs && !exists z :: WaitsForRow(s, y, z)
    requires Statement(s.txs[y], Overlay(s.tables, s.txs[y].delta), s.lastId + 1).pc != s.txs[y].pc
    ensures y in Execute(s, y).txs && Execute(s, y).txs[y].pc != s.txs[y].pc
  {
  }

  lemma StatementMovesOn(t: Tables, tx: Tx, nextId: RequestId)
    requires tx.InSection() && !tx.pc.Closing? && Stable(tx, t.Restrict(tx.pair))
    ensures Statement(tx, Overlay(t, tx.delta), nextId).pc != tx.pc
  {
  }
}
