/**
  What the locks of the model mean: every row a transaction writes is locked by
  it, every statement asks for what it is about to lock, and a transaction is
  stuck exactly when it waits for another.
 */
module FriendshipLocks {
  import opened SocialTables
  import opened FriendshipProtocol
  import opened FriendshipInvariants
  import T = FriendshipTheorems

  /** A changed row is locked; a new row is the transaction's own. */
  ghost predicate WritesLocked(tx: Tx) {
    forall i <- tx.delta.requests :: i in tx.rows || (i == tx.newId && tx.op.Create?)
  }

  lemma StatementLocksWrites(tx: Tx, v: Tables, nextId: RequestId)
    requires WritesLocked(tx) && (tx.pc.InsertRequest? ==> tx.delta.requests == map[])
    ensures WritesLocked(Statement(tx, v, nextId))
  {
  }

  lemma InsertIsFirst(s: State, x: TxId)
    requires Inv(s) && x in s.txs && s.txs[x].pc.InsertRequest?
    ensures s.txs[x].delta.requests == map[]
  {
    assert Stable(s.txs[x], s.tables.Restrict(s.txs[x].pair));
  }

  ghost predicate AllWritesLocked(s: State) {
    forall x <- s.txs :: WritesLocked(s.txs[x])
  }

  /** A statement changes its own transaction only. */
  lemma ExecuteChangesOne(s: State, x: TxId)
    requires x in s.txs
    ensures var after := Statement(s.txs[x], Overlay(s.tables, s.txs[x].delta), s.lastId + 1);
      Execute(s, x).txs == s.txs || Execute(s, x).txs == s.txs[x := after]
  {
  }

  lemma ExecuteLocksWrites(s: State, x: TxId)
    requires AllWritesLocked(s) && x in s.txs
    requires s.txs[x].pc.InsertRequest? ==> s.txs[x].delta.requests == map[]
    ensures AllWritesLocked(Execute(s, x))
  {
    ExecuteChangesOne(s, x);
    StatementLocksWrites(s.txs[x], Overlay(s.tables, s.txs[x].delta), s.lastId + 1);
  }

  lemma BeforeLockWritesNothing(s: State, x: TxId)
    requires AllWritesLocked(s) && x in s.txs && (s.txs[x].pc.Start? || s.txs[x].pc.AwaitLock?)
    ensures AllWritesLocked(Next(s, Advance(x)))
  {
    var t := Next(s, Advance(x));
    assert WritesLocked(s.txs[x]);
    assert t.txs[x].delta == s.txs[x].delta && t.txs[x].rows == s.txs[x].rows && t.txs[x].op == s.txs[x].op;
  }

  lemma CloseWritesNothing(s: State, x: TxId)
    requires AllWritesLocked(s) && x in s.txs && s.txs[x].pc.Closing?
    ensures AllWritesLocked(Close(s, x))
  {
    assert WritesLocked(Close(s, x).txs[x]);
  }

  lemma AdvanceLocksWrites(s: State, x: TxId)
    requires Inv(s) && AllWritesLocked(s) && x in s.txs
    ensures AllWritesLocked(Next(s, Advance(x)))
  {
    if s.txs[x].pc.Start? || s.txs[x].pc.AwaitLock? {
      BeforeLockWritesNothing(s, x);
    } else if s.txs[x].pc.Closing? {
      CloseWritesNothing(s, x);
    } else if !s.txs[x].pc.Ended? {
      if s.txs[x].pc.InsertRequest? {
        InsertIsFirst(s, x);
      }
      ExecuteLocksWrites(s, x);
    }
  }

  lemma StepLocksWrites(s: State, l: Label)
    requires Inv(s) && AllWritesLocked(s)
    ensures AllWritesLocked(Next(s, l))
  {
    if l.Advance? && l.tx in s.txs {
      AdvanceLocksWrites(s, l.tx);
    }
  }

  lemma {:induction false} ScheduleLocksWrites(
    users: set<UserId>, preferences: map<UserId, Preferences>, schedule: seq<Label>)
    ensures AllWritesLocked(Run(users, preferences, schedule))
  {
    if schedule != [] {
      var before := schedule[..|schedule| - 1];
      ScheduleLocksWrites(users, preferences, before);
      EveryScheduleKeepsInv(users, preferences, before);
      StepLocksWrites(Run(users, preferences, before), schedule[|schedule| - 1]);
    }
  }

  /** In every run, whatever a transaction has written and not committed keeps others out. */
  lemma WritesKeepOthersOut(
    users: set<UserId>, preferences: map<UserId, Preferences>, schedule: seq<Label>, x: TxId)
    requires x in Run(users, preferences, schedule).txs
    ensures var tx := Run(users, preferences, schedule).txs[x];
      && (forall i <- tx.delta.requests ::
            || RowKey(i) in Touches(tx)
            || (i == tx.newId
                && PendingKey(tx.delta.requests[i].sender, tx.delta.requests[i].recipient) in Touches(tx)))
      && (forall p <- tx.delta.friendAdds + tx.delta.friendDels :: FriendKey(p) in Touches(tx))
      && (forall b <- tx.delta.blocks :: BlockKey(b.0, b.1) in Touches(tx))
  {
    ScheduleLocksWrites(users, preferences, schedule);
    var tx := Run(users, preferences, schedule).txs[x];
    forall i | i in tx.delta.requests
      ensures || RowKey(i) in Touches(tx)
              || (i == tx.newId
                  && PendingKey(tx.delta.requests[i].sender, tx.delta.requests[i].recipient) in Touches(tx))
    {
      assert i in tx.rows ==> RowKey(i) in Touches(tx);
    }
  }

  /** A statement asks beforehand for every row and every key it is about to lock. */
  lemma StatementAsksFirst(tx: Tx, v: Tables, nextId: RequestId)
    ensures var after := Statement(tx, v, nextId);
      && (forall i <- after.rows - tx.rows :: RowKey(i) in Needs(tx, v))
      && (forall p <- after.delta.friendAdds + after.delta.friendDels ::
            p in tx.delta.friendAdds + tx.delta.friendDels || FriendKey(p) in Needs(tx, v))
      && (forall b <- after.delta.blocks :: b in tx.delta.blocks || BlockKey(b.0, b.1) in Needs(tx, v))
      && (after.newId != tx.newId ==> tx.op.Create? && PendingKey(tx.op.viewer, tx.op.other) in Needs(tx, v))
  {
  }

  /** FOR UPDATE asks for its row, and has it locked afterwards when it exists. */
  lemma SelectForUpdateLocks(tx: Tx, v: Tables, nextId: RequestId)
    requires tx.pc.SelectForUpdate? && tx.op.OnRequest()
    ensures RowKey(tx.op.id) in Needs(tx, v)
    ensures tx.op.id in v.requests ==> RowKey(tx.op.id) in Touches(Statement(tx, v, nextId))
  {
  }

  /** In every run a transaction that has not ended cannot take its next step exactly when it waits for another. */
  lemma StuckIffWaiting(users: set<UserId>, preferences: map<UserId, Preferences>, schedule: seq<Label>, x: TxId)
    requires x in Run(users, preferences, schedule).txs && !Run(users, preferences, schedule).txs[x].pc.Ended?
    ensures var s := Run(users, preferences, schedule);
      Next(s, Advance(x)) == s <==> exists y :: WaitsFor(s, x, y)
  {
    var s := Run(users, preferences, schedule);
    EveryScheduleKeepsInv(users, preferences, schedule);
    if s.txs[x].pc.AwaitLock? && s.txs[x].pair in s.locks {
      assert WaitsFor(s, x, s.locks[s.txs[x].pair]);
    } else {
      T.UnlockedProceeds(s, x);
      forall y ensures !WaitsFor(s, x, y) {
        T.NoRowWait(s, x, y);
      }
    }
  }
}
