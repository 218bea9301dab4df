/**
  Request policies over whole schedules, and what the steps outside the pair
  lock do: an unblock, a preference change, an abort.
 */
module FriendshipPolicies {
  import opened SocialTables
  import opened FriendshipProtocol
  import opened FriendshipInvariants

  /** The user has asked for no friend requests. */
  predicate TakesNone(preferences: map<UserId, Preferences>, u: UserId) {
    u in preferences && preferences[u].request == NoRequests
  }

  ghost predicate NoneToRefusers(rows: map<RequestId, Request>, preferences: map<UserId, Preferences>) {
    forall i <- rows :: !TakesNone(preferences, rows[i].recipient)
  }

  /** A creation that has passed the check of the policy. */
  predicate PassedPolicy(tx: Tx) {
    && tx.op.Create?
    && (tx.pc.CheckFriends? || tx.pc.FindOwn? || tx.pc.FindReverse? || tx.pc.InsertRequest? || tx.pc.Requery?)
  }

  ghost predicate TxRespects(tx: Tx, preferences: map<UserId, Preferences>) {
    && NoneToRefusers(tx.delta.requests, preferences)
    && (PassedPolicy(tx) ==> !TakesNone(preferences, tx.op.other))
  }

  ghost predicate Respects(s: State, preferences: map<UserId, Preferences>) {
    && s.tables.preferences == preferences
    && NoneToRefusers(s.tables.requests, preferences)
    && (forall x <- s.txs :: TxRespects(s.txs[x], preferences))
  }

  lemma StatementRespects(tx: Tx, v: Tables, nextId: RequestId)
    requires TxRespects(tx, v.preferences) && NoneToRefusers(v.requests, v.preferences)
    ensures TxRespects(Statement(tx, v, nextId), v.preferences)
  {
    var tx' := Statement(tx, v, nextId);
    forall i | i in tx'.delta.requests ensures !TakesNone(v.preferences, tx'.delta.requests[i].recipient) {
      if i !in tx.delta.requests || tx'.delta.requests[i] != tx.delta.requests[i] {
        assert i in v.requests || tx.pc.InsertRequest?;
      }
    }
  }

  lemma ExecuteRespects(s: State, x: TxId, preferences: map<UserId, Preferences>)
    requires Respects(s, preferences) && x in s.txs
    ensures Respects(Execute(s, x), preferences)
  {
    StatementRespects(s.txs[x], Overlay(s.tables, s.txs[x].delta), s.lastId + 1);
  }

  lemma CloseRespects(s: State, x: TxId, preferences: map<UserId, Preferences>)
    requires Respects(s, preferences) && x in s.txs && s.txs[x].pc.Closing?
    ensures Respects(Close(s, x), preferences)
  {
    var t := Close(s, x);
    forall i | i in t.tables.requests ensures !TakesNone(preferences, t.tables.requests[i].recipient) {
      assert i in Published(s.txs[x]).requests || i in s.tables.requests;
    }
    assert NoneToRefusers(t.txs[x].delta.requests, preferences);
  }

  lemma BeforeLockRespects(s: State, x: TxId, preferences: map<UserId, Preferences>)
    requires Respects(s, preferences) && x in s.txs && (s.txs[x].pc.Start? || s.txs[x].pc.AwaitLock?)
    ensures Respects(Next(s, Advance(x)), preferences)
  {
    var t := Next(s, Advance(x));
    assert t.tables == s.tables && t.txs[x].delta == s.txs[x].delta && !PassedPolicy(t.txs[x]);
  }

  lemma AdvanceRespects(s: State, x: TxId, preferences: map<UserId, Preferences>)
    requires Respects(s, preferences) && x in s.txs
    ensures Respects(Next(s, Advance(x)), preferences)
  {
    if s.txs[x].InSection() {
      if s.txs[x].pc.Closing? {
        CloseRespects(s, x, preferences);
      } else {
        ExecuteRespects(s, x, preferences);
      }
    } else if !s.txs[x].pc.Ended? {
      BeforeLockRespects(s, x, preferences);
    }
  }

  lemma StepRespects(s: State, l: Label, preferences: map<UserId, Preferences>)
    requires Respects(s, preferences) && !l.SetPreferences?
    ensures Respects(Next(s, l), preferences)
  {
    if l.Advance? {
      if l.tx in s.txs {
        AdvanceRespects(s, l.tx, preferences);
      }
    }
  }

  lemma {:induction false} ScheduleRespects(
    users: set<UserId>, preferences: map<UserId, Preferences>, schedule: seq<Label>)
    requires forall l <- schedule :: !l.SetPreferences?
    ensures Respects(Run(users, preferences, schedule), preferences)
  {
    if schedule != [] {
      var n := |schedule| - 1;
      ScheduleRespects(users, preferences, schedule[..n]);
      assert schedule[n] in schedule;
      StepRespects(Run(users, preferences, schedule[..n]), schedule[n], preferences);
    }
  }

  /** While preferences stay as they are, no request to a user who takes none is ever committed. */
  lemma NoRequestToRefuser(
    users: set<UserId>, preferences: map<UserId, Preferences>, schedule: seq<Label>, i: RequestId)
    requires forall l <- schedule :: !l.SetPreferences?
    requires i in Run(users, preferences, schedule).tables.requests
    ensures var u := Run(users, preferences, schedule).tables.requests[i].recipient;
      !(u in preferences && preferences[u].request == NoRequests)
  {
    ScheduleRespects(users, preferences, schedule);
  }

  /** An unblock deletes that one row, from whatever the others are doing. */
  lemma UnblockTakesEffect(s: State, v: UserId, o: UserId)
    requires v in s.tables.users && 0 < o <= MAX_I32 && o != v
    ensures var t := Next(s, Unblock(v, o));
      && t == s.(tables := t.tables)
      && t.tables == s.tables.(blocks := t.tables.blocks)
      && (forall b :: b in t.tables.blocks <==> b in s.tables.blocks && b != (v, o))
  {
  }

  lemma PreferencesTakeEffect(s: State, u: UserId, p: Preferences)
    requires u in s.tables.users
    ensures var t := Next(s, SetPreferences(u, p));
      && t == s.(tables := t.tables)
      && t.tables == s.tables.(preferences := t.tables.preferences)
      && u in t.tables.preferences && t.tables.preferences[u] == p
      && (forall w | w != u :: (w in t.tables.preferences <==> w in s.tables.preferences)
                               && (w in s.tables.preferences ==> t.tables.preferences[w] == s.tables.preferences[w]))
  {
  }

  /** In every run an aborted transaction leaves no row and holds no lock, and nobody else notices. */
  lemma AbortRollsBack(
    users: set<UserId>, preferences: map<UserId, Preferences>, schedule: seq<Label>, x: TxId)
    requires x in Run(users, preferences, schedule).txs && !Run(users, preferences, schedule).txs[x].pc.Ended?
    ensures var s := Run(users, preferences, schedule);
      var t := Next(s, Abort(x));
      && t.tables == s.tables && t.txs[x].pc == Ended(Aborted)
      && t.txs[x].delta == NO_CHANGE && t.txs[x].rows == {}
      && (forall p <- t.locks :: p in s.locks && t.locks[p] == s.locks[p] != x)
      && (forall p <- s.locks :: p in t.locks || s.locks[p] == x)
      && (forall y <- s.txs | y != x :: y in t.txs && t.txs[y] == s.txs[y])
  {
    EveryScheduleKeepsInv(users, preferences, schedule);
  }
}
