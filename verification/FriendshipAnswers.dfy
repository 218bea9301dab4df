/**
  The answers given before the pair lock is taken: a failed login or validation,
  a user or a request that is not there. They are outside the lock order, and
  each is the answer of the endpoint run alone at the moment it was given.
 */
module FriendshipAnswers {
  import opened SocialTables
  import opened SocialContracts
  import opened FriendshipProtocol
  import opened FriendshipInvariants

  lemma PreparedAnswerIsEndpoint(tx: Tx, t: Tables, nextId: RequestId)
    requires Prepare(tx, t).pc.Ended?
    ensures Endpoint(tx.op, nextId, t) == (t, Prepare(tx, t).pc.outcome)
  {
    OverlayNothing(t);
  }

  /** Whoever is under a pair lock acquired it. */
  ghost predicate SectionsAcquired(s: State) {
    forall x <- s.txs | s.txs[x].InSection() :: x in s.history
  }

  /** A statement under the lock stays under it and touches no other transaction. */
  lemma ExecuteStays(s: State, x: TxId)
    requires x in s.txs && s.txs[x].InSection() && !s.txs[x].pc.Closing?
    ensures var t := Execute(s, x);
      && x in t.txs && t.txs[x].InSection() && t.txs == s.txs[x := t.txs[x]]
      && t.tables == s.tables && t.history == s.history
  {
    StatementStaysInSection(s.txs[x], Overlay(s.tables, s.txs[x].delta), s.lastId + 1);
  }

  lemma StepKeepsAcquired(s: State, l: Label)
    requires SectionsAcquired(s)
    ensures SectionsAcquired(Next(s, l)) && s.history <= Next(s, l).history
  {
    if l.Advance? && l.tx in s.txs {
      if s.txs[l.tx].InSection() && !s.txs[l.tx].pc.Closing? {
        ExecuteStays(s, l.tx);
      } else if s.txs[l.tx].pc.AwaitLock? {
        assert l.tx in s.history + [l.tx];
      }
    }
  }

  lemma {:induction false} EveryScheduleAcquires(
    users: set<UserId>, preferences: map<UserId, Preferences>, schedule: seq<Label>)
    ensures SectionsAcquired(Run(users, preferences, schedule))
  {
    if schedule != [] {
      var before := schedule[..|schedule| - 1];
      EveryScheduleAcquires(users, preferences, before);
      StepKeepsAcquired(Run(users, preferences, before), schedule[|schedule| - 1]);
    }
  }

  /** Step `k` gave `x` the answer of its endpoint run alone on the tables of that moment, and changed no row. */
  ghost predicate AnsweredAlone(
    users: set<UserId>, preferences: map<UserId, Preferences>, schedule: seq<Label>, k: nat,
    x: TxId, op: Op, o: Outcome)
  {
    && k < |schedule| && schedule[k] == Advance(x)
    && var s := Run(users, preferences, schedule[..k]);
      && x in s.txs && s.txs[x].pc.Start? && s.txs[x].op == op
      && Next(s, Advance(x)).tables == s.tables
      && (forall nextId: RequestId :: Endpoint(op, nextId, s.tables) == (s.tables, o))
  }

  /** The operation was answered, and never held its pair lock. */
  ghost predicate EndedEarly(s: State, x: TxId) {
    x in s.txs && s.txs[x].pc.Ended? && s.txs[x].pc.outcome != Aborted && x !in s.history
  }

  /** What the step that ends a transaction outside every pair lock can be. */
  lemma EndsOutsideLock(s: State, l: Label, x: TxId)
    requires SectionsAcquired(s) && EndedEarly(Next(s, l), x)
    requires !(x in s.txs && s.txs[x].pc.Ended?)
    ensures l == Advance(x) && x in s.txs && s.txs[x].pc.Start?
    ensures Next(s, l).txs[x] == Prepare(s.txs[x], s.tables) && Next(s, l).tables == s.tables
  {
    if l.Advance? && l.tx in s.txs && s.txs[l.tx].InSection() && !s.txs[l.tx].pc.Closing? {
      ExecuteStays(s, l.tx);
    }
  }

  lemma StepAnswersAlone(
    users: set<UserId>, preferences: map<UserId, Preferences>, schedule: seq<Label>, x: TxId)
    requires schedule != []
    requires var s := Run(users, preferences, schedule[..|schedule| - 1]);
      && schedule[|schedule| - 1] == Advance(x) && x in s.txs && s.txs[x].pc.Start?
      && Next(s, Advance(x)).tables == s.tables && Prepare(s.txs[x], s.tables).pc.Ended?
    ensures var s := Run(users, preferences, schedule[..|schedule| - 1]);
      AnsweredAlone(users, preferences, schedule, |schedule| - 1, x,
                    s.txs[x].op, Prepare(s.txs[x], s.tables).pc.outcome)
  {
    var s := Run(users, preferences, schedule[..|schedule| - 1]);
    var o := Prepare(s.txs[x], s.tables).pc.outcome;
    forall nextId: RequestId ensures Endpoint(s.txs[x].op, nextId, s.tables) == (s.tables, o) {
      PreparedAnswerIsEndpoint(s.txs[x], s.tables, nextId);
    }
  }

  lemma AnsweredBefore(
    users: set<UserId>, preferences: map<UserId, Preferences>, schedule: seq<Label>, n: nat, k: nat, x: TxId,
    op: Op, o: Outcome)
    requires n <= |schedule| && AnsweredAlone(users, preferences, schedule[..n], k, x, op, o)
    ensures AnsweredAlone(users, preferences, schedule, k, x, op, o)
  {
    assert schedule[..n][..k] == schedule[..k];
  }

  /**
    Every operation that ended without being aborted and without ever holding a
    pair lock got the answer its endpoint gives alone on the tables of the moment
    it was answered, and changed no row.
   */
  lemma {:induction false} EarlyAnswersAreAlone(
    users: set<UserId>, preferences: map<UserId, Preferences>, schedule: seq<Label>, x: TxId)
    returns (k: nat)
    requires EndedEarly(Run(users, preferences, schedule), x)
    ensures var tx := Run(users, preferences, schedule).txs[x];
      AnsweredAlone(users, preferences, schedule, k, x, tx.op, tx.pc.outcome)
  {
    var n := |schedule| - 1;
    var s := Run(users, preferences, schedule[..n]);
    EveryScheduleAcquires(users, preferences, schedule[..n]);
    StepKeepsAcquired(s, schedule[n]);
    if x in s.txs && s.txs[x].pc.Ended? {
      EndedStays(s, schedule[n], x);
      k := EarlyAnswersAreAlone(users, preferences, schedule[..n], x);
      AnsweredBefore(users, preferences, schedule, n, k, x, s.txs[x].op, s.txs[x].pc.outcome);
    } else {
      EndsOutsideLock(s, schedule[n], x);
      StepAnswersAlone(users, preferences, schedule, x);
      k := n;
    }
  }

  lemma EndedStays(s: State, l: Label, x: TxId)
    requires x in s.txs && s.txs[x].pc.Ended?
    ensures x in Next(s, l).txs && Next(s, l).txs[x] == s.txs[x]
  {
    if l.Advance? && l.tx in s.txs && s.txs[l.tx].InSection() && !s.txs[l.tx].pc.Closing? {
      ExecuteStays(s, l.tx);
    }
  }
}
