/**
  Registration codes for one mailbox: the stored code, the handler that submits
  it, the handler that sends a new one, each run alone.
 */
module VerificationCodes {
  import opened Wrappers

  /** Instants in microseconds. */
  type Instant = int

  const SECOND: int := 1_000_000
  const EXPIRES_SECONDS: int := 600
  const RESEND_SECONDS: int := 60
  const MAX_ATTEMPTS: nat := 5

  /** The row of verify_code; `issue`, which no statement reads, numbers the codes sent to this mailbox. */
  datatype Row = Row(code: string, attempts: nat, created: Instant, expires: Instant, issue: nat)

  datatype SubmitOutcome = Registered | Unauthorized | Conflict

  datatype SendOutcome = Sent | RateLimited(retryAfter: int)

  /** `signed_duration_since(..).num_seconds()`: whole seconds, truncated toward zero. */
  function WholeSeconds(from: Instant, to: Instant): int {
    if to >= from then (to - from) / SECOND else -((from - to) / SECOND)
  }

  /** The row a submission that starts at `start` finds. */
  predicate Live(row: Option<Row>, start: Instant) {
    row.Some? && row.value.expires > start
  }

  /** What a submission does: the new row, whether the address has an account, and the answer. */
  function Submitted(row: Option<Row>, taken: bool, code: string, start: Instant): (Option<Row>, bool, SubmitOutcome) {
    if !Live(row, start) then (row, taken, Unauthorized)
    else if row.value.attempts >= MAX_ATTEMPTS then (None, taken, Unauthorized)
    else if row.value.code != code then
      (Some(row.value.(attempts := row.value.attempts + 1)), taken, Unauthorized)
    else if taken then (row, taken, Conflict)
    else (None, true, Registered)
  }

  /** The row a send writes; `start` is NOW() of its transaction. */
  function NewRow(code: string, start: Instant, issue: nat): Row {
    Row(code, 0, start, start + EXPIRES_SECONDS * SECOND, issue)
  }

  predicate CoolingDown(row: Option<Row>, clock: Instant) {
    row.Some? && WholeSeconds(row.value.created, clock) < RESEND_SECONDS
  }

  /** What a send does; `clock` is the time of its cooldown check. */
  function SentCode(row: Option<Row>, code: string, start: Instant, clock: Instant, issue: nat)
    : (Option<Row>, SendOutcome)
  {
    if CoolingDown(row, clock) then
      (row, RateLimited(RESEND_SECONDS - WholeSeconds(row.value.created, clock)))
    else (Some(NewRow(code, start, issue)), Sent)
  }

  class Mailbox {
    var row: Option<Row>
    var taken: bool
    var issues: nat

    /** Never more than five attempts on the stored code, which is the latest sent. */
    ghost predicate Valid()
      reads this
    {
      row.Some? ==> row.value.attempts <= MAX_ATTEMPTS && row.value.issue + 1 == issues
    }

    /** A submission of `code` at `start` would now create an account, address permitting. */
    predicate Accepts(code: string, start: Instant)
      reads this`row
    {
      Live(row, start) && row.value.attempts < MAX_ATTEMPTS && row.value.code == code
    }

    constructor ()
      ensures Valid() && row == None && !taken && issues == 0
    {
      row, taken, issues := None, false, 0;
    }

    method CreateUser(code: string, start: Instant) returns (outcome: SubmitOutcome)
      requires Valid()
      modifies this`row, this`taken
      ensures Valid()
      ensures (row, taken, outcome) == Submitted(old(row), old(taken), code, start)
      ensures outcome == Registered <==> old(Accepts(code, start)) && !old(taken)
      ensures outcome == Conflict <==> old(Accepts(code, start)) && old(taken)
      ensures outcome == Registered ==> taken && forall c, t :: !Accepts(c, t)
      ensures outcome != Registered ==> taken == old(taken)
      ensures outcome == Conflict ==> row == old(row)
      ensures outcome == Unauthorized ==> forall c, t :: Accepts(c, t) ==> old(Accepts(c, t))
      ensures old(row.None? || row.value.expires <= start) ==> row == old(row)
      ensures old(row.Some? && row.value.expires > start && row.value.attempts >= 5) ==> row == None
      ensures old(row.Some? && row.value.expires > start && row.value.attempts < 5 && row.value.code != code) ==>
        row == Some(old(row).value.(attempts := old(row).value.attempts + 1))
    {
      if row.None? || row.value.expires <= start {
        return Unauthorized;
      }
      var stored, attempts := row.value.code, row.value.attempts;
      if attempts >= MAX_ATTEMPTS {
        row := None;
        return Unauthorized;
      }
      if stored != code {
        row := Some(row.value.(attempts := row.value.attempts + 1));
        return Unauthorized;
      }
      if taken {
        return Conflict;
      }
      taken := true;
      row := None;
      outcome := Registered;
    }

    method SendVerificationCode(code: string, start: Instant, clock: Instant) returns (outcome: SendOutcome)
      requires Valid()
      modifies this`row, this`issues
      ensures Valid()
      ensures (row, outcome) == SentCode(old(row), code, start, clock, old(issues))
      ensures outcome.Sent? ==> forall c, t :: Accepts(c, t) <==> c == code && t < start + 600_000_000
      ensures outcome.Sent? && old(row).Some? ==> clock >= old(row).value.created + 60_000_000
      ensures outcome.RateLimited? ==> row == old(row) && outcome.retryAfter > 0
      ensures issues == old(issues) + if outcome.Sent? then 1 else 0
    {
      if row.Some? {
        var elapsed := WholeSeconds(row.value.created, clock);
        if elapsed < RESEND_SECONDS {
          return RateLimited(RESEND_SECONDS - elapsed);
        }
      }
      match row {
        case None =>
          row := Some(NewRow(code, start, issues));
        case Some(stored) =>
          row := Some(stored.(code := code, expires := start + EXPIRES_SECONDS * SECOND,
                      created := start, attempts := 0, issue := issues));
      }
      issues := issues + 1;
      outcome := Sent;
    }
  }

  /** A refused send says when to come back: not before, and not more than a second late. */
  lemma RetryIsExact(row: Option<Row>, code: string, start: Instant, clock: Instant, later: Instant, issue: nat)
    requires SentCode(row, code, start, clock, issue).1.RateLimited?
    requires row.value.created <= clock <= later
    ensures var retry := SentCode(row, code, start, clock, issue).1.retryAfter;
      && 1 <= retry <= 60
      && (later >= clock + retry * 1_000_000 ==> !CoolingDown(row, later))
      && (later <= clock + (retry - 1) * 1_000_000 ==> CoolingDown(row, later))
  {
    var d, e := clock - row.value.created, later - row.value.created;
    assert d / SECOND * SECOND <= d < (d / SECOND + 1) * SECOND;
    assert e / SECOND * SECOND <= e < (e / SECOND + 1) * SECOND;
  }
}

/** What follows for a code that is tried again and again, one submission after another. */
module RepeatedSubmissions {
  import opened Wrappers
  import opened VerificationCodes

  datatype Try = Try(code: string, start: Instant)

  /** The row and the address after submissions one after another. */
  function SubmitAll(row: Option<Row>, taken: bool, tries: seq<Try>): (Option<Row>, bool)
    decreases |tries|
  {
    if tries == [] then (row, taken)
    else
      var before := SubmitAll(row, taken, tries[..|tries| - 1]);
      var last := tries[|tries| - 1];
      var after := Submitted(before.0, before.1, last.code, last.start);
      (after.0, after.1)
  }

  /** Wrong codes, each in time. */
  ghost predicate WrongInTime(tries: seq<Try>, row: Row) {
    forall t <- tries :: t.code != row.code && t.start < row.expires
  }

  /** After `k` mismatches, up to five, the stored code has `k` attempts and is otherwise as it was. */
  lemma {:induction false} MismatchesAreCounted(row: Row, taken: bool, tries: seq<Try>)
    requires row.attempts == 0 && |tries| <= 5 && WrongInTime(tries, row)
    ensures SubmitAll(Some(row), taken, tries) == (Some(row.(attempts := |tries|)), taken)
    decreases |tries|
  {
    if tries != [] {
      var n := |tries| - 1;
      assert forall t <- tries[..n] :: t in tries;
      MismatchesAreCounted(row, taken, tries[..n]);
      assert tries[n] in tries;
    }
  }

  /** The right code in time creates the account after at most four mismatches; after five it is refused and deleted. */
  lemma FifthMismatchEndsTheCode(row: Row, tries: seq<Try>, start: Instant)
    requires row.attempts == 0 && |tries| <= 5 && WrongInTime(tries, row) && start < row.expires
    ensures var (left, taken) := SubmitAll(Some(row), false, tries);
      Submitted(left, taken, row.code, start) == (None, |tries| < 5, if |tries| < 5 then Registered else Unauthorized)
  {
    MismatchesAreCounted(row, false, tries);
  }
}

/** Every interleaving of submissions and sends for one mailbox. */
module RegistrationProtocol {
  import opened Wrappers
  import opened VerificationCodes

  /** What a submission has written but not committed. */
  datatype Effect = Drop | Bump | Register

  datatype Tx =
    | Selecting(code: string, start: Instant)
    | Waiting(code: string, start: Instant, seen: nat)
    | Holding(code: string, start: Instant, read: Row)
    | Written(code: string, start: Instant, effect: Effect)
    | Queued(start: Instant)
    | Checking(start: Instant)
    | Cooled(start: Instant, clock: Instant)
    | Upserted(start: Instant, clock: Instant, newCode: string)
  {
    /** Has locked the row of verify_code. */
    predicate HoldsRow() {
      Holding? || Written? || Upserted?
    }

    /** Has the advisory lock of the mailbox. */
    predicate HoldsMailbox() {
      Checking? || Cooled? || Upserted?
    }
  }

  /** What was issued, and how many wrong submissions were counted against it. */
  datatype Issue = Issue(code: string, expires: Instant, misses: nat)
  {
    function Missed(): Issue {
      this.(misses := misses + 1)
    }
  }

  /** An account: the issue it was created with, the code submitted and when that submission started. */
  datatype Account = Account(issue: nat, code: string, start: Instant)

  /**
    `inserted` counts the rows inserted, so it tells the stored row from an
    earlier one that was deleted. `issues` and `accounts` are history variables,
    except that a new code is numbered by |issues|.
   */
  datatype State = State(
    row: Option<Row>,
    inserted: nat,
    taken: bool,
    rowLock: Option<nat>,
    mailboxLock: Option<nat>,
    txs: map<nat, Tx>,
    issues: seq<Issue>,
    accounts: seq<Account>)
  {
    /** The transaction is over: it leaves and gives back what it locked. */
    function Without(id: nat): State {
      this.(
      txs := txs - {id},
      rowLock := if rowLock == Some(id) then None else rowLock,
      mailboxLock := if mailboxLock == Some(id) then None else mailboxLock)
    }
  }

  datatype Action =
    | Submit(id: nat, code: string, start: Instant)
    | Look(id: nat)
    | Select(id: nat)
    | Write(id: nat)
    | Send(id: nat, start: Instant)
    | LockMailbox(id: nat)
    | CheckCooldown(id: nat, clock: Instant)
    | Upsert(id: nat, code: string)
    | Commit(id: nat)
    | Abort(id: nat)
    | Vacate

  function Initial(taken: bool): State {
    State(None, 0, taken, None, None, map[], [], [])
  }

  /** The snapshot of SELECT ... FOR UPDATE: no live row, no answer to wait for. */
  function LookStep(s: State, id: nat): State {
    if id !in s.txs || !s.txs[id].Selecting? then s
    else
      var tx := s.txs[id];
      if !Live(s.row, tx.start) then s.Without(id)
      else s.(txs := s.txs[id := Waiting(tx.code, tx.start, s.inserted)])
  }

  /**
    The row lock, once no other transaction holds it. The condition is evaluated
    again on the latest version of the row seen; a row inserted since is not it.
   */
  function SelectStep(s: State, id: nat): State {
    if id !in s.txs || !s.txs[id].Waiting? || s.rowLock.Some? then s
    else
      var tx := s.txs[id];
      if !Live(s.row, tx.start) || s.inserted != tx.seen then s.Without(id)
      else s.(rowLock := Some(id), txs := s.txs[id := Holding(tx.code, tx.start, s.row.value)])
  }

  /** The branch on what was read, up to the last statement before the commit. */
  function WriteStep(s: State, id: nat): State {
    if id !in s.txs || !s.txs[id].Holding? then s
    else
      var tx := s.txs[id];
      if tx.read.attempts >= MAX_ATTEMPTS then s.(txs := s.txs[id := Written(tx.code, tx.start, Drop)])
      else if tx.read.code != tx.code then s.(txs := s.txs[id := Written(tx.code, tx.start, Bump)])
      else if s.taken then s.Without(id)
      else s.(txs := s.txs[id := Written(tx.code, tx.start, Register)])
  }

  function CheckStep(s: State, id: nat, clock: Instant): State {
    if id !in s.txs || !s.txs[id].Checking? then s
    else if CoolingDown(s.row, clock) then s.Without(id)
    else s.(txs := s.txs[id := Cooled(s.txs[id].start, clock)])
  }

  /** INSERT ... ON CONFLICT DO UPDATE waits for whoever holds the row. */
  function UpsertStep(s: State, id: nat, code: string): State {
    if id !in s.txs || !s.txs[id].Cooled? || s.rowLock.Some? then s
    else
      var tx := s.txs[id];
      s.(rowLock := Some(id), txs := s.txs[id := Upserted(tx.start, tx.clock, code)])
  }

  /** UPDATE and DELETE name the mailbox, so they act on whatever row it has. */
  function Committed(s: State, tx: Tx): State
    requires tx.Written?
  {
    match tx.effect
    case Drop => s.(row := None)
    case Bump =>
      s.(row := if s.row.Some? then Some(s.row.value.(attempts := s.row.value.attempts + 1)) else None)
    case Register => s.(row := None, taken := true)
  }

  /** The history of the commit: a mismatch counted for the stored code, or an account created with it. */
  function Noted(s: State, tx: Tx): State
    requires tx.Written?
  {
    if s.row.None? || s.row.value.issue >= |s.issues| then s
    else
      var i := s.row.value.issue;
      match tx.effect
      case Drop => s
      case Bump => s.(issues := s.issues[i := s.issues[i].Missed()])
      case Register => s.(accounts := s.accounts + [Account(i, tx.code, tx.start)])
  }

  function Issued(s: State, tx: Tx): State
    requires tx.Upserted?
  {
    var row := NewRow(tx.newCode, tx.start, |s.issues|);
    s.(row := Some(row),
       inserted := if s.row.None? then s.inserted + 1 else s.inserted,
       issues := s.issues + [Issue(row.code, row.expires, 0)])
  }

  function CommitStep(s: State, id: nat): State {
    if id !in s.txs then s
    else
      match s.txs[id]
      case Written(_, _, _) => Committed(Noted(s, s.txs[id]), s.txs[id]).Without(id)
      case Upserted(_, _, _) => Issued(s, s.txs[id]).Without(id)
      case _ => s
  }

  /** An action that is not enabled leaves the state as it is. */
  function Step(s: State, action: Action): State {
    match action
    case Submit(id, code, start) => if id in s.txs then s else s.(txs := s.txs[id := Selecting(code, start)])
    case Look(id) => LookStep(s, id)
    case Select(id) => SelectStep(s, id)
    case Write(id) => WriteStep(s, id)
    case Send(id, start) => if id in s.txs then s else s.(txs := s.txs[id := Queued(start)])
    case LockMailbox(id) =>
      if id !in s.txs || !s.txs[id].Queued? || s.mailboxLock.Some? then s
      else s.(mailboxLock := Some(id), txs := s.txs[id := Checking(s.txs[id].start)])
    case CheckCooldown(id, clock) => CheckStep(s, id, clock)
    case Upsert(id, code) => UpsertStep(s, id, code)
    case Commit(id) => CommitStep(s, id)
    case Abort(id) => s.Without(id)
    // the account is removed by other means
    case Vacate => s.(taken := false)
  }

  function Run(s: State, schedule: seq<Action>): State
    decreases |schedule|
  {
    if schedule == [] then s
    else Step(Run(s, schedule[..|schedule| - 1]), schedule[|schedule| - 1])
  }

  // ----- invariant -----

  /** The stored row is the latest issue, with its wrong submissions counted in `attempts`. */
  ghost predicate RowIsLatest(row: Option<Row>, issues: seq<Issue>) {
    && (row.Some? ==>
          && row.value.issue + 1 == |issues|
          && issues[row.value.issue] == Issue(row.value.code, row.value.expires, row.value.attempts))
    && (forall i | 0 <= i < |issues| :: issues[i].misses <= MAX_ATTEMPTS)
  }

  ghost predicate WellFounded(a: Account, row: Option<Row>, issues: seq<Issue>) {
    && a.issue < |issues|
    && (row.Some? ==> row.value.issue != a.issue)
    && a.code == issues[a.issue].code
    && a.start < issues[a.issue].expires
    && issues[a.issue].misses < MAX_ATTEMPTS
  }

  ghost predicate AccountsInv(row: Option<Row>, issues: seq<Issue>, accounts: seq<Account>) {
    && (forall a <- accounts :: WellFounded(a, row, issues))
    && (forall i, j | 0 <= i < j < |accounts| :: accounts[i].issue != accounts[j].issue)
  }

  ghost predicate RowLockInv(rowLock: Option<nat>, txs: map<nat, Tx>) {
    && (forall id <- txs :: txs[id].HoldsRow() ==> rowLock == Some(id))
    && (rowLock.Some? ==> rowLock.value in txs && txs[rowLock.value].HoldsRow())
  }

  ghost predicate MailboxLockInv(mailboxLock: Option<nat>, txs: map<nat, Tx>) {
    && (forall id <- txs :: txs[id].HoldsMailbox() ==> mailboxLock == Some(id))
    && (mailboxLock.Some? ==> mailboxLock.value in txs && txs[mailboxLock.value].HoldsMailbox())
  }

  /** What a transaction has found out is still so. */
  ghost predicate TxInv(tx: Tx, row: Option<Row>, taken: bool) {
    match tx
    case Holding(code, start, read) => row == Some(read) && Live(row, start)
    case Written(code, start, effect) =>
      && Live(row, start)
      && (effect == Drop <==> row.value.attempts >= MAX_ATTEMPTS)
      && (effect == Register ==> row.value.code == code && !taken)
      && (effect == Bump ==> row.value.code != code)
    case Cooled(_, clock) => !CoolingDown(row, clock)
    case Upserted(_, clock, _) => !CoolingDown(row, clock)
    case _ => true
  }

  ghost predicate TxsInv(txs: map<nat, Tx>, row: Option<Row>, taken: bool) {
    forall id <- txs :: TxInv(txs[id], row, taken)
  }

  ghost predicate Inv(s: State) {
    && RowIsLatest(s.row, s.issues)
    && AccountsInv(s.row, s.issues, s.accounts)
    && RowLockInv(s.rowLock, s.txs)
    && MailboxLockInv(s.mailboxLock, s.txs)
    && TxsInv(s.txs, s.row, s.taken)
  }

  /** One transaction moves on without touching the tables. */
  lemma MoveKeepsInv(s: State, t: State, id: nat, tx: Tx)
    requires Inv(s) && t == s.(txs := s.txs[id := tx], rowLock := t.rowLock, mailboxLock := t.mailboxLock)
    requires TxInv(tx, s.row, s.taken)
    requires t.rowLock == if tx.HoldsRow() then Some(id) else s.rowLock
    requires t.mailboxLock == if tx.HoldsMailbox() then Some(id) else s.mailboxLock
    requires tx.HoldsRow() ==> s.rowLock.None? || s.rowLock == Some(id)
    requires tx.HoldsMailbox() ==> s.mailboxLock.None? || s.mailboxLock == Some(id)
    requires id in s.txs && s.txs[id].HoldsRow() ==> tx.HoldsRow()
    requires id in s.txs && s.txs[id].HoldsMailbox() ==> tx.HoldsMailbox()
    requires id !in s.txs ==> s.rowLock != Some(id) && s.mailboxLock != Some(id)
    ensures Inv(t)
  {
  }

  lemma LeaveKeepsInv(s: State, id: nat)
    requires Inv(s)
    ensures Inv(s.Without(id))
  {
  }

  /** Only the transaction that holds the row knows anything about it, apart from a send that has passed its check. */
  lemma OthersKeepTxInv(s: State, id: nat, row: Option<Row>, taken: bool)
    requires Inv(s) && id in s.txs && s.rowLock == Some(id)
    requires row.Some? ==> s.row.Some? && row.value.created == s.row.value.created
    ensures TxsInv(s.txs - {id}, row, taken)
  {
    forall k | k in s.txs - {id} ensures TxInv(s.txs[k], row, taken) {
      assert !s.txs[k].HoldsRow();
    }
  }

  lemma CommittedKeepsInv(s: State, id: nat)
    requires Inv(s) && id in s.txs && s.txs[id].Written?
    ensures Inv(Step(s, Commit(id)))
  {
    var tx := s.txs[id];
    var t := Step(s, Commit(id));
    var u := Committed(Noted(s, tx), tx);
    assert TxInv(tx, s.row, s.taken);
    OthersKeepTxInv(s, id, u.row, u.taken);
    assert RowIsLatest(t.row, t.issues);
    forall a | a in t.accounts ensures WellFounded(a, t.row, t.issues) {
      assert a in s.accounts ==> WellFounded(a, s.row, s.issues);
    }
    forall i | 0 <= i < |s.accounts| ensures WellFounded(s.accounts[i], s.row, s.issues) {
      assert s.accounts[i] in s.accounts;
    }
  }

  lemma IssuedKeepsInv(s: State, id: nat)
    requires Inv(s) && id in s.txs && s.txs[id].Upserted?
    ensures Inv(Step(s, Commit(id)))
  {
    var t := Step(s, Commit(id));
    forall a | a in t.accounts ensures WellFounded(a, t.row, t.issues) {
      assert WellFounded(a, s.row, s.issues);
    }
    forall k | k in t.txs ensures TxInv(t.txs[k], t.row, t.taken) {
      assert !s.txs[k].HoldsRow() && !s.txs[k].HoldsMailbox();
    }
  }

  lemma LookKeepsInv(s: State, id: nat)
    requires Inv(s)
    ensures Inv(LookStep(s, id))
  {
    var t := LookStep(s, id);
    LeaveKeepsInv(s, id);
    if id in s.txs && s.txs[id].Selecting? && id in t.txs {
      MoveKeepsInv(s, t, id, t.txs[id]);
    }
  }

  lemma SelectKeepsInv(s: State, id: nat)
    requires Inv(s)
    ensures Inv(SelectStep(s, id))
  {
    var t := SelectStep(s, id);
    LeaveKeepsInv(s, id);
    if t.txs != s.txs && id in t.txs {
      MoveKeepsInv(s, t, id, t.txs[id]);
    }
  }

  lemma WriteKeepsInv(s: State, id: nat)
    requires Inv(s)
    ensures Inv(WriteStep(s, id))
  {
    var t := WriteStep(s, id);
    LeaveKeepsInv(s, id);
    if id in s.txs && s.txs[id].Holding? && id in t.txs {
      assert TxInv(s.txs[id], s.row, s.taken);
      MoveKeepsInv(s, t, id, t.txs[id]);
    }
  }

  lemma CheckKeepsInv(s: State, id: nat, clock: Instant)
    requires Inv(s)
    ensures Inv(CheckStep(s, id, clock))
  {
    var t := CheckStep(s, id, clock);
    LeaveKeepsInv(s, id);
    if id in s.txs && s.txs[id].Checking? && id in t.txs {
      MoveKeepsInv(s, t, id, t.txs[id]);
    }
  }

  lemma UpsertKeepsInv(s: State, id: nat, code: string)
    requires Inv(s)
    ensures Inv(UpsertStep(s, id, code))
  {
    var t := UpsertStep(s, id, code);
    if id in s.txs && s.txs[id].Cooled? && s.rowLock.None? {
      assert TxInv(s.txs[id], s.row, s.taken);
      MoveKeepsInv(s, t, id, t.txs[id]);
    }
  }

  lemma LockKeepsInv(s: State, id: nat)
    requires Inv(s)
    ensures Inv(Step(s, LockMailbox(id)))
  {
    if id in s.txs && s.txs[id].Queued? && s.mailboxLock.None? {
      var t := Step(s, LockMailbox(id));
      MoveKeepsInv(s, t, id, t.txs[id]);
    }
  }

  lemma CommitKeepsInv(s: State, id: nat)
    requires Inv(s)
    ensures Inv(Step(s, Commit(id)))
  {
    if id in s.txs && s.txs[id].Written? {
      CommittedKeepsInv(s, id);
    } else if id in s.txs && s.txs[id].Upserted? {
      IssuedKeepsInv(s, id);
    }
  }

  lemma VacateKeepsInv(s: State)
    requires Inv(s)
    ensures Inv(Step(s, Vacate))
  {
    forall k | k in s.txs ensures TxInv(s.txs[k], s.row, false) {
      assert TxInv(s.txs[k], s.row, s.taken);
    }
  }

  lemma BeginKeepsInv(s: State, id: nat, tx: Tx)
    requires Inv(s) && id !in s.txs && (tx.Selecting? || tx.Queued?)
    ensures Inv(s.(txs := s.txs[id := tx]))
  {
    MoveKeepsInv(s, s.(txs := s.txs[id := tx]), id, tx);
  }

  lemma StepKeepsInv(s: State, action: Action)
    requires Inv(s)
    ensures Inv(Step(s, action))
  {
    match action
    case Submit(id, code, start) =>
      if id !in s.txs { BeginKeepsInv(s, id, Selecting(code, start)); }
    case Look(id) => LookKeepsInv(s, id);
    case Select(id) => SelectKeepsInv(s, id);
    case Write(id) => WriteKeepsInv(s, id);
    case Send(id, start) =>
      if id !in s.txs { BeginKeepsInv(s, id, Queued(start)); }
    case LockMailbox(id) => LockKeepsInv(s, id);
    case CheckCooldown(id, clock) => CheckKeepsInv(s, id, clock);
    case Upsert(id, code) => UpsertKeepsInv(s, id, code);
    case Commit(id) => CommitKeepsInv(s, id);
    case Abort(id) => LeaveKeepsInv(s, id);
    case Vacate => VacateKeepsInv(s);
  }

  lemma {:induction false} RunKeepsInv(s: State, schedule: seq<Action>)
    requires Inv(s)
    ensures Inv(Run(s, schedule))
    decreases |schedule|
  {
    if schedule != [] {
      RunKeepsInv(s, schedule[..|schedule| - 1]);
      StepKeepsInv(Run(s, schedule[..|schedule| - 1]), schedule[|schedule| - 1]);
    }
  }

  // ----- theorems -----

  /** In every run, `attempts` is the number of mismatches counted for the stored code, and never more than five. */
  lemma AttemptsAreBounded(taken: bool, schedule: seq<Action>)
    ensures var s := Run(Initial(taken), schedule);
      && (s.row.Some? ==> s.row.value.issue < |s.issues|
                          && s.row.value.attempts == s.issues[s.row.value.issue].misses <= 5)
      && (forall i <- s.issues :: i.misses <= 5)
  {
    RunKeepsInv(Initial(taken), schedule);
  }

  /** In every run, each issued code creates at most one account, with that very code and before it expires. */
  lemma OneAccountPerCode(taken: bool, schedule: seq<Action>, i: nat, j: nat)
    requires i < j < |Run(Initial(taken), schedule).accounts|
    ensures var s := Run(Initial(taken), schedule);
      s.accounts[i].issue != s.accounts[j].issue
  {
    RunKeepsInv(Initial(taken), schedule);
  }

  lemma AccountsUseTheirCode(taken: bool, schedule: seq<Action>, a: Account)
    requires a in Run(Initial(taken), schedule).accounts
    ensures var s := Run(Initial(taken), schedule);
      && a.issue < |s.issues|
      && a.code == s.issues[a.issue].code
      && a.start < s.issues[a.issue].expires
      && s.issues[a.issue].misses < 5
  {
    RunKeepsInv(Initial(taken), schedule);
    assert WellFounded(a, Run(Initial(taken), schedule).row, Run(Initial(taken), schedule).issues);
  }

  /** Counts and records only grow. */
  ghost predicate Grows(s: State, t: State) {
    && s.accounts <= t.accounts
    && |s.issues| <= |t.issues|
    && (forall i | 0 <= i < |s.issues| :: s.issues[i].misses <= t.issues[i].misses)
  }

  lemma {:induction false} HistoryGrows(s: State, schedule: seq<Action>)
    ensures Grows(s, Run(s, schedule))
    decreases |schedule|
  {
    if schedule != [] {
      var n := |schedule| - 1;
      HistoryGrows(s, schedule[..n]);
      StepGrows(Run(s, schedule[..n]), schedule[n]);
    }
  }

  lemma StepGrows(s: State, action: Action)
    ensures Grows(s, Step(s, action))
  {
  }

  /** After five wrong submissions were counted for a code, no run ever creates an account with it. */
  lemma ExhaustedCodeNeverRegisters(taken: bool, before: seq<Action>, after: seq<Action>, issue: nat)
    requires var s := Run(Initial(taken), before);
      issue < |s.issues| && s.issues[issue].misses == 5
    ensures forall a <- Run(Run(Initial(taken), before), after).accounts :: a.issue != issue
  {
    var s := Run(Initial(taken), before);
    RunKeepsInv(Initial(taken), before);
    RunKeepsInv(s, after);
    HistoryGrows(s, after);
    var t := Run(s, after);
    forall a | a in t.accounts ensures a.issue != issue {
      assert WellFounded(a, t.row, t.issues);
    }
  }

  lemma StepCountsAccounts(s: State, action: Action)
    requires Inv(s) && action != Vacate
    ensures s.taken ==> Step(s, action).taken
    ensures |Step(s, action).accounts| == |s.accounts| + if Step(s, action).taken && !s.taken then 1 else 0
  {
    if action.Commit? && action.id in s.txs {
      assert TxInv(s.txs[action.id], s.row, s.taken);
    }
  }

  /** Unless accounts are removed by other means, a mailbox gets at most one account, and none when it had one. */
  lemma {:induction false} OneAccountPerMailbox(taken: bool, schedule: seq<Action>)
    requires Vacate !in schedule
    ensures taken ==> Run(Initial(taken), schedule).taken
    ensures |Run(Initial(taken), schedule).accounts| == if Run(Initial(taken), schedule).taken && !taken then 1 else 0
    decreases |schedule|
  {
    if schedule != [] {
      var n := |schedule| - 1;
      OneAccountPerMailbox(taken, schedule[..n]);
      RunKeepsInv(Initial(taken), schedule[..n]);
      assert schedule[n] in schedule;
      StepCountsAccounts(Run(Initial(taken), schedule[..n]), schedule[n]);
    }
  }

  /**
    Every submission that commits does to the committed tables exactly what the handler
    run alone at that moment would do, and so does every send.
  */
  lemma CommitsAreAtomic(s: State, id: nat)
    requires Inv(s) && id in s.txs
    ensures var t := Step(s, Commit(id));
      && (s.txs[id].Written? ==>
            (t.row, t.taken) == (Submitted(s.row, s.taken, s.txs[id].code, s.txs[id].start).0,
                                 Submitted(s.row, s.taken, s.txs[id].code, s.txs[id].start).1)
            && (|t.accounts| > |s.accounts|
                <==> Submitted(s.row, s.taken, s.txs[id].code, s.txs[id].start).2 == Registered))
      && (s.txs[id].Upserted? ==>
            (t.row, Sent) == SentCode(s.row, s.txs[id].newCode, s.txs[id].start, s.txs[id].clock, |s.issues|))
  {
    assert TxInv(s.txs[id], s.row, s.taken);
  }

  /** Nobody holds the row or the mailbox. */
  predicate Quiet(s: State) {
    s.rowLock.None? && s.mailboxLock.None?
  }

  /** A submission whose steps nothing disturbs does what the handler run alone does. */
  lemma SubmissionRunsAlone(s: State, id: nat, code: string, start: Instant)
    requires Quiet(s) && id !in s.txs
    ensures var looked := Step(Step(s, Submit(id, code, start)), Look(id));
      var t := Step(Step(Step(looked, Select(id)), Write(id)), Commit(id));
      && (t.row, t.taken) == (Submitted(s.row, s.taken, code, start).0, Submitted(s.row, s.taken, code, start).1)
      && id !in t.txs && Quiet(t)
  {
    var submitted := Step(s, Submit(id, code, start));
    var looked := Step(submitted, Look(id));
    if Live(s.row, start) {
      assert looked.txs[id] == Waiting(code, start, s.inserted);
      var selected := Step(looked, Select(id));
      assert selected.txs[id] == Holding(code, start, s.row.value);
      var written := Step(selected, Write(id));
      assert written.row == s.row && written.taken == s.taken;
    } else {
      assert id !in looked.txs && looked.row == s.row && looked.taken == s.taken;
    }
  }

  /** A send whose steps nothing disturbs does what the handler run alone does. */
  lemma SendRunsAlone(s: State, id: nat, code: string, start: Instant, clock: Instant)
    requires Quiet(s) && id !in s.txs
    ensures var checked := Step(Step(Step(s, Send(id, start)), LockMailbox(id)), CheckCooldown(id, clock));
      var t := Step(Step(checked, Upsert(id, code)), Commit(id));
      var (row, outcome) := SentCode(s.row, code, start, clock, |s.issues|);
      && t.row == row && t.taken == s.taken
      && |t.issues| == |s.issues| + (if outcome.Sent? then 1 else 0)
      && id !in t.txs && Quiet(t)
  {
    var locked := Step(Step(s, Send(id, start)), LockMailbox(id));
    assert locked.txs[id] == Checking(start) && locked.row == s.row && locked.mailboxLock == Some(id);
    var checked := Step(locked, CheckCooldown(id, clock));
    if CoolingDown(s.row, clock) {
      assert id !in checked.txs;
    } else {
      assert checked.txs[id] == Cooled(start, clock);
      var upserted := Step(checked, Upsert(id, code));
      assert upserted.txs[id] == Upserted(start, clock, code);
    }
  }

  /** A transaction that is aborted changes no table and holds nothing afterwards. */
  lemma AbortChangesNothing(s: State, id: nat)
    ensures var t := Step(s, Abort(id));
      && t == s.(txs := t.txs, rowLock := t.rowLock, mailboxLock := t.mailboxLock)
      && id !in t.txs && t.rowLock != Some(id) && t.mailboxLock != Some(id)
  {
  }

  /** A refused send is refused by the handler run alone at the moment of its check. */
  lemma SendRefusalsAreAtomic(s: State, id: nat, code: string, clock: Instant)
    requires id in s.txs && s.txs[id].Checking? && id !in Step(s, CheckCooldown(id, clock)).txs
    ensures Step(s, CheckCooldown(id, clock)).row == s.row
    ensures SentCode(s.row, code, s.txs[id].start, clock, |s.issues|).0 == s.row
    ensures SentCode(s.row, code, s.txs[id].start, clock, |s.issues|).1.RateLimited?
  {
  }

  /** The state after the first `k` actions. */
  function At(taken: bool, schedule: seq<Action>, k: nat): State
    requires k <= |schedule|
  {
    Run(Initial(taken), schedule[..k])
  }

  /** From moment `k` to the end of the schedule `id` waits with what it saw. */
  ghost predicate WaitsSince(taken: bool, schedule: seq<Action>, k: nat, id: nat, tx: Tx) {
    && k <= |schedule|
    && forall j | k <= j <= |schedule| ::
      id in At(taken, schedule, j).txs && At(taken, schedule, j).txs[id] == tx
  }

  lemma WaitsOneMore(taken: bool, schedule: seq<Action>, k: nat, id: nat, tx: Tx)
    requires schedule != [] && WaitsSince(taken, schedule[..|schedule| - 1], k, id, tx)
    requires id in At(taken, schedule, |schedule|).txs && At(taken, schedule, |schedule|).txs[id] == tx
    ensures WaitsSince(taken, schedule, k, id, tx) && At(taken, schedule, k) == At(taken, schedule[..|schedule| - 1], k)
  {
    var before := schedule[..|schedule| - 1];
    forall j | 0 <= j <= |before| ensures At(taken, schedule, j) == At(taken, before, j) {
      assert schedule[..j] == before[..j];
    }
  }

  /** What one step does to a transaction that waits afterwards. */
  lemma StepWhileWaiting(s: State, action: Action, id: nat)
    requires id in Step(s, action).txs && Step(s, action).txs[id].Waiting?
    ensures (id in s.txs && s.txs[id] == Step(s, action).txs[id])
            || Step(s, action).inserted == Step(s, action).txs[id].seen
    ensures s.row.Some? && Step(s, action).row.Some? ==> Step(s, action).inserted == s.inserted
  {
  }

  /** When the row a submission waits for is not there any more, there was a moment without a row while it waited. */
  lemma {:induction false} SeenRowWasDeleted(taken: bool, schedule: seq<Action>, id: nat) returns (k: nat)
    requires var s := Run(Initial(taken), schedule);
      id in s.txs && s.txs[id].Waiting? && (s.row.None? || s.inserted != s.txs[id].seen)
    ensures WaitsSince(taken, schedule, k, id, Run(Initial(taken), schedule).txs[id])
    ensures At(taken, schedule, k).row.None?
    decreases |schedule|
  {
    var t := Run(Initial(taken), schedule);
    assert schedule[..|schedule|] == schedule;
    k := |schedule|;
    if t.row.Some? {
      var n := |schedule| - 1;
      StepWhileWaiting(Run(Initial(taken), schedule[..n]), schedule[n], id);
      k := SeenRowWasDeleted(taken, schedule[..n], id);
      WaitsOneMore(taken, schedule, k, id, t.txs[id]);
    }
  }

  /** The submission ends in this step, by an answer of its own and without a commit. */
  ghost predicate Refuses(s: State, action: Action, id: nat) {
    && action in {Look(id), Select(id), Write(id)}
    && id in s.txs && id !in Step(s, action).txs
  }

  /**
    At moment `k`, with `id` under way from then on, the handler run alone would
    have given the answer and changed nothing.
   */
  ghost predicate RefusedAlone(taken: bool, schedule: seq<Action>, k: nat, id: nat, tx: Tx, answer: SubmitOutcome)
    requires tx.Selecting? || tx.Waiting? || tx.Holding?
  {
    && WaitsSince(taken, schedule, k, id, tx)
    && var s := At(taken, schedule, k);
      Submitted(s.row, s.taken, tx.code, tx.start) == (s.row, s.taken, answer)
  }

  /**
    A submission that ends without a commit, and is not aborted, changes no table,
    and there was a moment while it was under way at which the handler run alone
    would have given the same answer and changed nothing.
   */
  lemma RefusalsAreAtomic(taken: bool, schedule: seq<Action>, action: Action, id: nat) returns (k: nat)
    requires Refuses(Run(Initial(taken), schedule), action, id)
    ensures var s := Run(Initial(taken), schedule);
      && Step(s, action).row == s.row && Step(s, action).taken == s.taken
      && (s.txs[id].Selecting? || s.txs[id].Waiting? || s.txs[id].Holding?)
      && RefusedAlone(taken, schedule, k, id, s.txs[id], if action.Write? then Conflict else Unauthorized)
  {
    var s := Run(Initial(taken), schedule);
    assert schedule[..|schedule|] == schedule;
    RunKeepsInv(Initial(taken), schedule);
    assert TxInv(s.txs[id], s.row, s.taken);
    k := |schedule|;
    if s.txs[id].Waiting? && s.inserted != s.txs[id].seen {
      k := SeenRowWasDeleted(taken, schedule, id);
    }
  }

  /** A code that replaces a stored one was sent at least a minute after it. */
  lemma CooldownHolds(taken: bool, schedule: seq<Action>, id: nat)
    requires var s := Run(Initial(taken), schedule);
      id in s.txs && s.txs[id].Upserted? && s.row.Some?
    ensures var s := Run(Initial(taken), schedule);
      s.txs[id].clock - s.row.value.created >= 60_000_000
  {
    var s := Run(Initial(taken), schedule);
    RunKeepsInv(Initial(taken), schedule);
    assert TxInv(s.txs[id], s.row, s.taken);
  }
}
