/**
  The friendship endpoints as concurrent transactions.

  A transaction is a program counter over the SQL statements of its handler, a
  private `Delta` of uncommitted rows, and the advisory lock on its user pair.
  Each statement reads the committed tables as they are when it executes
  (READ COMMITTED) overlaid with the transaction's own rows. Labels are executed
  one at a time in any order; a label that cannot proceed leaves the state as
  it is, so every sequence of labels is a schedule.
 */
module FriendshipProtocol {
  import opened SocialTables

  type TxId = nat

  datatype Pc =
    | Start
    | AwaitLock
    | CheckUser
    | CheckBlocked
    | CheckPolicy
    | CheckFriends
    | FindOwn
    | FindReverse
    | InsertRequest
    | Requery
    | SelectForUpdate
    | InsertFriendship(sender: UserId)
    | MarkRequest(sender: UserId)
    | CancelOthers(sender: UserId)
    | DeleteFriendship
    | InsertBlock
    | CancelPending
    | Closing(outcome: Outcome)
    | Ended(outcome: Outcome)

  /** `rows` are the request rows whose row lock the transaction holds. */
  datatype Tx = Tx(op: Op, pc: Pc, pair: Pair, newId: RequestId, rows: set<RequestId>, delta: Delta) {
    /** The transaction holds the advisory lock of its pair. */
    predicate InSection() {
      !pc.Start? && !pc.AwaitLock? && !pc.Ended?
    }
  }

  datatype Issue = Issue(tx: TxId, pair: Pair)

  datatype Entry = Entry(op: Op, pair: Pair, newId: RequestId, outcome: Outcome)

  /**
    `lastId` is the request id sequence, which no rollback turns back. The last
    four fields only record what happened: the transaction each id was drawn
    by, the order in which the pair locks were acquired, how each of those
    transactions ended unless it was aborted, and the friendship rows deleted.
   */
  datatype State = State(
    tables: Tables,
    lastId: RequestId,
    locks: map<Pair, TxId>,
    txs: map<TxId, Tx>,
    issued: map<RequestId, Issue>,
    history: seq<TxId>,
    done: map<TxId, Entry>,
    removals: multiset<Pair>)

  datatype Label =
    | Begin(tx: TxId, op: Op)
    | Advance(tx: TxId)
    | Abort(tx: TxId)
    | Unblock(viewer: UserId, other: UserId)
    | SetPreferences(user: UserId, preferences: Preferences)

  function Init(users: set<UserId>, preferences: map<UserId, Preferences>): State {
    State(Tables(users, preferences, map[], {}, {}), 0, map[], map[], map[], [], map[], multiset{})
  }

  /** The statement after `lock_pair` in each handler. */
  function FirstLocked(op: Op): Pc {
    match op
    case Create(_, _, _) => CheckUser
    case Accept(_, _) => SelectForUpdate
    case Reject(_, _) => SelectForUpdate
    case Cancel(_, _) => SelectForUpdate
    case Remove(_, _) => DeleteFriendship
    case Block(_, _) => InsertBlock
  }

  /** What precedes the pair lock: validation, and for a request id the plain read of its pair. */
  function Prepare(tx: Tx, v: Tables): Tx {
    if tx.op.viewer !in v.users then tx.(pc := Ended(Unauthenticated))
    else if !tx.op.WellFormed() then tx.(pc := Ended(Invalid))
    else if tx.op.OnRequest() then
      if tx.op.id !in v.requests then tx.(pc := Ended(RequestNotFound))
      else tx.(pc := AwaitLock, pair := v.requests[tx.op.id].Users())
    else if tx.op.Block? && tx.op.other !in v.users then tx.(pc := Ended(UserNotFound))
    else tx.(pc := AwaitLock, pair := PairOf(tx.op.viewer, tx.op.other))
  }

  function SelectRow(tx: Tx, v: Tables): Tx
    requires tx.op.OnRequest()
  {
    if tx.op.id !in v.requests then tx.(pc := Closing(RequestNotFound))
    else
      var row := v.requests[tx.op.id];
      var locked := tx.(rows := tx.rows + {tx.op.id});
      if tx.op.viewer != (if tx.op.Cancel? then row.sender else row.recipient) then locked.(pc := Closing(Forbidden))
      else if row.status != Pending then locked.(pc := Closing(NotPending))
      else if tx.op.Accept? then locked.(pc := InsertFriendship(row.sender))
      else locked.(pc := MarkRequest(row.sender))
  }

  function WithRows(tx: Tx, rows: map<RequestId, Request>, pc: Pc): Tx {
    tx.(pc := pc, rows := tx.rows + rows.Keys, delta := tx.delta.(requests := tx.delta.requests + rows))
  }

  function StatusSetBy(op: Op): Status {
    match op
    case Accept(_, _) => Accepted
    case Reject(_, _) => Rejected
    case _ => Cancelled
  }

  /** One SQL statement under the pair lock. `v` is what the statement sees, `nextId` the next sequence value. */
  ghost function Statement(tx: Tx, v: Tables, nextId: RequestId): Tx {
    match (tx.pc, tx.op)
    case (CheckUser, Create(_, r, _)) =>
      tx.(pc := if r in v.users then CheckBlocked else Closing(UserNotFound))
    case (CheckBlocked, Create(s, r, _)) =>
      tx.(pc := if v.BlockedEither(s, r) then Closing(Forbidden) else CheckPolicy)
    case (CheckPolicy, Create(_, r, _)) =>
      tx.(pc := if v.RefusesRequests(r) then Closing(Forbidden) else CheckFriends)
    case (CheckFriends, Create(s, r, _)) =>
      tx.(pc := if v.AreFriends(s, r) then Closing(RelationshipChanged) else FindOwn)
    case (FindOwn, Create(s, r, _)) =>
      tx.(pc := if v.PendingFrom(s, r) != {} then Closing(Existing(Pick(v.PendingFrom(s, r)))) else FindReverse)
    case (FindReverse, Create(s, r, _)) =>
      tx.(pc := if v.PendingFrom(r, s) != {} then Closing(RelationshipChanged) else InsertRequest)
    case (InsertRequest, Create(s, r, message)) =>
      if v.PendingFrom(s, r) != {} then tx.(pc := Requery)
      else tx.(pc := Closing(Created(nextId)), newId := nextId,
               delta := tx.delta.(requests := tx.delta.requests[nextId := Request(s, r, message, Pending)]))
    case (Requery, Create(s, r, _)) =>
      tx.(pc := Closing(if v.PendingFrom(s, r) != {} then Created(Pick(v.PendingFrom(s, r))) else RelationshipChanged))
    case (SelectForUpdate, op) =>
      if op.OnRequest() then SelectRow(tx, v) else tx
    case (InsertFriendship(s), Accept(r, _)) =>
      var p := PairOf(r, s);
      tx.(pc := MarkRequest(s), delta := tx.delta.(friendAdds := tx.delta.friendAdds + ({p} - v.friendships)))
    case (MarkRequest(s), op) =>
      var next := if op.Accept? then CancelOthers(s) else Closing(Done);
      if op.OnRequest() && op.id in v.requests
      then WithRows(tx, map[op.id := v.requests[op.id].(status := StatusSetBy(op))], next)
      else tx.(pc := next)
    case (CancelOthers(s), Accept(r, i)) =>
      WithRows(tx, CancelAll(v, PairOf(r, s), {i}), Closing(Done))
    case (DeleteFriendship, Remove(s, o)) =>
      tx.(pc := Closing(Done), delta := tx.delta.(friendDels := tx.delta.friendDels + v.friendships * {PairOf(s, o)}))
    case (InsertBlock, Block(s, o)) =>
      tx.(pc := CancelPending, delta := tx.delta.(blocks := tx.delta.blocks + ({(s, o)} - v.blocks)))
    case (CancelPending, Block(s, o)) =>
      WithRows(tx, CancelAll(v, PairOf(s, o), {}), Closing(Done))
    case _ => tx
  }

  /** The row locks and uncommitted keys of the database that a transaction can make another wait for. */
  datatype Key =
    | RowKey(id: RequestId)
    | PendingKey(sender: UserId, recipient: UserId)
    | FriendKey(pair: Pair)
    | BlockKey(viewer: UserId, other: UserId)

  function Touches(tx: Tx): set<Key> {
    (set i | i in tx.rows :: RowKey(i))
    + (set i | i in tx.delta.requests :: PendingKey(tx.delta.requests[i].sender, tx.delta.requests[i].recipient))
    + (set p | p in tx.delta.friendAdds + tx.delta.friendDels :: FriendKey(p))
    + (set b | b in tx.delta.blocks :: BlockKey(b.0, b.1))
  }

  /** The keys the next statement of `tx` must be able to lock or insert. */
  function Needs(tx: Tx, v: Tables): set<Key> {
    match (tx.pc, tx.op)
    case (InsertRequest, Create(s, r, _)) => {PendingKey(s, r)}
    case (SelectForUpdate, op) => if op.OnRequest() then {RowKey(op.id)} else {}
    case (MarkRequest(_), op) => if op.OnRequest() then {RowKey(op.id)} else {}
    case (InsertFriendship(s), Accept(r, _)) => {FriendKey(PairOf(r, s))}
    case (CancelOthers(s), Accept(r, i)) => set j | j in v.PendingIn(PairOf(r, s)) - {i} :: RowKey(j)
    case (DeleteFriendship, Remove(s, o)) => {FriendKey(PairOf(s, o))}
    case (InsertBlock, Block(s, o)) => {BlockKey(s, o)}
    case (CancelPending, Block(s, o)) => set i | i in v.PendingIn(PairOf(s, o)) :: RowKey(i)
    case _ => {}
  }

  /** `t` waits for a row or a unique key that `u` holds. */
  ghost predicate WaitsForRow(s: State, t: TxId, u: TxId) {
    && t in s.txs && u in s.txs && t != u
    && s.txs[t].InSection() && s.txs[u].InSection()
    && Needs(s.txs[t], Overlay(s.tables, s.txs[t].delta)) * Touches(s.txs[u]) != {}
  }

  /** `t` waits for the pair lock that `u` holds. */
  ghost predicate WaitsForLock(s: State, t: TxId, u: TxId) {
    && t in s.txs && s.txs[t].pc.AwaitLock?
    && s.txs[t].pair in s.locks && s.locks[s.txs[t].pair] == u
  }

  ghost predicate WaitsFor(s: State, t: TxId, u: TxId) {
    WaitsForRow(s, t, u) || WaitsForLock(s, t, u)
  }

  /** The rows that closing the transaction makes visible: an error rolls it back. */
  function Published(tx: Tx): Delta
    requires tx.pc.Closing?
  {
    if tx.pc.outcome.Succeeds() then tx.delta else NO_CHANGE
  }

  /** The transaction's rows become visible if it succeeded, and its locks are released. */
  function Close(s: State, t: TxId): State
    requires t in s.txs && s.txs[t].pc.Closing?
  {
    var tx := s.txs[t];
    s.(tables := Overlay(s.tables, Published(tx)),
       locks := s.locks - {tx.pair},
       txs := s.txs[t := tx.(pc := Ended(tx.pc.outcome), rows := {}, delta := NO_CHANGE)],
       done := s.done[t := Entry(tx.op, tx.pair, tx.newId, tx.pc.outcome)],
       removals := s.removals + multiset(Published(tx).friendDels))
  }

  function Acquire(s: State, t: TxId): State
    requires t in s.txs
  {
    var tx := s.txs[t];
    if tx.pair in s.locks then s
    else s.(locks := s.locks[tx.pair := t],
            txs := s.txs[t := tx.(pc := FirstLocked(tx.op))],
            history := s.history + [t])
  }

  ghost function Execute(s: State, t: TxId): State
    requires t in s.txs
  {
    var tx := s.txs[t];
    if exists u :: WaitsForRow(s, t, u) then s
    else
      var tx' := Statement(tx, Overlay(s.tables, tx.delta), s.lastId + 1);
      if tx.pc.InsertRequest?
      then s.(txs := s.txs[t := tx'], lastId := s.lastId + 1, issued := s.issued[s.lastId + 1 := Issue(t, tx.pair)])
      else s.(txs := s.txs[t := tx'])
  }

  ghost function Next(s: State, l: Label): State {
    match l
    case Begin(t, op) =>
      if t in s.txs then s
      else s.(txs := s.txs[t := Tx(op, Start, PairOf(0, 0), 0, {}, NO_CHANGE)])
    case Advance(t) =>
      if t !in s.txs || s.txs[t].pc.Ended? then s
      else if s.txs[t].pc.Start? then s.(txs := s.txs[t := Prepare(s.txs[t], s.tables)])
      else if s.txs[t].pc.AwaitLock? then Acquire(s, t)
      else if s.txs[t].pc.Closing? then Close(s, t)
      else Execute(s, t)
    case Abort(t) =>
      if t !in s.txs || s.txs[t].pc.Ended? then s
      else
        var tx := s.txs[t];
        s.(txs := s.txs[t := tx.(pc := Ended(Aborted), rows := {}, delta := NO_CHANGE)],
           locks := if tx.InSection() then s.locks - {tx.pair} else s.locks)
    case Unblock(v, o) =>
      if v in s.tables.users && 0 < o <= MAX_I32 && o != v
      then s.(tables := s.tables.(blocks := s.tables.blocks - {(v, o)})) else s
    case SetPreferences(u, p) =>
      if u in s.tables.users then s.(tables := s.tables.(preferences := s.tables.preferences[u := p])) else s
  }

  /** The state after a schedule. */
  ghost function Run(users: set<UserId>, preferences: map<UserId, Preferences>, schedule: seq<Label>): State {
    if schedule == [] then Init(users, preferences)
    else Next(Run(users, preferences, schedule[..|schedule| - 1]), schedule[|schedule| - 1])
  }
}
