/**
  The three social tables, the rows a transaction has written but not yet
  committed, and what each of the six pair-locked requests means when it runs
  alone.
 */
module SocialTables {

  type UserId = int
  type RequestId = int

  const MAX_I32: int := 0x7FFF_FFFF

  /** An unordered pair of users, keyed as the advisory lock and the friendship table key it. */
  datatype Pair = Pair(low: UserId, high: UserId)

  function PairOf(a: UserId, b: UserId): Pair {
    if a <= b then Pair(a, b) else Pair(b, a)
  }

  datatype Status = Pending | Accepted | Rejected | Cancelled

  datatype Request = Request(sender: UserId, recipient: UserId, message: string, status: Status) {
    function Users(): Pair {
      PairOf(sender, recipient)
    }
  }

  datatype MessagePolicy = Everyone | Friends | Nobody

  datatype RequestPolicy = OpenToRequests | NoRequests

  datatype Preferences = Preferences(message: MessagePolicy, request: RequestPolicy)

  datatype Tables = Tables(
    users: set<UserId>,
    preferences: map<UserId, Preferences>,
    requests: map<RequestId, Request>,
    friendships: set<Pair>,
    blocks: set<(UserId, UserId)>)
  {
    predicate BlockedEither(a: UserId, b: UserId) {
      (a, b) in blocks || (b, a) in blocks
    }

    predicate AreFriends(a: UserId, b: UserId) {
      PairOf(a, b) in friendships
    }

    predicate RefusesRequests(u: UserId) {
      u in preferences && preferences[u].request == NoRequests
    }

    /** The pending requests from one user to another: at most one, by the partial unique index. */
    function PendingFrom(sender: UserId, recipient: UserId): set<RequestId> {
      set i | i in requests && requests[i].status == Pending
              && requests[i].sender == sender && requests[i].recipient == recipient
    }

    /** The pending requests of an unordered pair, in either direction. */
    function PendingIn(p: Pair): set<RequestId> {
      set i | i in requests && requests[i].status == Pending && requests[i].Users() == p
    }

    /** The accepted requests of an unordered pair. */
    function AcceptedIn(p: Pair): set<RequestId> {
      set i | i in requests && requests[i].status == Accepted && requests[i].Users() == p
    }

    /** The rows that concern one pair; users and preferences are kept. */
    function Restrict(p: Pair): Tables {
      Tables(users, preferences,
             map i | i in requests && requests[i].Users() == p :: requests[i],
             friendships * {p},
             set b | b in blocks && PairOf(b.0, b.1) == p)
    }

    /**
      What every committed state keeps: the schema's own checks, and the three
      promises the schema does not make: one pending request per unordered
      pair, none between friends, none across a block.
     */
    ghost predicate Good() {
      && (forall i <- requests :: requests[i].sender != requests[i].recipient)
      && (forall p <- friendships :: p.low < p.high)
      && (forall b <- blocks :: b.0 != b.1)
      && (forall i, j | i in requests && j in requests
                        && requests[i].status == Pending && requests[j].status == Pending
                        && requests[i].Users() == requests[j].Users() :: i == j)
      && (forall i <- requests | requests[i].status == Pending ::
            && requests[i].Users() !in friendships
            && !BlockedEither(requests[i].sender, requests[i].recipient))
    }
  }

  datatype Permission = Allowed | Refused | Restricted

  /** The authority the send endpoint asks. */
  function MessagePermission(t: Tables, sender: UserId, recipient: UserId): Permission {
    if sender == recipient then Restricted
    else if t.BlockedEither(sender, recipient) then Refused
    else
      var policy := if recipient in t.preferences then t.preferences[recipient].message else Everyone;
      if policy == Nobody then Restricted
      else if policy == Friends && !t.AreFriends(sender, recipient) then Restricted
      else Allowed
  }

  /** The rows a transaction has written; they become visible to others when it commits. */
  datatype Delta = Delta(
    requests: map<RequestId, Request>,
    friendAdds: set<Pair>,
    friendDels: set<Pair>,
    blocks: set<(UserId, UserId)>)

  const NO_CHANGE: Delta := Delta(map[], {}, {}, {})

  function Overlay(t: Tables, d: Delta): Tables {
    t.(requests := t.requests + d.requests,
       friendships := t.friendships - d.friendDels + d.friendAdds,
       blocks := t.blocks + d.blocks)
  }

  /** Every row of `d` concerns the pair `p`. */
  ghost predicate Within(d: Delta, p: Pair) {
    && (forall i <- d.requests :: d.requests[i].Users() == p)
    && d.friendAdds <= {p}
    && d.friendDels <= {p}
    && (forall b <- d.blocks :: PairOf(b.0, b.1) == p)
  }

  /** The requests that run under the pair lock. `other` is the user named by the caller. */
  datatype Op =
    | Create(viewer: UserId, other: UserId, message: string)
    | Accept(viewer: UserId, id: RequestId)
    | Reject(viewer: UserId, id: RequestId)
    | Cancel(viewer: UserId, id: RequestId)
    | Remove(viewer: UserId, other: UserId)
    | Block(viewer: UserId, other: UserId)
  {
    predicate OnRequest() {
      Accept? || Reject? || Cancel?
    }

    /** The checks made before the transaction begins. */
    predicate WellFormed() {
      if OnRequest() then id > 0 else 0 < other <= MAX_I32 && other != viewer
    }
  }

  datatype Outcome =
    | Created(id: RequestId)
    | Existing(id: RequestId)
    | Done
    | Unauthenticated
    | Invalid
    | UserNotFound
    | RequestNotFound
    | Forbidden
    | RelationshipChanged
    | NotPending
    | Aborted
  {
    predicate Succeeds() {
      Created? || Existing? || Done?
    }
  }

  ghost function Pick<T>(s: set<T>): (x: T)
    requires s != {}
    ensures x in s
  {
    var x :| x in s; x
  }

  /** The pending requests of `p` other than `keep`, cancelled. */
  function CancelAll(t: Tables, p: Pair, keep: set<RequestId>): map<RequestId, Request> {
    map i | i in t.PendingIn(p) - keep :: t.requests[i].(status := Cancelled)
  }

  /**
    The meaning of each operation run alone on the tables `t`: the rows it
    changes and its outcome. `nextId` is the id a created request is given.
   */
  ghost function Effect(op: Op, nextId: RequestId, t: Tables): (Delta, Outcome) {
    match op
    case Create(v, r, message) =>
      if r !in t.users then (NO_CHANGE, UserNotFound)
      else if t.BlockedEither(v, r) || t.RefusesRequests(r) then (NO_CHANGE, Forbidden)
      else if t.AreFriends(v, r) then (NO_CHANGE, RelationshipChanged)
      else if t.PendingFrom(v, r) != {} then (NO_CHANGE, Existing(Pick(t.PendingFrom(v, r))))
      else if t.PendingFrom(r, v) != {} then (NO_CHANGE, RelationshipChanged)
      else (NO_CHANGE.(requests := map[nextId := Request(v, r, message, Pending)]), Created(nextId))
    case Accept(v, i) =>
      if i !in t.requests then (NO_CHANGE, RequestNotFound)
      else if t.requests[i].recipient != v then (NO_CHANGE, Forbidden)
      else if t.requests[i].status != Pending then (NO_CHANGE, NotPending)
      else
        var row := t.requests[i];
        (Delta(CancelAll(t, row.Users(), {i}) + map[i := row.(status := Accepted)],
               {row.Users()} - t.friendships, {}, {}), Done)
    case Reject(v, i) =>
      if i !in t.requests then (NO_CHANGE, RequestNotFound)
      else if t.requests[i].recipient != v then (NO_CHANGE, Forbidden)
      else if t.requests[i].status != Pending then (NO_CHANGE, NotPending)
      else (NO_CHANGE.(requests := map[i := t.requests[i].(status := Rejected)]), Done)
    case Cancel(v, i) =>
      if i !in t.requests then (NO_CHANGE, RequestNotFound)
      else if t.requests[i].sender != v then (NO_CHANGE, Forbidden)
      else if t.requests[i].status != Pending then (NO_CHANGE, NotPending)
      else (NO_CHANGE.(requests := map[i := t.requests[i].(status := Cancelled)]), Done)
    case Remove(v, o) =>
      (NO_CHANGE.(friendDels := t.friendships * {PairOf(v, o)}), Done)
    case Block(v, o) =>
      if o !in t.users then (NO_CHANGE, UserNotFound)
      else (NO_CHANGE.(requests := CancelAll(t, PairOf(v, o), {}), blocks := {(v, o)} - t.blocks), Done)
  }

  /** An operation concerns the pair `p` in the tables `t`. */
  ghost predicate Concerns(op: Op, p: Pair, t: Tables) {
    if op.OnRequest() then op.id in t.requests ==> t.requests[op.id].Users() == p
    else p == PairOf(op.viewer, op.other) && op.viewer != op.other
  }

  lemma OverlayNothing(t: Tables)
    ensures Overlay(t, NO_CHANGE) == t
  {
  }

  /** Rows of another pair never change what is seen of `q`. */
  lemma OverlayKeepsOtherPairs(t: Tables, d: Delta, p: Pair, q: Pair)
    requires Within(d, p) && p != q
    requires forall i <- d.requests | i in t.requests :: t.requests[i].Users() == p
    ensures Overlay(t, d).Restrict(q) == t.Restrict(q)
  {
    var u := Overlay(t, d);
    forall i | i in u.Restrict(q).requests ensures i in t.Restrict(q).requests && i !in d.requests {
      assert u.requests[i].Users() == q;
    }
    forall i | i in t.Restrict(q).requests ensures i in u.Restrict(q).requests && i !in d.requests {
      assert t.requests[i].Users() == q;
    }
    assert u.Restrict(q).requests == t.Restrict(q).requests;
    assert u.Restrict(q).friendships == t.Restrict(q).friendships;
    assert u.Restrict(q).blocks == t.Restrict(q).blocks;
  }

  lemma PendingFromIsLocal(t: Tables, a: UserId, b: UserId)
    ensures t.PendingFrom(a, b) == t.Restrict(PairOf(a, b)).PendingFrom(a, b)
  {
    var r := t.Restrict(PairOf(a, b));
    forall i ensures i in t.PendingFrom(a, b) <==> i in r.PendingFrom(a, b) {
      if i in t.PendingFrom(a, b) {
        assert t.requests[i].Users() == PairOf(a, b);
      }
    }
  }

  /** What an operation does depends only on the rows of its own pair, and changes only those. */
  lemma EffectIsLocal(op: Op, nextId: RequestId, t: Tables, p: Pair)
    requires Concerns(op, p, t)
    ensures Effect(op, nextId, t) == Effect(op, nextId, t.Restrict(p))
    ensures Within(Effect(op, nextId, t).0, p)
  {
    var r := t.Restrict(p);
    if op.OnRequest() {
      if op.id in t.requests {
        assert t.PendingIn(p) == r.PendingIn(p);
        assert CancelAll(t, p, {op.id}) == CancelAll(r, p, {op.id});
        assert {p} - t.friendships == {p} - r.friendships;
      }
    } else {
      var v, o := op.viewer, op.other;
      PendingFromIsLocal(t, v, o);
      PendingFromIsLocal(t, o, v);
      assert t.PendingIn(p) == r.PendingIn(p);
      assert t.friendships * {p} == r.friendships * {p};
      assert {(v, o)} - t.blocks == {(v, o)} - r.blocks;
      assert CancelAll(t, p, {}) == CancelAll(r, p, {});
    }
  }

  /** Every operation run alone keeps the promises of `Good`. */
  lemma EffectKeepsGood(op: Op, nextId: RequestId, t: Tables, p: Pair)
    requires t.Good() && nextId !in t.requests
    requires op.WellFormed() && Concerns(op, p, t)
    ensures Overlay(t, Effect(op, nextId, t).0).Good()
  {
    match op
    case Create(v, r, message) => CreateKeepsGood(t, nextId, v, r, message);
    case Remove(v, o) => RemoveKeepsGood(t, nextId, v, o);
    case Block(v, o) => BlockKeepsGood(t, v, o);
    case _ => AnswerKeepsGood(op, nextId, t);
  }

  lemma AnswerKeepsGood(op: Op, nextId: RequestId, t: Tables)
    requires t.Good() && op.OnRequest()
    ensures Overlay(t, Effect(op, nextId, t).0).Good()
  {
    if Effect(op, nextId, t).1 == Done {
      match op
      case Accept(v, i) => AcceptKeepsGood(t, i);
      case Reject(v, i) => CloseRequestKeepsGood(t, i, Rejected);
      case Cancel(v, i) => CloseRequestKeepsGood(t, i, Cancelled);
    } else {
      OverlayNothing(t);
    }
  }

  lemma RemoveKeepsGood(t: Tables, nextId: RequestId, v: UserId, o: UserId)
    requires t.Good()
    ensures Overlay(t, Effect(Remove(v, o), nextId, t).0).Good()
  {
    assert Overlay(t, Effect(Remove(v, o), nextId, t).0).requests == t.requests;
  }

  lemma CreateKeepsGood(t: Tables, i: RequestId, v: UserId, r: UserId, message: string)
    requires t.Good() && i !in t.requests && v != r
    ensures Overlay(t, Effect(Create(v, r, message), i, t).0).Good()
  {
    if t.PendingFrom(v, r) == {} && t.PendingFrom(r, v) == {} {
      NoPendingEitherWay(t, v, r);
    }
  }

  lemma AcceptKeepsGood(t: Tables, i: RequestId)
    requires t.Good() && i in t.requests && t.requests[i].status == Pending
    ensures Overlay(t, Effect(Accept(t.requests[i].recipient, i), i, t).0).Good()
  {
    var p := t.requests[i].Users();
    var u := Overlay(t, Effect(Accept(t.requests[i].recipient, i), i, t).0);
    forall j | j in u.requests && u.requests[j].status == Pending
      ensures j in t.requests && u.requests[j] == t.requests[j] && t.requests[j].Users() != p
    {
      assert j !in CancelAll(t, p, {i});
    }
  }

  lemma CloseRequestKeepsGood(t: Tables, i: RequestId, s: Status)
    requires t.Good() && i in t.requests && s != Pending
    ensures Overlay(t, NO_CHANGE.(requests := map[i := t.requests[i].(status := s)])).Good()
  {
    var u := Overlay(t, NO_CHANGE.(requests := map[i := t.requests[i].(status := s)]));
    forall j | j in u.requests && u.requests[j].status == Pending
      ensures j in t.requests && u.requests[j] == t.requests[j]
    {
    }
  }

  lemma NoPendingEitherWay(t: Tables, a: UserId, b: UserId)
    requires t.PendingFrom(a, b) == {} && t.PendingFrom(b, a) == {}
    ensures forall i <- t.requests | t.requests[i].Users() == PairOf(a, b) :: t.requests[i].status != Pending
  {
    forall i | i in t.requests && t.requests[i].Users() == PairOf(a, b)
      ensures t.requests[i].status != Pending
    {
      assert i !in t.PendingFrom(a, b) && i !in t.PendingFrom(b, a);
    }
  }

  lemma BlockKeepsGood(t: Tables, v: UserId, o: UserId)
    requires t.Good() && v != o
    ensures Overlay(t, NO_CHANGE.(requests := CancelAll(t, PairOf(v, o), {}), blocks := {(v, o)} - t.blocks)).Good()
  {
    var d := NO_CHANGE.(requests := CancelAll(t, PairOf(v, o), {}), blocks := {(v, o)} - t.blocks);
    var u := Overlay(t, d);
    forall i | i in u.requests && u.requests[i].status == Pending
      ensures i in t.requests && u.requests[i] == t.requests[i] && t.requests[i].Users() != PairOf(v, o)
    {
      assert i !in d.requests;
      assert i !in t.PendingIn(PairOf(v, o));
    }
  }
}
