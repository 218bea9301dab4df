/**
  The friendship endpoints as they run alone, statement by statement, on tables
  that are updated in place. Each is proved to do what `Effect` says, and what
  its contract says of the rows.
 */
module SocialHandlers {
  import opened SocialTables
  import opened SocialContracts

  /** The promises of `Good`, and no id beyond the last one drawn. */
  ghost predicate Sound(t: Tables, lastId: RequestId) {
    t.Good() && forall i <- t.requests :: i <= lastId
  }

  lemma EffectKeepsSound(op: Op, t: Tables, p: Pair, lastId: RequestId)
    requires Sound(t, lastId) && op.WellFormed() && Concerns(op, p, t)
    ensures var (delta, outcome) := Effect(op, lastId + 1, t);
      Sound(Overlay(t, delta), if outcome.Created? then lastId + 1 else lastId)
  {
    EffectKeepsGood(op, lastId + 1, t, p);
  }

  /** The tables an accepted request leaves. */
  lemma AcceptedTables(t: Tables, id: RequestId, lastId: RequestId)
    requires Sound(t, lastId) && id > 0 && id in t.requests && t.requests[id].status == Pending
    ensures var row := t.requests[id];
      var after := t.(requests := t.requests + (CancelAll(t, row.Users(), {id}) + map[id := row.(status := Accepted)]),
                      friendships := t.friendships + {row.Users()});
      Overlay(t, Effect(Accept(row.recipient, id), lastId + 1, t).0) == after && Sound(after, lastId)
  {
    EffectKeepsSound(Accept(t.requests[id].recipient, id), t, t.requests[id].Users(), lastId);
  }

  /** Marking the request before the other rows are cancelled leaves the same tables. */
  lemma MarkThenCancel(t: Tables, id: RequestId, lastId: RequestId, marked: Tables, after: Tables)
    requires Sound(t, lastId) && id > 0 && id in t.requests && t.requests[id].status == Pending
    requires marked == t.(requests := t.requests + map[id := t.requests[id].(status := Accepted)],
                          friendships := t.friendships + {t.requests[id].Users()})
    requires after == marked.(requests := marked.requests + CancelAll(marked, t.requests[id].Users(), {id}))
    ensures after == Overlay(t, Effect(Accept(t.requests[id].recipient, id), lastId + 1, t).0)
    ensures Sound(after, lastId)
  {
    var p := t.requests[id].Users();
    assert forall i :: i in marked.PendingIn(p) - {id} <==> i in t.PendingIn(p) - {id};
    assert CancelAll(marked, p, {id}) == CancelAll(t, p, {id});
    AcceptedTables(t, id, lastId);
  }

  /** The tables a created request leaves. */
  lemma CreatedTables(t: Tables, lastId: RequestId, viewer: UserId, recipient: UserId, message: string)
    requires Sound(t, lastId) && 0 < recipient <= MAX_I32 && recipient != viewer
    requires Effect(Create(viewer, recipient, message), lastId + 1, t).1 == Created(lastId + 1)
    ensures var after := t.(requests := t.requests[lastId + 1 := Request(viewer, recipient, message, Pending)]);
      Overlay(t, Effect(Create(viewer, recipient, message), lastId + 1, t).0) == after && Sound(after, lastId + 1)
  {
    EffectKeepsSound(Create(viewer, recipient, message), t, PairOf(viewer, recipient), lastId);
  }

  class SocialStore {
    const users: set<UserId>
    const preferences: map<UserId, Preferences>
    var requests: map<RequestId, Request>
    var friendships: set<Pair>
    var blocks: set<(UserId, UserId)>
    var lastId: RequestId

    function Snapshot(): Tables
      reads this
    {
      Tables(users, preferences, requests, friendships, blocks)
    }

    ghost predicate Valid()
      reads this
    {
      Sound(Snapshot(), lastId)
    }

    constructor (users: set<UserId>, preferences: map<UserId, Preferences>)
      ensures Valid() && Snapshot() == Tables(users, preferences, map[], {}, {})
    {
      this.users, this.preferences := users, preferences;
      requests, friendships, blocks, lastId := map[], {}, {}, 0;
    }

    /** UPDATE ... SET status WHERE id. */
    method SetStatus(id: RequestId, status: Status)
      modifies this`requests
      ensures requests == old(requests)
        + if id in old(requests) then map[id := old(requests[id]).(status := status)] else map[]
    {
      if id in requests {
        requests := requests[id := requests[id].(status := status)];
      }
    }

    /** UPDATE ... SET status = 'cancelled' for the pending rows between two users, but for `keep`. */
    method CancelPendingBetween(a: UserId, b: UserId, keep: set<RequestId>)
      modifies this`requests
      ensures requests == old(requests) + CancelAll(old(Snapshot()), PairOf(a, b), keep)
    {
      ghost var t := Snapshot();
      requests := map i | i in requests ::
        if requests[i].status == Pending && i !in keep
           && ((requests[i].sender == a && requests[i].recipient == b)
               || (requests[i].sender == b && requests[i].recipient == a))
        then requests[i].(status := Cancelled) else requests[i];
      forall i | i in t.requests
        ensures i in CancelAll(t, PairOf(a, b), keep) <==> requests[i] != t.requests[i]
      {
        assert i in t.PendingIn(PairOf(a, b)) - keep <==> i in CancelAll(t, PairOf(a, b), keep);
      }
    }

    /** INSERT ... RETURNING id: the sequence advances and a pending row appears. */
    method InsertRequest(viewer: UserId, recipient: UserId, message: string) returns (id: RequestId)
      modifies this`requests, this`lastId
      ensures id == lastId == old(lastId) + 1
      ensures requests == old(requests)[id := Request(viewer, recipient, message, Pending)]
    {
      lastId := lastId + 1;
      id := lastId;
      requests := requests[id := Request(viewer, recipient, message, Pending)];
    }

    /** The id of the pending request from one user to another, if there is one. */
    method FindPending(sender: UserId, recipient: UserId) returns (found: bool, id: RequestId)
      requires Valid()
      ensures found <==> Snapshot().PendingFrom(sender, recipient) != {}
      ensures found ==> id == Pick(Snapshot().PendingFrom(sender, recipient))
    {
      if i :| i in requests && requests[i].status == Pending
              && requests[i].sender == sender && requests[i].recipient == recipient {
        found, id := true, i;
        assert i in Snapshot().PendingFrom(sender, recipient);
      } else {
        found, id := false, 0;
        assert forall i :: i !in Snapshot().PendingFrom(sender, recipient);
      }
    }

    method CreateRequest(viewer: UserId, recipient: int, message: string) returns (outcome: Outcome)
      requires Valid()
      modifies this
      ensures Valid()
      ensures (Snapshot(), outcome) == Endpoint(Create(viewer, recipient, message), old(lastId) + 1, old(Snapshot()))
      ensures outcome.Created? <==> old(MayRequest(Snapshot(), viewer, recipient))
    {
      CreateMeans(Snapshot(), lastId + 1, viewer, recipient, message);
      ghost var t := Snapshot();
      OverlayNothing(t);
      if viewer !in users { return Unauthenticated; }
      if recipient <= 0 || recipient > MAX_I32 || recipient == viewer { return Invalid; }
      if recipient !in users { return UserNotFound; }
      if (viewer, recipient) in blocks || (recipient, viewer) in blocks { return Forbidden; }
      if recipient in preferences && preferences[recipient].request == NoRequests { return Forbidden; }
      if PairOf(viewer, recipient) in friendships { return RelationshipChanged; }
      var own, ownId := FindPending(viewer, recipient);
      if own { return Existing(ownId); }
      var reverse, _ := FindPending(recipient, viewer);
      if reverse { return RelationshipChanged; }
      CreatedTables(t, lastId, viewer, recipient, message);
      var id := InsertRequest(viewer, recipient, message);
      outcome := Created(id);
    }

    /** INSERT INTO social_friendships ... ON CONFLICT DO NOTHING. */
    method InsertFriendship(a: UserId, b: UserId)
      modifies this`friendships
      ensures friendships == old(friendships) + {PairOf(a, b)}
    {
      friendships := friendships + {PairOf(a, b)};
    }

    method AcceptRequest(viewer: UserId, id: RequestId) returns (outcome: Outcome)
      requires Valid()
      modifies this
      ensures Valid()
      ensures (Snapshot(), outcome) == Endpoint(Accept(viewer, id), old(lastId) + 1, old(Snapshot()))
      ensures AnswerCodes(old(Snapshot()), viewer, id, false, outcome)
    {
      AcceptMeans(Snapshot(), lastId + 1, viewer, id);
      ghost var t := Snapshot();
      OverlayNothing(t);
      if viewer !in users { return Unauthenticated; }
      if id <= 0 { return Invalid; }
      if id !in requests { return RequestNotFound; }
      var row := requests[id];
      if row.recipient != viewer { return Forbidden; }
      if row.status != Pending { return NotPending; }
      InsertFriendship(viewer, row.sender);
      SetStatus(id, Accepted);
      ghost var marked := Snapshot();
      CancelPendingBetween(viewer, row.sender, {id});
      MarkThenCancel(t, id, lastId, marked, Snapshot());
      outcome := Done;
    }

    method RejectRequest(viewer: UserId, id: RequestId) returns (outcome: Outcome)
      requires Valid()
      modifies this
      ensures Valid()
      ensures (Snapshot(), outcome) == Endpoint(Reject(viewer, id), old(lastId) + 1, old(Snapshot()))
      ensures CloseContract(old(Snapshot()), viewer, id, false, Rejected, Snapshot(), outcome)
    {
      CloseMeans(Snapshot(), lastId + 1, viewer, id);
      OverlayNothing(Snapshot());
      if viewer !in users { return Unauthenticated; }
      if id <= 0 { return Invalid; }
      if id !in requests { return RequestNotFound; }
      if requests[id].recipient != viewer { return Forbidden; }
      if requests[id].status != Pending { return NotPending; }
      EffectKeepsSound(Reject(viewer, id), Snapshot(), requests[id].Users(), lastId);
      SetStatus(id, Rejected);
      outcome := Done;
    }

    method CancelRequest(viewer: UserId, id: RequestId) returns (outcome: Outcome)
      requires Valid()
      modifies this
      ensures Valid()
      ensures (Snapshot(), outcome) == Endpoint(Cancel(viewer, id), old(lastId) + 1, old(Snapshot()))
      ensures CloseContract(old(Snapshot()), viewer, id, true, Cancelled, Snapshot(), outcome)
    {
      CloseMeans(Snapshot(), lastId + 1, viewer, id);
      OverlayNothing(Snapshot());
      if viewer !in users { return Unauthenticated; }
      if id <= 0 { return Invalid; }
      if id !in requests { return RequestNotFound; }
      if requests[id].sender != viewer { return Forbidden; }
      if requests[id].status != Pending { return NotPending; }
      EffectKeepsSound(Cancel(viewer, id), Snapshot(), requests[id].Users(), lastId);
      SetStatus(id, Cancelled);
      outcome := Done;
    }

    method RemoveFriend(viewer: UserId, friend: int) returns (outcome: Outcome)
      requires Valid()
      modifies this
      ensures Valid()
      ensures (Snapshot(), outcome) == Endpoint(Remove(viewer, friend), old(lastId) + 1, old(Snapshot()))
      ensures RemoveContract(old(Snapshot()), viewer, friend, Snapshot(), outcome)
    {
      RemoveMeans(Snapshot(), lastId + 1, viewer, friend);
      if viewer !in users { return Unauthenticated; }
      if friend <= 0 || friend > MAX_I32 || friend == viewer { return Invalid; }
      EffectKeepsSound(Remove(viewer, friend), Snapshot(), PairOf(viewer, friend), lastId);
      ghost var t := Snapshot();
      friendships := friendships - {PairOf(viewer, friend)};
      outcome := Done;
      assert Snapshot() == Overlay(t, Effect(Remove(viewer, friend), lastId + 1, t).0);
    }

    method BlockUser(viewer: UserId, target: int) returns (outcome: Outcome)
      requires Valid()
      modifies this
      ensures Valid()
      ensures (Snapshot(), outcome) == Endpoint(Block(viewer, target), old(lastId) + 1, old(Snapshot()))
      ensures BlockContract(old(Snapshot()), viewer, target, Snapshot(), outcome)
    {
      BlockMeans(Snapshot(), lastId + 1, viewer, target);
      OverlayNothing(Snapshot());
      if viewer !in users { return Unauthenticated; }
      if target <= 0 || target > MAX_I32 || target == viewer { return Invalid; }
      if target !in users { return UserNotFound; }
      ghost var t := Snapshot();
      EffectKeepsSound(Block(viewer, target), t, PairOf(viewer, target), lastId);
      blocks := blocks + {(viewer, target)};
      CancelPendingBetween(viewer, target, {});
      outcome := Done;
      assert Snapshot() == Overlay(t, Effect(Block(viewer, target), lastId + 1, t).0);
    }

    /** One DELETE without the pair lock. */
    method UnblockUser(viewer: UserId, target: int) returns (outcome: Outcome)
      requires Valid()
      modifies this
      ensures Valid()
      ensures outcome == if viewer !in users then Unauthenticated
                         else if ValidOther(viewer, target) then Done else Invalid
      ensures Snapshot() == if outcome == Done then old(Snapshot()).(blocks := old(blocks) - {(viewer, target)})
                            else old(Snapshot())
    {
      if viewer !in users { return Unauthenticated; }
      if target <= 0 || target > MAX_I32 || target == viewer { return Invalid; }
      blocks := blocks - {(viewer, target)};
      outcome := Done;
    }
  }
}
