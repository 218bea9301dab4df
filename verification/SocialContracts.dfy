/**
  What each friendship endpoint answers and leaves behind, in terms of the rows
  alone, and that the reference meaning of the operations agrees.
 */
module SocialContracts {
  import opened SocialTables

  /** An endpoint run alone: the checks before the transaction, then its effect. */
  ghost function Endpoint(op: Op, nextId: RequestId, t: Tables): (Tables, Outcome) {
    if op.viewer !in t.users then (t, Unauthenticated)
    else if !op.WellFormed() then (t, Invalid)
    else (Overlay(t, Effect(op, nextId, t).0), Effect(op, nextId, t).1)
  }

  /** The id of another user, as the endpoints accept it. */
  predicate ValidOther(viewer: UserId, other: int) {
    0 < other <= 0x7FFF_FFFF && other != viewer
  }

  ghost predicate IsPending(t: Tables, i: RequestId, sender: UserId, recipient: UserId) {
    && i in t.requests
    && t.requests[i].status == Pending
    && t.requests[i].sender == sender
    && t.requests[i].recipient == recipient
  }

  ghost predicate NonePendingFrom(t: Tables, sender: UserId, recipient: UserId) {
    forall i :: !IsPending(t, i, sender, recipient)
  }

  /** A block in either direction, or a recipient who takes no requests. */
  ghost predicate Barred(t: Tables, v: UserId, r: UserId) {
    || (v, r) in t.blocks
    || (r, v) in t.blocks
    || (r in t.preferences && t.preferences[r].request == NoRequests)
  }

  /** Two existing users, no block either way, a recipient who takes requests, no friendship and nothing pending. */
  ghost predicate MayRequest(t: Tables, v: UserId, r: UserId) {
    && v in t.users && r in t.users && ValidOther(v, r)
    && !Barred(t, v, r)
    && Pair(if v < r then v else r, if v < r then r else v) !in t.friendships
    && NonePendingFrom(t, v, r) && NonePendingFrom(t, r, v)
  }

  /** Creating: every answer with its exact condition, and the one row that appears. */
  ghost predicate CreateContract(
    t: Tables, nextId: RequestId, v: UserId, r: UserId, message: string, after: Tables, o: Outcome)
  {
    var addressed := v in t.users && ValidOther(v, r);
    var open := addressed && r in t.users && !Barred(t, v, r);
    var strangers := open && Pair(if v < r then v else r, if v < r then r else v) !in t.friendships;
    && (o == Unauthenticated <==> v !in t.users)
    && (o == Invalid <==> v in t.users && !ValidOther(v, r))
    && (o == UserNotFound <==> addressed && r !in t.users)
    && (o == Forbidden <==> addressed && r in t.users && Barred(t, v, r))
    && (o.Existing? <==> strangers && !NonePendingFrom(t, v, r))
    && (o.Existing? ==> IsPending(t, o.id, v, r))
    && (o == RelationshipChanged <==>
          open && (!strangers || (NonePendingFrom(t, v, r) && !NonePendingFrom(t, r, v))))
    && (o.Created? <==> MayRequest(t, v, r))
    && (o.Created? ==>
          && o.id == nextId
          && after == t.(requests := t.requests[nextId := Request(v, r, message, Pending)]))
    && (!o.Created? ==> after == t)
  }

  /** Answering the request `i`: who may, when, and every other answer with its exact condition. */
  ghost predicate AnswerCodes(t: Tables, v: UserId, i: RequestId, bySender: bool, o: Outcome) {
    var found := v in t.users && i > 0 && i in t.requests;
    var mine := found && v == (if bySender then t.requests[i].sender else t.requests[i].recipient);
    && (o == Unauthenticated <==> v !in t.users)
    && (o == Invalid <==> v in t.users && i <= 0)
    && (o == RequestNotFound <==> v in t.users && i > 0 && i !in t.requests)
    && (o == Forbidden <==> found && !mine)
    && (o == NotPending <==> mine && t.requests[i].status != Pending)
    && (o == Done <==> mine && t.requests[i].status == Pending)
  }

  /** The two rows are about the same two users, in either direction. */
  predicate SameUsers(a: Request, b: Request) {
    || (a.sender == b.sender && a.recipient == b.recipient)
    || (a.sender == b.recipient && a.recipient == b.sender)
  }

  /** Accepting: the friendship appears, the row is accepted, every other pending row of the two is cancelled. */
  ghost predicate AcceptContract(t: Tables, v: UserId, i: RequestId, after: Tables, o: Outcome) {
    && AnswerCodes(t, v, i, false, o)
    && (o != Done ==> after == t)
    && (o == Done ==>
          var row := t.requests[i];
          && after == t.(requests := after.requests, friendships := after.friendships)
          && after.friendships == t.friendships + {PairOf(row.sender, row.recipient)}
          && after.requests.Keys == t.requests.Keys
          && forall j <- t.requests ::
            after.requests[j] == t.requests[j].(
              status := if j == i then Accepted
                        else if t.requests[j].status == Pending && SameUsers(t.requests[j], row) then Cancelled
                        else t.requests[j].status))
  }

  /** Rejecting by the recipient, cancelling by the sender: one row changes its status. */
  ghost predicate CloseContract(
    t: Tables, v: UserId, i: RequestId, bySender: bool, status: Status, after: Tables, o: Outcome)
  {
    && AnswerCodes(t, v, i, bySender, o)
    && (o != Done ==> after == t)
    && (o == Done ==> after == t.(requests := t.requests[i := t.requests[i].(status := status)]))
  }

  ghost predicate RemoveContract(t: Tables, v: UserId, f: int, after: Tables, o: Outcome) {
    && (o == Unauthenticated <==> v !in t.users)
    && (o == Invalid <==> v in t.users && !ValidOther(v, f))
    && (o == Done <==> v in t.users && ValidOther(v, f))
    && after == if o == Done then t.(friendships := t.friendships - {PairOf(v, f)}) else t
  }

  /** Blocking: the block appears, every pending row of the two is cancelled, the friendship stays. */
  ghost predicate BlockContract(t: Tables, v: UserId, b: int, after: Tables, o: Outcome) {
    && (o == Unauthenticated <==> v !in t.users)
    && (o == Invalid <==> v in t.users && !ValidOther(v, b))
    && (o == UserNotFound <==> v in t.users && ValidOther(v, b) && b !in t.users)
    && (o == Done <==> v in t.users && ValidOther(v, b) && b in t.users)
    && (o != Done ==> after == t)
    && (o == Done ==>
          && after == t.(requests := after.requests, blocks := t.blocks + {(v, b)})
          && after.requests.Keys == t.requests.Keys
          && forall j <- t.requests ::
            after.requests[j] == t.requests[j].(
              status := if IsPending(t, j, v, b) || IsPending(t, j, b, v) then Cancelled
                        else t.requests[j].status))
  }

  lemma PendingFromMeans(t: Tables, s: UserId, r: UserId)
    ensures t.PendingFrom(s, r) == {} <==> NonePendingFrom(t, s, r)
    ensures t.PendingFrom(s, r) != {} ==> IsPending(t, Pick(t.PendingFrom(s, r)), s, r)
  {
    if t.PendingFrom(s, r) == {} {
      forall i ensures !IsPending(t, i, s, r) {
        assert i !in t.PendingFrom(s, r);
      }
    } else {
      var i := Pick(t.PendingFrom(s, r));
      assert IsPending(t, i, s, r);
    }
  }

  lemma CreateMeans(t: Tables, nextId: RequestId, v: UserId, r: UserId, message: string)
    ensures var (after, o) := Endpoint(Create(v, r, message), nextId, t);
      CreateContract(t, nextId, v, r, message, after, o)
  {
    OverlayNothing(t);
    PendingFromMeans(t, v, r);
    PendingFromMeans(t, r, v);
    if Effect(Create(v, r, message), nextId, t).1.Created? {
      assert t.requests + map[nextId := Request(v, r, message, Pending)]
          == t.requests[nextId := Request(v, r, message, Pending)];
    }
  }

  lemma AcceptMeans(t: Tables, nextId: RequestId, v: UserId, i: RequestId)
    ensures var (after, o) := Endpoint(Accept(v, i), nextId, t); AcceptContract(t, v, i, after, o)
  {
    OverlayNothing(t);
    if Endpoint(Accept(v, i), nextId, t).1 == Done {
      var row := t.requests[i];
      var after := Endpoint(Accept(v, i), nextId, t).0;
      var cancelled := CancelAll(t, row.Users(), {i});
      forall j | j in t.requests
        ensures j in cancelled <==> j != i && t.requests[j].status == Pending && SameUsers(t.requests[j], row)
      {
        assert j in t.PendingIn(row.Users())
          <==> t.requests[j].status == Pending && t.requests[j].Users() == row.Users();
      }
      assert forall j :: j in after.requests <==> j in t.requests;
    }
  }

  lemma CloseMeans(t: Tables, nextId: RequestId, v: UserId, i: RequestId)
    ensures var (after, o) := Endpoint(Reject(v, i), nextId, t); CloseContract(t, v, i, false, Rejected, after, o)
    ensures var (after, o) := Endpoint(Cancel(v, i), nextId, t); CloseContract(t, v, i, true, Cancelled, after, o)
  {
    OverlayNothing(t);
    if i in t.requests {
      var row := t.requests[i];
      assert t.requests + map[i := row.(status := Rejected)] == t.requests[i := row.(status := Rejected)];
      assert t.requests + map[i := row.(status := Cancelled)] == t.requests[i := row.(status := Cancelled)];
    }
  }

  lemma RemoveMeans(t: Tables, nextId: RequestId, v: UserId, f: int)
    ensures var (after, o) := Endpoint(Remove(v, f), nextId, t); RemoveContract(t, v, f, after, o)
  {
    assert t.friendships - t.friendships * {PairOf(v, f)} + {} == t.friendships - {PairOf(v, f)};
    assert t.requests + map[] == t.requests;
  }

  lemma BlockMeans(t: Tables, nextId: RequestId, v: UserId, b: int)
    ensures var (after, o) := Endpoint(Block(v, b), nextId, t); BlockContract(t, v, b, after, o)
  {
    OverlayNothing(t);
    if Endpoint(Block(v, b), nextId, t).1 == Done {
      var after := Endpoint(Block(v, b), nextId, t).0;
      forall j | j in t.requests
        ensures j in CancelAll(t, PairOf(v, b), {}) <==> IsPending(t, j, v, b) || IsPending(t, j, b, v)
      {
        assert j in t.PendingIn(PairOf(v, b))
          <==> t.requests[j].status == Pending && t.requests[j].Users() == PairOf(v, b);
      }
      assert forall j :: j in after.requests <==> j in t.requests;
      assert t.blocks + ({(v, b)} - t.blocks) == t.blocks + {(v, b)};
    }
  }
}
