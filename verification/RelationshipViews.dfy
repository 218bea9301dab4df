/**
  What a viewer is told about other users: the context loaded from the tables,
  the relationship and the message permission derived from it, and why the
  different derivations agree.
 */
module RelationshipViews {
  import opened Wrappers
  import opened SocialTables
  import opened SocialContracts
  import opened FriendshipProtocol
  import opened FriendshipInvariants

  datatype Relationship = Unrelated | OutgoingPending | IncomingPending | Befriended | BlockedByViewer

  datatype Context = Context(
    friends: set<UserId>,
    blockedByMe: set<UserId>,
    blockingMe: set<UserId>,
    outgoing: map<UserId, RequestId>,
    incoming: map<UserId, RequestId>,
    policies: map<UserId, MessagePolicy>)
  {
    function Relationship(target: UserId): (Relationship, Option<RequestId>) {
      if target in blockedByMe then (BlockedByViewer, None)
      else if target in friends then (Befriended, None)
      else if target in outgoing then (OutgoingPending, Some(outgoing[target]))
      else if target in incoming then (IncomingPending, Some(incoming[target]))
      else (Unrelated, None)
    }

    predicate CanMessage(viewer: UserId, target: UserId) {
      if viewer == target || target in blockedByMe || target in blockingMe then false
      else
        match if target in policies then policies[target] else Everyone
        case Everyone => true
        case Nobody => false
        case Friends => target in friends
    }
  }

  const EMPTY: Context := Context({}, {}, {}, map[], map[], map[])

  /** The context the four queries describe when all of them see the same tables. */
  ghost function ContextOf(t: Tables, viewer: UserId, targets: set<UserId>): Context {
    Context(
      set u | u in targets && u != viewer && PairOf(viewer, u) in t.friendships,
      set u | u in targets && (viewer, u) in t.blocks,
      set u | u in targets && (u, viewer) in t.blocks,
      map u | u in targets && t.PendingFrom(viewer, u) != {} :: Pick(t.PendingFrom(viewer, u)),
      map u | u in targets && t.PendingFrom(u, viewer) != {} :: Pick(t.PendingFrom(u, viewer)),
      map u | u in targets && u in t.preferences :: t.preferences[u].message)
  }

  /** The tables as each of the four queries sees them: other requests may commit in between. */
  datatype Moments = Moments(friends: Tables, blocks: Tables, pending: Tables, policies: Tables)
  {
    ghost predicate Good() {
      friends.Good() && blocks.Good() && pending.Good()
    }
  }

  /** The context loaded: each part is that of its own moment. */
  ghost function ContextAt(m: Moments, viewer: UserId, targets: set<UserId>): Context {
    var blocks, pending := ContextOf(m.blocks, viewer, targets), ContextOf(m.pending, viewer, targets);
    Context(ContextOf(m.friends, viewer, targets).friends, blocks.blockedByMe, blocks.blockingMe,
            pending.outgoing, pending.incoming, ContextOf(m.policies, viewer, targets).policies)
  }

  /** The rows of a query come in no particular order: each loop takes any remaining row. */
  method LoadFriends(t: Tables, viewer: UserId, targets: set<UserId>) returns (friends: set<UserId>)
    requires t.Good()
    ensures friends == ContextOf(t, viewer, targets).friends
  {
    friends := {};
    var rows := set f | f in t.friendships
                        && ((f.low == viewer && f.high in targets) || (f.high == viewer && f.low in targets));
    ghost var all := rows;
    while rows != {}
      invariant rows <= all
      invariant forall f <- all - rows :: (if f.low == viewer then f.high else f.low) in friends
      invariant forall u <- friends :: PairOf(viewer, u) in all && u != viewer && u in targets
      decreases |rows|
    {
      var f :| f in rows;
      friends := friends + {if f.low == viewer then f.high else f.low};
      rows := rows - {f};
    }
    ghost var spec := ContextOf(t, viewer, targets).friends;
    forall u ensures u in friends <==> u in spec {
      if u in spec {
        assert PairOf(viewer, u) in all;
      }
    }
  }

  method LoadBlocks(t: Tables, viewer: UserId, targets: set<UserId>)
    returns (blockedByMe: set<UserId>, blockingMe: set<UserId>)
    requires t.Good()
    ensures blockedByMe == ContextOf(t, viewer, targets).blockedByMe
    ensures blockingMe == ContextOf(t, viewer, targets).blockingMe
  {
    blockedByMe, blockingMe := {}, {};
    var rows := set b | b in t.blocks
                        && ((b.0 == viewer && b.1 in targets) || (b.1 == viewer && b.0 in targets));
    ghost var all := rows;
    while rows != {}
      invariant rows <= all
      invariant forall u :: u in blockedByMe <==> (viewer, u) in all - rows
      invariant forall u :: u in blockingMe <==> u != viewer && (u, viewer) in all - rows
      decreases |rows|
    {
      var b :| b in rows;
      if b.0 == viewer {
        blockedByMe := blockedByMe + {b.1};
      } else {
        blockingMe := blockingMe + {b.0};
      }
      rows := rows - {b};
    }
    ghost var spec := ContextOf(t, viewer, targets);
    assert forall u :: u in blockedByMe <==> u in spec.blockedByMe;
    assert forall u :: u in blockingMe <==> u in spec.blockingMe;
  }

  datatype PendingRow = PendingRow(id: RequestId, sender: UserId, recipient: UserId)

  /** The pending requests between the viewer and the targets. */
  function PendingRows(t: Tables, viewer: UserId, targets: set<UserId>): set<PendingRow> {
    set i | i in t.requests && t.requests[i].status == Pending
            && ((t.requests[i].sender == viewer && t.requests[i].recipient in targets)
                || (t.requests[i].recipient == viewer && t.requests[i].sender in targets))
          :: PendingRow(i, t.requests[i].sender, t.requests[i].recipient)
  }

  /** The two maps hold one row of `seen` for every user that has one. */
  ghost predicate Filed(
    viewer: UserId, seen: set<PendingRow>, outgoing: map<UserId, RequestId>, incoming: map<UserId, RequestId>)
  {
    && (forall row <- seen :: if row.sender == viewer then row.recipient in outgoing else row.sender in incoming)
    && (forall u <- outgoing :: PendingRow(outgoing[u], viewer, u) in seen)
    && (forall u <- incoming :: PendingRow(incoming[u], u, viewer) in seen)
  }

  lemma FileRow(
    viewer: UserId, seen: set<PendingRow>, outgoing: map<UserId, RequestId>, incoming: map<UserId, RequestId>,
    row: PendingRow)
    requires Filed(viewer, seen, outgoing, incoming)
    requires row.sender == viewer || row.recipient == viewer
    ensures if row.sender == viewer
      then Filed(viewer, seen + {row}, outgoing[row.recipient := row.id], incoming)
      else Filed(viewer, seen + {row}, outgoing, incoming[row.sender := row.id])
  {
  }

  lemma FiledIsSpecified(
    t: Tables, viewer: UserId, targets: set<UserId>,
    outgoing: map<UserId, RequestId>, incoming: map<UserId, RequestId>)
    requires t.Good() && Filed(viewer, PendingRows(t, viewer, targets), outgoing, incoming)
    ensures outgoing == ContextOf(t, viewer, targets).outgoing
    ensures incoming == ContextOf(t, viewer, targets).incoming
  {
    var spec := ContextOf(t, viewer, targets);
    var rows := PendingRows(t, viewer, targets);
    forall u ensures u in outgoing <==> u in spec.outgoing
      ensures u in outgoing ==> outgoing[u] == spec.outgoing[u]
    {
      if u in spec.outgoing {
        assert PendingRow(Pick(t.PendingFrom(viewer, u)), viewer, u) in rows;
      }
      if u in outgoing {
        assert outgoing[u] in t.PendingFrom(viewer, u);
      }
    }
    forall u ensures u in incoming <==> u in spec.incoming
      ensures u in incoming ==> incoming[u] == spec.incoming[u]
    {
      if u in spec.incoming {
        assert PendingRow(Pick(t.PendingFrom(u, viewer)), u, viewer) in rows;
      }
      if u in incoming {
        assert incoming[u] in t.PendingFrom(u, viewer);
      }
    }
  }

  method LoadPending(t: Tables, viewer: UserId, targets: set<UserId>)
    returns (outgoing: map<UserId, RequestId>, incoming: map<UserId, RequestId>)
    requires t.Good()
    ensures outgoing == ContextOf(t, viewer, targets).outgoing
    ensures incoming == ContextOf(t, viewer, targets).incoming
  {
    outgoing, incoming := map[], map[];
    var rows := PendingRows(t, viewer, targets);
    ghost var all := rows;
    while rows != {}
      invariant rows <= all
      invariant Filed(viewer, all - rows, outgoing, incoming)
      decreases |rows|
    {
      var row :| row in rows;
      assert row.sender == viewer || row.recipient == viewer by { assert row in all; }
      FileRow(viewer, all - rows, outgoing, incoming, row);
      assert all - (rows - {row}) == (all - rows) + {row};
      if row.sender == viewer {
        outgoing := outgoing[row.recipient := row.id];
      } else {
        incoming := incoming[row.sender := row.id];
      }
      rows := rows - {row};
    }
    assert all - rows == all;
    FiledIsSpecified(t, viewer, targets, outgoing, incoming);
  }

  datatype PolicyRow = PolicyRow(user: UserId, policy: MessagePolicy)

  function PolicyRows(t: Tables, targets: set<UserId>): set<PolicyRow> {
    set u | u in t.preferences && u in targets :: PolicyRow(u, t.preferences[u].message)
  }

  method LoadPolicies(t: Tables, viewer: UserId, targets: set<UserId>) returns (policies: map<UserId, MessagePolicy>)
    ensures policies == ContextOf(t, viewer, targets).policies
  {
    policies := map[];
    var rows := PolicyRows(t, targets);
    ghost var all := rows;
    while rows != {}
      invariant rows <= all
      invariant forall row <- all - rows :: row.user in policies
      invariant forall u <- policies :: PolicyRow(u, policies[u]) in all
      decreases |rows|
    {
      var row :| row in rows;
      policies := policies[row.user := row.policy];
      rows := rows - {row};
    }
    PoliciesAreSpecified(t, viewer, targets, policies);
  }

  lemma PoliciesAreSpecified(t: Tables, viewer: UserId, targets: set<UserId>, policies: map<UserId, MessagePolicy>)
    requires forall row <- PolicyRows(t, targets) :: row.user in policies
    requires forall u <- policies :: PolicyRow(u, policies[u]) in PolicyRows(t, targets)
    ensures policies == ContextOf(t, viewer, targets).policies
  {
    var spec := ContextOf(t, viewer, targets).policies;
    forall u
      ensures u in policies <==> u in spec
      ensures u in policies ==> policies[u] == spec[u]
    {
      if u in spec {
        assert PolicyRow(u, spec[u]) in PolicyRows(t, targets);
      }
    }
  }

  /**
    Each part of the loaded context is what its query describes at its own
    moment, in whatever order the rows arrive; undisturbed, it is the context of
    the tables.
   */
  method Load(m: Moments, viewer: UserId, targets: set<UserId>) returns (context: Context)
    requires m.Good()
    ensures context == ContextAt(m, viewer, targets)
    ensures forall t | m == Moments(t, t, t, t) :: context == ContextOf(t, viewer, targets)
  {
    if targets == {} {
      EmptyContext(m.friends, viewer);
      EmptyContext(m.blocks, viewer);
      EmptyContext(m.pending, viewer);
      EmptyContext(m.policies, viewer);
      return EMPTY;
    }
    var friends := LoadFriends(m.friends, viewer, targets);
    var blockedByMe, blockingMe := LoadBlocks(m.blocks, viewer, targets);
    var outgoing, incoming := LoadPending(m.pending, viewer, targets);
    var policies := LoadPolicies(m.policies, viewer, targets);
    context := Context(friends, blockedByMe, blockingMe, outgoing, incoming, policies);
  }

  lemma EmptyContext(t: Tables, viewer: UserId)
    ensures ContextOf(t, viewer, {}) == EMPTY
  {
    var c := ContextOf(t, viewer, {});
    assert forall u :: u !in c.friends && u !in c.blockedByMe && u !in c.blockingMe;
    assert forall u :: u !in c.outgoing && u !in c.incoming && u !in c.policies;
  }

  /** The inline expression of the friend list, evaluated on the row of friend `u`. */
  predicate FriendRowCanMessage(t: Tables, viewer: UserId, u: UserId) {
    !t.BlockedEither(viewer, u) && (u in t.preferences ==> t.preferences[u].message != Nobody)
  }

  /** For every listed target the hint in a listing and the decision of the send endpoint agree. */
  lemma HintIsAuthority(t: Tables, viewer: UserId, targets: set<UserId>, u: UserId)
    requires u in targets
    ensures ContextOf(t, viewer, targets).CanMessage(viewer, u) <==> MessagePermission(t, viewer, u) == Allowed
  {
    var c := ContextOf(t, viewer, targets);
    assert u in c.friends <==> u != viewer && PairOf(viewer, u) in t.friendships;
    assert u in c.policies <==> u in t.preferences;
  }

  /** On a friend row the inline expression gives the same permission, and the listed relationship is the loaded one. */
  lemma FriendRowIsAuthority(t: Tables, viewer: UserId, targets: set<UserId>, u: UserId)
    requires t.Good() && u in targets && t.AreFriends(viewer, u)
    ensures FriendRowCanMessage(t, viewer, u) <==> MessagePermission(t, viewer, u) == Allowed
    ensures FriendRowCanMessage(t, viewer, u) <==> ContextOf(t, viewer, targets).CanMessage(viewer, u)
    ensures ContextOf(t, viewer, targets).Relationship(u)
      == (if (viewer, u) in t.blocks then (BlockedByViewer, None) else (Befriended, None))
  {
    HintIsAuthority(t, viewer, targets, u);
    assert viewer != u;
  }

  /** What `a` is shown about `b`. */
  ghost function View(t: Tables, a: UserId, b: UserId): (Relationship, Option<RequestId>) {
    ContextOf(t, a, {b}).Relationship(b)
  }

  lemma ViewIsIndependentOfList(t: Tables, a: UserId, targets: set<UserId>, b: UserId)
    requires b in targets
    ensures ContextOf(t, a, targets).Relationship(b) == View(t, a, b)
  {
  }

  /** What a view means in rows: a block of one's own first, then a friendship, then a pending request. */
  lemma ViewMeans(t: Tables, a: UserId, b: UserId)
    requires a != b
    ensures View(t, a, b).0 == BlockedByViewer <==> (a, b) in t.blocks
    ensures View(t, a, b).0 == Befriended <==> (a, b) !in t.blocks && PairOf(a, b) in t.friendships
    ensures View(t, a, b).0 == OutgoingPending <==>
      (a, b) !in t.blocks && PairOf(a, b) !in t.friendships && exists i :: IsPending(t, i, a, b)
    ensures View(t, a, b).0 == IncomingPending <==>
      && (a, b) !in t.blocks && PairOf(a, b) !in t.friendships && NonePendingFrom(t, a, b)
      && exists i :: IsPending(t, i, b, a)
    ensures View(t, a, b).0 == OutgoingPending ==> View(t, a, b).1.Some? && IsPending(t, View(t, a, b).1.value, a, b)
    ensures View(t, a, b).0 == IncomingPending ==> View(t, a, b).1.Some? && IsPending(t, View(t, a, b).1.value, b, a)
    ensures View(t, a, b).0 !in {OutgoingPending, IncomingPending} ==> View(t, a, b).1 == None
  {
    PendingFromMeans(t, a, b);
    PendingFromMeans(t, b, a);
  }

  /** What `can_message` of the loaded context means in rows. */
  lemma CanMessageMeans(t: Tables, viewer: UserId, targets: set<UserId>, u: UserId)
    requires u in targets
    ensures var can := ContextOf(t, viewer, targets).CanMessage(viewer, u);
      && (viewer == u || (viewer, u) in t.blocks || (u, viewer) in t.blocks ==> !can)
      && (viewer != u && (viewer, u) !in t.blocks && (u, viewer) !in t.blocks ==>
            && (u !in t.preferences ==> can)
            && (u in t.preferences && t.preferences[u].message == Everyone ==> can)
            && (u in t.preferences && t.preferences[u].message == Nobody ==> !can)
            && (u in t.preferences && t.preferences[u].message == Friends ==>
                  (can <==> PairOf(viewer, u) in t.friendships)))
  {
    var c := ContextOf(t, viewer, targets);
    assert u in c.friends <==> u != viewer && PairOf(viewer, u) in t.friendships;
    assert u in c.policies <==> u in t.preferences;
  }

  /** In every state of every schedule the views of two users mirror each other. */
  lemma ViewsMirror(
    users: set<UserId>, preferences: map<UserId, Preferences>, schedule: seq<Label>, a: UserId, b: UserId)
    requires a != b
    ensures var t := Run(users, preferences, schedule).tables;
      && (forall r :: View(t, a, b) == (OutgoingPending, Some(r)) <==> View(t, b, a) == (IncomingPending, Some(r)))
      && (View(t, a, b).0 == Befriended ==> View(t, b, a).0 in {Befriended, BlockedByViewer})
      && (View(t, a, b).0 == Unrelated ==> View(t, b, a).0 in {Unrelated, BlockedByViewer})
      && (View(t, a, b).0 == BlockedByViewer ==> View(t, b, a).0 in {Befriended, Unrelated, BlockedByViewer})
  {
    EveryScheduleKeepsInv(users, preferences, schedule);
    var t := Run(users, preferences, schedule).tables;
    GoodViewsMirror(t, a, b);
    GoodViewsMirror(t, b, a);
  }

  lemma GoodViewsMirror(t: Tables, a: UserId, b: UserId)
    requires t.Good() && a != b
    ensures forall r :: View(t, a, b) == (OutgoingPending, Some(r)) <==> View(t, b, a) == (IncomingPending, Some(r))
    ensures View(t, a, b).0 == Befriended ==> View(t, b, a).0 in {Befriended, BlockedByViewer}
    ensures View(t, a, b).0 == Unrelated ==> View(t, b, a).0 in {Unrelated, BlockedByViewer}
    ensures View(t, a, b).0 == BlockedByViewer ==> View(t, b, a).0 in {Befriended, Unrelated, BlockedByViewer}
  {
    if t.PendingFrom(a, b) != {} {
      PendingExcludes(t, a, b);
    }
    if t.PendingFrom(b, a) != {} {
      PendingExcludes(t, b, a);
    }
  }

  /** A pending request excludes the other relations of its pair. */
  lemma PendingExcludes(t: Tables, a: UserId, b: UserId)
    requires t.Good() && a != b && t.PendingFrom(a, b) != {}
    ensures !t.AreFriends(a, b) && !t.BlockedEither(a, b) && t.PendingFrom(b, a) == {}
  {
    var i := Pick(t.PendingFrom(a, b));
    assert t.requests[i].Users() == PairOf(a, b);
    forall j ensures j !in t.PendingFrom(b, a) {
      assert j in t.PendingFrom(b, a) ==> t.requests[j].Users() == PairOf(a, b);
    }
  }
}
