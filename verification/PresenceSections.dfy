/**
  The sections of the presence protocol, when nothing else runs in between, do
  what the methods of `WsState` do.
 */
module PresenceSections {
  import opened Wrappers
  import opened WsConnections
  import opened PresenceProtocol

  /** The holder of the presence lock takes its steps; `users` says whom each step of a broadcast visits. */
  function Alone(s: State, users: seq<UserId>): State
    decreases |users|
  {
    if users == [] then s else Alone(StepSection(s, users[0]), users[1..])
  }

  function Shown(s: State): Presence {
    Presence(s.connections, s.events)
  }

  function PrunedIn(c: Connections, todo: set<UserId>, closed: set<SocketId>): Connections {
    map u | u in c :: if u in todo then Without(c[u], closed) else c[u]
  }

  /** A broadcast can visit the entries it has not visited yet, and then lets go of the lock. */
  lemma {:induction false} CastFinishes(s: State) returns (users: seq<UserId>)
    requires s.section.Casting? && s.section.todo <= s.connections.Keys
    ensures Alone(s, users).section == Free
    ensures Shown(Alone(s, users)) == Presence(PrunedIn(s.connections, s.section.todo, s.closed), s.events)
    decreases |s.section.todo|
  {
    var todo := s.section.todo;
    if todo == {} {
      users := [0];
      assert Alone(s, users) == Alone(Release(s), []);
      assert PrunedIn(s.connections, {}, s.closed) == s.connections;
    } else {
      var u :| u in todo;
      var t := StepSection(s, u);
      var rest := CastFinishes(t);
      users := [u] + rest;
      assert Alone(s, users) == Alone(t, rest);
      assert PrunedIn(t.connections, todo - {u}, s.closed) == PrunedIn(s.connections, todo, s.closed);
    }
  }

  lemma CastAll(s: State, event: Event, owner: Option<SocketId>) returns (users: seq<UserId>)
    ensures Alone(StartCast(s, event, owner), users).section == Free
    ensures Shown(Alone(StartCast(s, event, owner), users)) == Shown(s).Announce(event, s.closed)
  {
    users := CastFinishes(StartCast(s, event, owner));
    assert PrunedIn(s.connections, s.connections.Keys, s.closed) == PrunedAll(s.connections, s.closed);
  }

  /** The registering section. */
  lemma RegisterAlone(s: State, x: SocketId) returns (users: seq<UserId>)
    requires s.section == Entering(x) && x in s.sockets && s.sockets[x].user.Some?
    ensures Alone(s, users).section == Free
    ensures Shown(Alone(s, users)) == Shown(s).Register(s.sockets[x].user.value, x, s.closed)
  {
    var v := s.sockets[x].user.value;
    var t := StepSection(s, 0);
    var told := StepSection(t, 0);
    users := [];
    if Listed(s.connections, v) == [] {
      users := CastAll(t.(reopened := told.reopened), Online(v), Some(x));
    }
    assert Alone(told, users).section == Free;
    users := [0, 0] + users;
    assert users[1..][1..] == users[2..];
  }

  /** The unregistering section. */
  lemma UnregisterAlone(s: State, x: SocketId) returns (users: seq<UserId>)
    requires s.section == Retaining(x) && x in s.sockets && s.sockets[x].user.Some?
    ensures Alone(s, users).section == Free
    ensures Shown(Alone(s, users)) == Shown(s).Unregister(s.sockets[x].user.value, x, s.closed)
  {
    var v := s.sockets[x].user.value;
    var t := StepSection(s, 0);
    var left := StepSection(t, 0);
    if v in s.connections {
      WithoutMembers(s.connections[v], {x});
    }
    users := [];
    if Shown(s).LastOf(v, x) {
      assert t.connections - {v} == s.connections - {v};
      users := CastAll(t.(connections := t.connections - {v}), Offline(v), Some(x));
    }
    assert Alone(left, users).section == Free;
    users := [0, 0] + users;
    assert users[1..][1..] == users[2..];
  }

  /** The forced disconnect. */
  lemma DisconnectAlone(s: State, v: UserId) returns (users: seq<UserId>)
    requires s.section == Dropping(v)
    ensures Alone(s, users).section == Free
    ensures Shown(Alone(s, users)) == Shown(s).Disconnect(v, s.closed)
    ensures forall x <- Listed(s.connections, v) :: x in s.sockets ==> StepSection(s, 0).sockets[x].told
  {
    var t := StepSection(s, 0);
    users := [];
    if v in s.connections {
      users := CastAll(s.(connections := s.connections - {v}, sockets := t.sockets), Offline(v), None);
    }
    assert Alone(t, users).section == Free;
    users := [0] + users;
  }
}
