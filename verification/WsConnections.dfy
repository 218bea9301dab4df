/**
  The connection map of the WebSocket layer: the operations of `WsState` on a
  map that is updated in place, and the functions that specify them.
 */
module WsConnections {

  type UserId = nat
  type SocketId = nat

  /** Connections are identified by their channel; a user may have several. */
  type Connections = map<UserId, seq<SocketId>>

  datatype Event = Online(user: UserId) | Offline(user: UserId)

  /** `retain`: the connections of `list` outside `gone`, in order. */
  function Without(list: seq<SocketId>, gone: set<SocketId>): seq<SocketId> {
    if list == [] then []
    else if list[0] in gone then Without(list[1..], gone)
    else [list[0]] + Without(list[1..], gone)
  }

  lemma {:induction false} WithoutMembers(list: seq<SocketId>, gone: set<SocketId>)
    ensures forall s :: s in Without(list, gone) <==> s in list && s !in gone
    ensures Without(list, gone) == [] <==> forall s <- list :: s in gone
  {
    if list != [] {
      WithoutMembers(list[1..], gone);
      assert forall s :: s in list <==> s == list[0] || s in list[1..];
    }
  }

  lemma {:induction false} WithoutAppend(a: seq<SocketId>, s: SocketId, gone: set<SocketId>)
    ensures Without(a + [s], gone) == Without(a, gone) + if s in gone then [] else [s]
  {
    if a == [] {
      assert Without([s], gone) == if s in gone then [] else [s];
    } else {
      WithoutAppend(a[1..], s, gone);
      assert (a + [s])[1..] == a[1..] + [s];
    }
  }

  lemma {:induction false} WithoutAbsent(list: seq<SocketId>, gone: set<SocketId>)
    requires forall s <- list :: s !in gone
    ensures Without(list, gone) == list
  {
    if list != [] {
      WithoutAbsent(list[1..], gone);
    }
  }

  /** No connection is stored twice. */
  ghost predicate Distinct(list: seq<SocketId>) {
    forall i, j | 0 <= i < j < |list| :: list[i] != list[j]
  }

  lemma {:induction false} WithoutKeepsDistinct(list: seq<SocketId>, gone: set<SocketId>)
    requires Distinct(list)
    ensures Distinct(Without(list, gone))
  {
    if list != [] {
      WithoutMembers(list[1..], gone);
      WithoutKeepsDistinct(list[1..], gone);
    }
  }

  function Listed(c: Connections, u: UserId): seq<SocketId> {
    if u in c then c[u] else []
  }

  function Registered(c: Connections, u: UserId, s: SocketId): Connections {
    c[u := Listed(c, u) + [s]]
  }

  /** Dropping the closed connections of one user, as every send does. A key may be left with no connection. */
  function Pruned(c: Connections, u: UserId, closed: set<SocketId>): Connections {
    if u in c then c[u := Without(c[u], closed)] else c
  }

  function PrunedAll(c: Connections, closed: set<SocketId>): Connections {
    map u | u in c :: Without(c[u], closed)
  }

  function Retained(c: Connections, u: UserId, s: SocketId): Connections {
    Pruned(c, u, {s})
  }

  function WithoutEmpty(c: Connections, u: UserId): Connections {
    if u in c && c[u] == [] then c - {u} else c
  }

  /** When the last connections of a user were this channel's, the user leaves the map. */
  lemma OnlyOwnConnection(c: Connections, u: UserId, s: SocketId)
    requires u in c && forall x <- c[u] :: x == s
    ensures WithoutEmpty(Retained(c, u, s), u) == c - {u}
  {
    WithoutMembers(c[u], {s});
  }

  /** The map and the events after a presence section that nothing disturbs. */
  datatype Presence = Presence(connections: Connections, events: seq<Event>)
  {
    function Announce(event: Event, closed: set<SocketId>): Presence {
      Presence(PrunedAll(connections, closed), events + [event])
    }

    function Register(u: UserId, s: SocketId, closed: set<SocketId>): Presence {
      var there := Presence(Registered(connections, u, s), events);
      if Listed(connections, u) == [] then there.Announce(Online(u), closed) else there
    }

    /** The user's last connections are this channel's. */
    ghost predicate LastOf(u: UserId, s: SocketId) {
      u in connections && forall x <- connections[u] :: x == s
    }

    ghost function Unregister(u: UserId, s: SocketId, closed: set<SocketId>): Presence {
      if LastOf(u, s) then Presence(connections - {u}, events).Announce(Offline(u), closed)
      else Presence(Retained(connections, u, s), events)
    }

    function Disconnect(u: UserId, closed: set<SocketId>): Presence {
      if u in connections then Presence(connections - {u}, events).Announce(Offline(u), closed) else this
    }
  }

  class WsState {
    var connections: Connections
    /** The presence events broadcast so far. */
    ghost var events: seq<Event>

    ghost function Now(): Presence
      reads this
    {
      Presence(connections, events)
    }

    constructor ()
      ensures connections == map[] && events == []
    {
      connections, events := map[], [];
    }

    /** Whether this is the first connection of the user. */
    method Register(user: UserId, sender: SocketId) returns (wasOffline: bool)
      modifies this`connections
      ensures wasOffline == (Listed(old(connections), user) == [])
      ensures connections == Registered(old(connections), user, sender)
    {
      if user !in connections {
        connections := connections[user := []];
      }
      var senders := connections[user];
      wasOffline := |senders| == 0;
      connections := connections[user := senders + [sender]];
    }

    /** Whether the user has no connection left, and so left the map. */
    method Unregister(user: UserId, sender: SocketId) returns (removed: bool)
      modifies this`connections
      ensures connections == WithoutEmpty(Retained(old(connections), user, sender), user)
      ensures removed <==> user in old(connections) && forall s <- old(connections)[user] :: s == sender
    {
      if user in connections {
        var senders := RetainOpen(connections[user], {sender});
        WithoutMembers(connections[user], {sender});
        connections := connections[user := senders];
      }
      removed := user in connections && connections[user] == [];
      if removed {
        connections := connections - {user};
      }
    }

    /** `Vec::retain` with a closed channel as the reason to drop. */
    method RetainOpen(list: seq<SocketId>, gone: set<SocketId>) returns (kept: seq<SocketId>)
      ensures kept == Without(list, gone)
    {
      kept := [];
      for i := 0 to |list|
        invariant kept == Without(list[..i], gone)
      {
        WithoutAppend(list[..i], list[i], gone);
        assert list[..i + 1] == list[..i] + [list[i]];
        if list[i] !in gone {
          kept := kept + [list[i]];
        }
      }
      assert list[..|list|] == list;
    }

    method SendToUser(user: UserId, closed: set<SocketId>)
      modifies this`connections
      ensures connections == Pruned(old(connections), user, closed)
    {
      if user in connections {
        var senders := RetainOpen(connections[user], closed);
        connections := connections[user := senders];
      }
    }

    /** Every entry is visited once, in any order. */
    method Broadcast(event: Event, closed: set<SocketId>)
      modifies this
      ensures connections == PrunedAll(old(connections), closed)
      ensures events == old(events) + [event]
    {
      events := events + [event];
      ghost var before := connections;
      var todo := connections.Keys;
      while todo != {}
        invariant todo <= connections.Keys == before.Keys
        invariant forall u <- todo :: connections[u] == before[u]
        invariant forall u <- before.Keys - todo :: connections[u] == Without(before[u], closed)
        invariant events == old(events) + [event]
        decreases |todo|
      {
        var u :| u in todo;
        var kept := RetainOpen(connections[u], closed);
        connections := connections[u := kept];
        todo := todo - {u};
      }
      assert forall u <- before :: u in before.Keys - todo;
    }

    method IsOnline(user: UserId) returns (online: bool)
      ensures online <==> Listed(connections, user) != []
    {
      online := user in connections && connections[user] != [];
    }

    /** The connections that are told to close. */
    method DisconnectUser(user: UserId, closed: set<SocketId>) returns (told: seq<SocketId>)
      modifies this
      ensures told == Listed(old(connections), user)
      ensures Now() == old(Now()).Disconnect(user, closed)
    {
      if user !in connections {
        return [];
      }
      told := connections[user];
      connections := connections - {user};
      Broadcast(Offline(user), closed);
    }

    method RegisterAuthenticatedConnection(user: UserId, sender: SocketId, closed: set<SocketId>)
      modifies this
      ensures Now() == old(Now()).Register(user, sender, closed)
    {
      var cameOnline := Register(user, sender);
      if cameOnline {
        Broadcast(Online(user), closed);
      }
    }

    method UnregisterAuthenticatedConnection(user: UserId, sender: SocketId, closed: set<SocketId>)
      returns (offline: bool)
      modifies this
      ensures offline <==> old(Now()).LastOf(user, sender)
      ensures Now() == old(Now()).Unregister(user, sender, closed)
    {
      ghost var before := connections;
      offline := Unregister(user, sender);
      if !offline {
        WithoutMembers(Listed(before, user), {sender});
        return;
      }
      OnlyOwnConnection(before, user, sender);
      Broadcast(Offline(user), closed);
    }
  }
}
