/**
  The WebSocket presence protocol: sockets that register and unregister under
  the presence lock, while sends outside it prune closed connections.

  A critical section is a sequence of steps; between any two of them other
  sockets, sends and channel closures may act. Labels that cannot proceed leave
  the state as it is.
 */
module PresenceProtocol {
  import opened Wrappers
  import opened WsConnections

  /** The application messages; `identity` is the user a valid token names. */
  datatype ClientMessage =
    | Auth(identity: Option<UserId>)
    | Ping
    | Subscribe(channel: string)
    | Unsubscribe(channel: string)

  /** What the socket receives; a text that is no application message parses to `None`. */
  datatype Frame =
    | Text(parsed: Option<ClientMessage>)
    | CloseFrame
    | EndOfStream
    | PingFrame
    | PongFrame
    | Binary
    | Failed

  datatype Reply = Accepted(message: ClientMessage) | InvalidMessage | AlreadyAuthenticated | AuthenticateFirst

  function ParseApplicationMessage(parsed: Option<ClientMessage>, authenticated: bool): Reply {
    match parsed
    case None => if authenticated then InvalidMessage else AuthenticateFirst
    case Some(m) =>
      if m.Auth? then if authenticated then AlreadyAuthenticated else Accepted(m)
      else if authenticated then Accepted(m) else AuthenticateFirst
  }

  /** A first message repeating the identity the upgrade established. */
  predicate CompatibleRedundantIdentity(parsed: Option<ClientMessage>, user: Option<UserId>) {
    parsed.Some? && parsed.value.Auth? && parsed.value.identity.Some? && parsed.value.identity == user
  }

  /** `Greet` and `Leave` want the presence lock; `Left` has unregistered. */
  datatype Phase = Greet | Loop | Leave | Left

  datatype Socket = Socket(
    phase: Phase,
    user: Option<UserId>,
    authenticated: bool,
    acceptsCompatible: bool,
    told: bool)

  /** The step the holder of the presence lock is at. */
  datatype Section =
    | Free
    | Entering(sock: SocketId)
    | Greeting(sock: SocketId, cameOnline: bool, again: bool)
    | Retaining(sock: SocketId)
    | Removing(sock: SocketId)
    | Dropping(user: UserId)
    | Casting(owner: Option<SocketId>, todo: set<UserId>)
  {
    predicate Owned(s: SocketId) {
      match this
      case Free => false
      case Entering(x) => x == s
      case Greeting(x, _, _) => x == s
      case Retaining(x) => x == s
      case Removing(x) => x == s
      case Dropping(_) => false
      case Casting(o, _) => o == Some(s)
    }
  }

  /**
    `closed` are the channels whose receiver is gone. The last four fields only
    record what happened: the presence events broadcast, the registrations, the
    users re-announced over an empty list, and the users from whose list a
    closed connection was dropped.
   */
  datatype State = State(
    connections: Connections,
    section: Section,
    sockets: map<SocketId, Socket>,
    closed: set<SocketId>,
    events: seq<Event>,
    registrations: seq<(SocketId, UserId)>,
    reopened: set<UserId>,
    pruned: set<UserId>)

  const INIT: State := State(map[], Free, map[], {}, [], [], {}, {})

  datatype Label =
    | Spawn(sock: SocketId, initial: Option<UserId>)
    | Lock(sock: SocketId)
    | LockToDisconnect(user: UserId)
    | SectionStep(user: UserId)
    | Send(user: UserId)
    | CloseChannel(sock: SocketId)
    | Receive(sock: SocketId, frame: Frame)
    | AuthDeadline(sock: SocketId)
    | TokenExpiry(sock: SocketId)
    | Disconnected(sock: SocketId)
    | HeartbeatTimeout(sock: SocketId)

  /** The socket is in its select loop. */
  predicate Looping(s: State, x: SocketId) {
    x in s.sockets && s.sockets[x].phase.Loop? && !s.section.Owned(x)
  }

  function Break(socket: Socket): Socket {
    socket.(phase := if socket.user.Some? then Leave else Left)
  }

  function OnText(socket: Socket, parsed: Option<ClientMessage>): Socket {
    var heard := socket.(acceptsCompatible := false);
    if socket.acceptsCompatible && CompatibleRedundantIdentity(parsed, socket.user) then heard
    else
      match ParseApplicationMessage(parsed, socket.authenticated)
      case Accepted(Auth(Some(id))) => heard.(user := Some(id), authenticated := true, phase := Greet)
      case Accepted(Auth(None)) => Break(heard)
      case Accepted(_) => heard
      case _ => Break(heard)
  }

  function OnFrame(socket: Socket, frame: Frame): Socket {
    match frame
    case Text(parsed) => OnText(socket, parsed)
    case CloseFrame => Break(socket)
    case EndOfStream => Break(socket)
    case PingFrame => socket
    case PongFrame => socket
    case Binary => if socket.authenticated then socket else Break(socket)
    case Failed => Break(socket)
  }

  /** Drops the closed connections of `u` and records whether there were any. */
  function PruneUser(s: State, u: UserId): State {
    s.(connections := Pruned(s.connections, u, s.closed),
       pruned := if exists x <- Listed(s.connections, u) :: x in s.closed then s.pruned + {u} else s.pruned)
  }

  function StartCast(s: State, event: Event, owner: Option<SocketId>): State {
    s.(events := s.events + [event], section := Casting(owner, s.connections.Keys))
  }

  /** The section of a socket is left: an unregistered socket stays so, a greeted one loops. */
  function Release(s: State): State {
    s.(section := Free)
  }

  function StepSection(s: State, u: UserId): State {
    match s.section
    case Free => s
    case Entering(x) =>
      if x !in s.sockets || s.sockets[x].user.None? then Release(s)
      else
        var v := s.sockets[x].user.value;
        var list := Listed(s.connections, v);
        s.(connections := Registered(s.connections, v, x),
           registrations := s.registrations + [(x, v)],
           sockets := s.sockets[x := s.sockets[x].(phase := Loop)],
           section := Greeting(x, list == [], list == [] && v in s.connections))
    case Greeting(x, cameOnline, again) =>
      if x !in s.sockets || s.sockets[x].user.None? then Release(s)
      else
        var v := s.sockets[x].user.value;
        var announced := s.(reopened := if again then s.reopened + {v} else s.reopened);
        if cameOnline then StartCast(announced, Online(v), Some(x)) else Release(announced)
    case Retaining(x) =>
      if x !in s.sockets || s.sockets[x].user.None? then Release(s)
      else
        s.(connections := Retained(s.connections, s.sockets[x].user.value, x),
           sockets := s.sockets[x := s.sockets[x].(phase := Left)],
           section := Removing(x))
    case Removing(x) =>
      if x !in s.sockets || s.sockets[x].user.None? then Release(s)
      else
        var v := s.sockets[x].user.value;
        if v in s.connections && s.connections[v] == []
        then StartCast(s.(connections := s.connections - {v}), Offline(v), Some(x)) else Release(s)
    case Dropping(v) =>
      if v !in s.connections then Release(s)
      else
        var list := s.connections[v];
        StartCast(s.(connections := s.connections - {v},
                     sockets := map x | x in s.sockets :: s.sockets[x].(told := s.sockets[x].told || x in list)),
                  Offline(v), None)
    case Casting(owner, todo) =>
      if todo == {} then Release(s)
      else if u in todo then PruneUser(s, u).(section := Casting(owner, todo - {u}))
      else s
  }

  function WithSocket(s: State, x: SocketId, socket: Socket): State {
    s.(sockets := s.sockets[x := socket])
  }

  function Next(s: State, l: Label): State {
    match l
    case Spawn(x, initial) =>
      if x in s.sockets then s
      else WithSocket(s, x, Socket(if initial.Some? then Greet else Loop, initial, initial.Some?, initial.Some?, false))
    case Lock(x) =>
      if x !in s.sockets || !s.section.Free? then s
      else if s.sockets[x].phase.Greet? then s.(section := Entering(x))
      else if s.sockets[x].phase.Leave? then s.(section := Retaining(x))
      else s
    case LockToDisconnect(u) => if s.section.Free? then s.(section := Dropping(u)) else s
    case SectionStep(u) => StepSection(s, u)
    case Send(u) => PruneUser(s, u)
    case CloseChannel(x) => s.(closed := s.closed + {x})
    case Receive(x, frame) =>
      if Looping(s, x) then WithSocket(s, x, OnFrame(s.sockets[x], frame)) else s
    case AuthDeadline(x) =>
      if Looping(s, x) && !s.sockets[x].authenticated then WithSocket(s, x, Break(s.sockets[x])) else s
    case TokenExpiry(x) =>
      if Looping(s, x) && s.sockets[x].authenticated then WithSocket(s, x, Break(s.sockets[x])) else s
    case Disconnected(x) =>
      if Looping(s, x) && s.sockets[x].told then WithSocket(s, x, Break(s.sockets[x])) else s
    case HeartbeatTimeout(x) =>
      if Looping(s, x) then WithSocket(s, x, Break(s.sockets[x])) else s
  }

  /** The state after a schedule. */
  function Run(schedule: seq<Label>): State {
    if schedule == [] then INIT
    else Next(Run(schedule[..|schedule| - 1]), schedule[|schedule| - 1])
  }

  /** The socket has left its presence section after leaving its loop. */
  predicate Exited(s: State, x: SocketId) {
    x in s.sockets && s.sockets[x].phase.Left? && !s.section.Owned(x)
  }

  /** The presence events of one user, true for online. */
  function OfUser(events: seq<Event>, u: UserId): seq<bool> {
    if events == [] then []
    else
      var last := events[|events| - 1];
      OfUser(events[..|events| - 1], u) + if last.user == u then [last.Online?] else []
  }

  /** The latest presence event of the user is online. */
  predicate LastOnline(events: seq<Event>, u: UserId) {
    var e := OfUser(events, u);
    e != [] && e[|e| - 1]
  }

  /** Online first, then offline and online in turn. */
  ghost predicate Alternates(e: seq<bool>) {
    forall i | 0 <= i < |e| :: e[i] == (i % 2 == 0)
  }

  /** No offline event comes first or after another offline event. */
  ghost predicate OfflineEndsOnline(e: seq<bool>) {
    forall i | 0 <= i < |e| :: !e[i] ==> i > 0 && e[i - 1]
  }
}
