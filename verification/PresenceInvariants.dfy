/** What every schedule of sockets, sends, closures and forced disconnects keeps. */
module PresenceInvariants {
  import opened Wrappers
  import opened WsConnections
  import opened PresenceProtocol

  /** The socket has registered for `u` and has not unregistered. */
  ghost predicate Live(sockets: map<SocketId, Socket>, x: SocketId, u: UserId) {
    x in sockets && sockets[x].user == Some(u) && (sockets[x].phase.Loop? || sockets[x].phase.Leave?)
  }

  ghost predicate SocketInv(k: Socket) {
    && (k.authenticated <==> k.user.Some?)
    && (k.phase.Greet? || k.phase.Leave? ==> k.user.Some?)
  }

  ghost predicate SectionInv(section: Section, sockets: map<SocketId, Socket>) {
    match section
    case Free => true
    case Entering(x) => x in sockets && sockets[x].phase.Greet?
    case Greeting(x, cameOnline, again) =>
      x in sockets && sockets[x].phase.Loop? && sockets[x].user.Some? && (again ==> cameOnline)
    case Retaining(x) => x in sockets && sockets[x].phase.Leave?
    case Removing(x) => x in sockets && sockets[x].phase.Left? && sockets[x].user.Some?
    case Dropping(_) => true
    case Casting(owner, _) =>
      owner.Some? ==> owner.value in sockets && sockets[owner.value].user.Some?
                      && (sockets[owner.value].phase.Loop? || sockets[owner.value].phase.Left?)
  }

  /** Each socket registers once, for the user it is authenticated as. */
  ghost predicate RegistrationInv(registrations: seq<(SocketId, UserId)>, sockets: map<SocketId, Socket>) {
    && (forall r <- registrations :: r.0 in sockets && sockets[r.0].user == Some(r.1) && !sockets[r.0].phase.Greet?)
    && (forall i, j | 0 <= i < j < |registrations| :: registrations[i].0 != registrations[j].0)
    && (forall x <- sockets | sockets[x].user.Some? && !sockets[x].phase.Greet? ::
          (x, sockets[x].user.value) in registrations)
  }

  /** Stored connections are live sockets of their user, each stored once. */
  ghost predicate ConnectionInv(c: Connections, sockets: map<SocketId, Socket>) {
    forall u <- c :: Distinct(c[u]) && forall x <- c[u] :: Live(sockets, x, u)
  }

  /** The user whose last connection is being unregistered. */
  function LeavingUser(section: Section, sockets: map<SocketId, Socket>): Option<UserId> {
    if section.Removing? && section.sock in sockets then sockets[section.sock].user else None
  }

  ghost predicate HasLive(sockets: map<SocketId, Socket>, u: UserId) {
    exists x :: Live(sockets, x, u)
  }

  /** A user in the map has a live socket, but for an empty list about to be removed. */
  ghost predicate KeyInv(c: Connections, section: Section, sockets: map<SocketId, Socket>) {
    forall u <- c :: HasLive(sockets, u) || (c[u] == [] && LeavingUser(section, sockets) == Some(u))
  }

  /** The user whose online event is still to be broadcast. */
  function ArrivingUser(section: Section, sockets: map<SocketId, Socket>): Option<UserId> {
    if section.Greeting? && section.cameOnline && section.sock in sockets then sockets[section.sock].user else None
  }

  /** A user is in the map exactly when the latest event says online, but for an announcement still to come. */
  ghost predicate EventInv(s: State) {
    forall u: UserId ::
      if ArrivingUser(s.section, s.sockets) == Some(u)
      then u in s.connections && LastOnline(s.events, u) == s.section.again
      else u in s.connections <==> LastOnline(s.events, u)
  }

  ghost predicate OrderInv(events: seq<Event>, reopened: set<UserId>) {
    forall u: UserId ::
      && OfflineEndsOnline(OfUser(events, u))
      && (Alternates(OfUser(events, u)) <==> u !in reopened)
  }

  /** Only pruning leaves a list empty. */
  ghost predicate PruneInv(s: State) {
    && s.reopened <= s.pruned
    && (s.section.Greeting? && s.section.again ==>
          s.section.sock in s.sockets && s.sockets[s.section.sock].user.Some?
          && s.sockets[s.section.sock].user.value in s.pruned)
    && (forall u <- s.connections :: s.connections[u] == [] ==>
          u in s.pruned || LeavingUser(s.section, s.sockets) == Some(u))
  }

  ghost predicate Inv(s: State) {
    && (forall x <- s.sockets :: SocketInv(s.sockets[x]))
    && SectionInv(s.section, s.sockets)
    && RegistrationInv(s.registrations, s.sockets)
    && ConnectionInv(s.connections, s.sockets)
    && KeyInv(s.connections, s.section, s.sockets)
    && EventInv(s)
    && OrderInv(s.events, s.reopened)
    && PruneInv(s)
  }

  /** Dropping closed connections disturbs nothing: no key leaves, and the user is recorded. */
  lemma PruneKeepsInv(s: State, u: UserId)
    requires Inv(s)
    ensures Inv(PruneUser(s, u))
  {
    if u in s.connections {
      WithoutMembers(s.connections[u], s.closed);
      WithoutKeepsDistinct(s.connections[u], s.closed);
      if !exists x <- s.connections[u] :: x in s.closed {
        WithoutAbsent(s.connections[u], s.closed);
      }
    }
  }

  /** A socket changes in its loop. */
  lemma SocketStep(s: State, x: SocketId, k: Socket)
    requires Inv(s) && SocketInv(k)
    requires if x in s.sockets
      then Looping(s, x)
           && (if s.sockets[x].user.Some? then k.user == s.sockets[x].user && (k.phase.Loop? || k.phase.Leave?)
               else k.user == None || k.phase.Greet?)
      else k.user == None || k.phase.Greet?
    ensures Inv(WithSocket(s, x, k))
  {
    var s' := WithSocket(s, x, k);
    assert forall y, u :: Live(s.sockets, y, u) ==> Live(s'.sockets, y, u);
    assert ArrivingUser(s'.section, s'.sockets) == ArrivingUser(s.section, s.sockets);
    assert LeavingUser(s'.section, s'.sockets) == LeavingUser(s.section, s.sockets);
  }

  lemma OfUserAppend(events: seq<Event>, e: Event, u: UserId)
    ensures OfUser(events + [e], u) == OfUser(events, u) + if e.user == u then [e.Online?] else []
  {
    assert (events + [e])[..|events|] == events;
  }

  /** An event of `v` leaves the history of the others as it was. */
  lemma EventKeepsOrder(events: seq<Event>, e: Event, reopened: set<UserId>)
    requires OrderInv(events, reopened)
    requires e.Offline? ==> LastOnline(events, e.user)
    ensures OrderInv(events + [e],
                     if e.Online? && LastOnline(events, e.user) then reopened + {e.user} else reopened)
    ensures forall u: UserId :: u != e.user ==> LastOnline(events + [e], u) == LastOnline(events, u)
    ensures LastOnline(events + [e], e.user) == e.Online?
  {
    forall u: UserId
      ensures OfUser(events + [e], u) == OfUser(events, u) + if e.user == u then [e.Online?] else []
    {
      OfUserAppend(events, e, u);
    }
    var before := OfUser(events, e.user);
    AlternationStep(before, e.Online?);
    var reopened' := if e.Online? && LastOnline(events, e.user) then reopened + {e.user} else reopened;
    forall u: UserId
      ensures OfflineEndsOnline(OfUser(events + [e], u))
      ensures Alternates(OfUser(events + [e], u)) <==> u !in reopened'
    {
      assert Alternates(OfUser(events, u)) <==> u !in reopened;
      if u == e.user {
        assert OfUser(events + [e], u) == before + [e.Online?];
      } else {
        assert OfUser(events + [e], u) == OfUser(events, u);
      }
    }
  }

  lemma AlternationStep(e: seq<bool>, online: bool)
    requires OfflineEndsOnline(e)
    requires online || (e != [] && e[|e| - 1])
    ensures OfflineEndsOnline(e + [online])
    ensures Alternates(e + [online]) <==> Alternates(e) && !(online && e != [] && e[|e| - 1])
  {
    var f := e + [online];
    if Alternates(e) {
      assert e != [] ==> e[|e| - 1] == ((|e| - 1) % 2 == 0);
      assert f[|e|] == online;
    } else {
      var i :| 0 <= i < |e| && e[i] != (i % 2 == 0);
      assert f[i] == e[i];
    }
  }

  lemma EnteringKeepsRegistrations(s: State, x: SocketId, v: UserId)
    requires RegistrationInv(s.registrations, s.sockets)
    requires x in s.sockets && s.sockets[x].phase.Greet? && s.sockets[x].user == Some(v)
    ensures RegistrationInv(s.registrations + [(x, v)], s.sockets[x := s.sockets[x].(phase := Loop)])
  {
    assert forall r <- s.registrations :: r.0 != x;
  }

  lemma EnteringKeepsConnections(s: State, x: SocketId, v: UserId)
    requires ConnectionInv(s.connections, s.sockets)
    requires x in s.sockets && s.sockets[x].phase.Greet? && s.sockets[x].user == Some(v)
    ensures ConnectionInv(Registered(s.connections, v, x), s.sockets[x := s.sockets[x].(phase := Loop)])
  {
    var sockets' := s.sockets[x := s.sockets[x].(phase := Loop)];
    assert forall y, w :: Live(s.sockets, y, w) ==> Live(sockets', y, w);
    assert x !in Listed(s.connections, v);
    assert Live(sockets', x, v);
  }

  lemma EnteringKeepsInv(s: State, u: UserId)
    requires Inv(s) && s.section.Entering?
    ensures Inv(StepSection(s, u))
  {
    var s' := StepSection(s, u);
    var x := s.section.sock;
    assert SocketInv(s.sockets[x]);
    var v := s.sockets[x].user.value;
    EnteringKeepsRegistrations(s, x, v);
    EnteringKeepsConnections(s, x, v);
    assert Live(s'.sockets, x, v);
    assert forall y, w :: Live(s.sockets, y, w) ==> Live(s'.sockets, y, w);
    assert KeyInv(s'.connections, s'.section, s'.sockets);
    EnteringKeepsEvents(s, s', u, x, v);
  }

  lemma EnteringKeepsEvents(s: State, s': State, u: UserId, x: SocketId, v: UserId)
    requires EventInv(s) && PruneInv(s) && s.section == Entering(x)
    requires x in s.sockets && s.sockets[x].user == Some(v) && s' == StepSection(s, u)
    ensures EventInv(s') && PruneInv(s')
  {
    assert forall w: UserId :: w in s.connections <==> LastOnline(s.events, w);
  }

  lemma GreetingKeepsInv(s: State, u: UserId)
    requires Inv(s) && s.section.Greeting?
    ensures Inv(StepSection(s, u))
  {
    var v := s.sockets[s.section.sock].user.value;
    if s.section.cameOnline {
      EventKeepsOrder(s.events, Online(v), s.reopened);
    }
  }

  lemma RetainedKeepsConnections(s: State, x: SocketId, v: UserId)
    requires ConnectionInv(s.connections, s.sockets) && x in s.sockets
    requires s.sockets[x].user == Some(v)
    ensures ConnectionInv(Retained(s.connections, v, x), s.sockets[x := s.sockets[x].(phase := Left)])
  {
    var left := s.sockets[x := s.sockets[x].(phase := Left)];
    var c := Retained(s.connections, v, x);
    forall u | u in c ensures Distinct(c[u]) && forall y <- c[u] :: Live(left, y, u) {
      if u == v {
        WithoutMembers(s.connections[v], {x});
        WithoutKeepsDistinct(s.connections[v], {x});
      }
      forall y | y in c[u] ensures Live(left, y, u) {
        assert Live(s.sockets, y, u);
      }
    }
  }

  lemma RetainingKeepsInv(s: State, u: UserId)
    requires Inv(s) && s.section.Retaining?
    ensures Inv(StepSection(s, u))
  {
    var s' := StepSection(s, u);
    var x := s.section.sock;
    var v := s.sockets[x].user.value;
    RetainedKeepsConnections(s, x, v);
    forall w | w in s'.connections
      ensures HasLive(s'.sockets, w) || (s'.connections[w] == [] && LeavingUser(s'.section, s'.sockets) == Some(w))
    {
      RetainedHasLive(s, x, v, w);
    }
  }

  /** After the connections of `x` are dropped, whoever is still listed has a live socket, or is leaving. */
  lemma RetainedHasLive(s: State, x: SocketId, v: UserId, w: UserId)
    requires KeyInv(s.connections, s.section, s.sockets) && ConnectionInv(s.connections, s.sockets)
    requires s.section == Retaining(x) && x in s.sockets && s.sockets[x].user == Some(v)
    requires w in s.connections
    ensures var left := s.sockets[x := s.sockets[x].(phase := Left)];
      HasLive(left, w) || (w == v && Retained(s.connections, v, x)[w] == [])
  {
    var left := s.sockets[x := s.sockets[x].(phase := Left)];
    if w != v {
      var y :| Live(s.sockets, y, w);
      assert Live(left, y, w);
    } else {
      WithoutMembers(s.connections[v], {x});
      var kept := Without(s.connections[v], {x});
      if kept != [] {
        assert kept[0] in kept;
        assert Live(s.sockets, kept[0], v);
        assert Live(left, kept[0], v);
      }
    }
  }

  /** A user leaves the map; the sockets keep their users and phases. */
  lemma LeavingKeepsMap(
    c: Connections, section: Section, section': Section,
    sockets: map<SocketId, Socket>, sockets': map<SocketId, Socket>, v: UserId)
    requires ConnectionInv(c, sockets) && KeyInv(c, section, sockets)
    requires LeavingUser(section, sockets) in {None, Some(v)}
    requires sockets'.Keys == sockets.Keys
    requires forall x <- sockets :: sockets'[x].user == sockets[x].user && sockets'[x].phase == sockets[x].phase
    ensures ConnectionInv(c - {v}, sockets') && KeyInv(c - {v}, section', sockets')
  {
    assert forall y, w :: Live(sockets, y, w) ==> Live(sockets', y, w);
  }

  lemma LeavingKeepsEvents(s: State, s': State, v: UserId)
    requires EventInv(s) && PruneInv(s) && OrderInv(s.events, s.reopened)
    requires v in s.connections && !s.section.Greeting? && LeavingUser(s.section, s.sockets) in {None, Some(v)}
    requires s'.connections == s.connections - {v} && s'.events == s.events + [Offline(v)]
    requires s'.section.Casting? && s'.reopened == s.reopened && s'.pruned == s.pruned
    ensures EventInv(s') && PruneInv(s') && OrderInv(s'.events, s'.reopened)
  {
    EventKeepsOrder(s.events, Offline(v), s.reopened);
  }

  lemma RemovingKeepsInv(s: State, u: UserId)
    requires Inv(s) && s.section.Removing?
    ensures Inv(StepSection(s, u))
  {
    var s' := StepSection(s, u);
    var v := s.sockets[s.section.sock].user.value;
    if v in s.connections && s.connections[v] == [] {
      LeavingKeepsMap(s.connections, s.section, s'.section, s.sockets, s'.sockets, v);
      LeavingKeepsEvents(s, s', v);
    } else if v in s.connections {
      assert s.connections[v][0] in s.connections[v];
      assert Live(s.sockets, s.connections[v][0], v);
    }
  }

  lemma DroppingKeepsInv(s: State, u: UserId)
    requires Inv(s) && s.section.Dropping?
    ensures Inv(StepSection(s, u))
  {
    var s' := StepSection(s, u);
    var v := s.section.user;
    if v in s.connections {
      LeavingKeepsMap(s.connections, s.section, s'.section, s.sockets, s'.sockets, v);
      LeavingKeepsEvents(s, s', v);
      ToldKeepsSockets(s.sockets, s'.sockets, s.registrations);
    }
  }

  lemma ToldKeepsSockets(
    sockets: map<SocketId, Socket>, sockets': map<SocketId, Socket>, registrations: seq<(SocketId, UserId)>)
    requires RegistrationInv(registrations, sockets) && forall x <- sockets :: SocketInv(sockets[x])
    requires sockets'.Keys == sockets.Keys
    requires forall x <- sockets :: sockets'[x] == sockets[x].(told := sockets'[x].told)
    ensures RegistrationInv(registrations, sockets') && forall x <- sockets' :: SocketInv(sockets'[x])
  {
  }

  lemma CastingKeepsInv(s: State, u: UserId)
    requires Inv(s) && s.section.Casting?
    ensures Inv(StepSection(s, u))
  {
    if u in s.section.todo {
      PruneKeepsInv(s, u);
    }
  }

  lemma SectionKeepsInv(s: State, u: UserId)
    requires Inv(s)
    ensures Inv(StepSection(s, u))
  {
    match s.section
    case Free =>
    case Entering(_) => EnteringKeepsInv(s, u);
    case Greeting(_, _, _) => GreetingKeepsInv(s, u);
    case Retaining(_) => RetainingKeepsInv(s, u);
    case Removing(_) => RemovingKeepsInv(s, u);
    case Dropping(_) => DroppingKeepsInv(s, u);
    case Casting(_, _) => CastingKeepsInv(s, u);
  }

  lemma LockKeepsInv(s: State, section: Section)
    requires Inv(s) && s.section.Free? && SectionInv(section, s.sockets)
    requires section.Entering? || section.Retaining? || section.Dropping?
    ensures Inv(s.(section := section))
  {
  }

  /** What a frame does to a socket in its loop: it stays with its user, or authenticates for the first time. */
  lemma FrameKeepsSocket(k: Socket, frame: Frame)
    requires SocketInv(k) && k.phase.Loop?
    ensures var k' := OnFrame(k, frame);
      && SocketInv(k')
      && (if k.user.Some? then k'.user == k.user && (k'.phase.Loop? || k'.phase.Leave?)
          else k'.user == None || k'.phase.Greet?)
  {
  }

  lemma NextKeepsInv(s: State, l: Label)
    requires Inv(s)
    ensures Inv(Next(s, l))
  {
    match l
    case Spawn(x, initial) =>
      if x !in s.sockets {
        SocketStep(s, x, Socket(if initial.Some? then Greet else Loop, initial, initial.Some?, initial.Some?, false));
      }
    case Lock(x) =>
      if x in s.sockets && s.section.Free? && s.sockets[x].phase.Greet? {
        LockKeepsInv(s, Entering(x));
      } else if x in s.sockets && s.section.Free? && s.sockets[x].phase.Leave? {
        LockKeepsInv(s, Retaining(x));
      }
    case LockToDisconnect(u) =>
      if s.section.Free? {
        LockKeepsInv(s, Dropping(u));
      }
    case SectionStep(u) => SectionKeepsInv(s, u);
    case Send(u) => PruneKeepsInv(s, u);
    case CloseChannel(x) => assert Inv(s.(closed := s.closed + {x}));
    case Receive(x, frame) =>
      if Looping(s, x) {
        FrameKeepsSocket(s.sockets[x], frame);
        SocketStep(s, x, OnFrame(s.sockets[x], frame));
      }
    case AuthDeadline(x) => BreakKeepsInv(s, x);
    case TokenExpiry(x) => BreakKeepsInv(s, x);
    case Disconnected(x) => BreakKeepsInv(s, x);
    case HeartbeatTimeout(x) => BreakKeepsInv(s, x);
  }

  lemma BreakKeepsInv(s: State, x: SocketId)
    requires Inv(s)
    ensures Looping(s, x) ==> Inv(WithSocket(s, x, Break(s.sockets[x])))
  {
    if Looping(s, x) {
      SocketStep(s, x, Break(s.sockets[x]));
    }
  }

  lemma {:induction false} EveryScheduleKeepsInv(schedule: seq<Label>)
    ensures Inv(Run(schedule))
  {
    if schedule != [] {
      EveryScheduleKeepsInv(schedule[..|schedule| - 1]);
      NextKeepsInv(Run(schedule[..|schedule| - 1]), schedule[|schedule| - 1]);
    }
  }
}
