/** The promises of the presence protocol, for every schedule. */
module PresenceTheorems {
  import opened Wrappers
  import opened WsConnections
  import opened PresenceProtocol
  import opened PresenceInvariants

  /** Every socket registers at most once, and only for the user it is authenticated as. */
  lemma RegistersOnce(schedule: seq<Label>, i: nat, j: nat)
    requires i < j < |Run(schedule).registrations|
    ensures var s := Run(schedule);
      && s.registrations[i].0 != s.registrations[j].0
      && s.registrations[i].0 in s.sockets
      && s.sockets[s.registrations[i].0].authenticated
      && s.sockets[s.registrations[i].0].user == Some(s.registrations[i].1)
  {
    EveryScheduleKeepsInv(schedule);
    var s := Run(schedule);
    assert s.registrations[i] in s.registrations;
    assert SocketInv(s.sockets[s.registrations[i].0]);
  }

  /** A frame that carries a token. */
  predicate Token(frame: Frame) {
    frame.Text? && frame.parsed.Some? && frame.parsed.value.Auth?
  }

  /**
    Before authentication only a token or a protocol ping keeps a socket open;
    afterwards its identity is fixed, and another token is tolerated only as the
    first text, repeating the identity the upgrade established.
   */
  ghost predicate Reacts(k: Socket, frame: Frame, n: Socket) {
    && (n.phase.Greet? <==> !k.authenticated && Token(frame) && frame.parsed.value.identity.Some?)
    && (n.phase.Greet? ==> n.authenticated && n.user == frame.parsed.value.identity)
    && (!n.phase.Greet? ==> n.authenticated == k.authenticated && n.user == k.user)
    && (!k.authenticated ==> (n.phase.Loop? <==> frame.PingFrame? || frame.PongFrame?))
    && (k.authenticated && Token(frame) ==>
          (n.phase.Loop? <==> k.acceptsCompatible && k.user == frame.parsed.value.identity))
    && (k.authenticated && !Token(frame) ==>
          (n.phase.Loop? <==> !frame.CloseFrame? && !frame.EndOfStream? && !frame.Failed? && frame != Text(None)))
    && (!n.phase.Greet? && !n.phase.Loop? ==> n.phase == if n.authenticated then Leave else Left)
    && (frame.Text? ==> !n.acceptsCompatible)
  }

  lemma FrameReacts(k: Socket, frame: Frame)
    requires SocketInv(k) && k.phase.Loop?
    ensures Reacts(k, frame, OnFrame(k, frame))
  {
  }

  /** What one frame does to a socket in its loop, in every run. */
  lemma FrameDecides(schedule: seq<Label>, x: SocketId, frame: Frame)
    requires Looping(Run(schedule), x)
    ensures Reacts(Run(schedule).sockets[x], frame, Next(Run(schedule), Receive(x, frame)).sockets[x])
  {
    EveryScheduleKeepsInv(schedule);
    assert SocketInv(Run(schedule).sockets[x]);
    FrameReacts(Run(schedule).sockets[x], frame);
  }

  /** A socket never forgets an identity, and never becomes tolerant again. */
  ghost predicate Settled(before: Socket, after: Socket) {
    && (before.user.Some? ==> after.user == before.user && after.authenticated)
    && (!before.acceptsCompatible ==> !after.acceptsCompatible)
  }

  lemma StepSettles(s: State, l: Label, x: SocketId)
    requires x in s.sockets && SocketInv(s.sockets[x])
    ensures x in Next(s, l).sockets && Settled(s.sockets[x], Next(s, l).sockets[x])
  {
    if l.Receive? && l.sock == x && Looping(s, x) {
      FrameSettles(s.sockets[x], l.frame);
    } else if l.SectionStep? {
      SectionSettles(s, l.user, x);
    }
  }

  lemma FrameSettles(k: Socket, frame: Frame)
    requires SocketInv(k)
    ensures Settled(k, OnFrame(k, frame))
  {
  }

  lemma SectionSettles(s: State, u: UserId, x: SocketId)
    requires x in s.sockets && SocketInv(s.sockets[x])
    ensures x in StepSection(s, u).sockets && Settled(s.sockets[x], StepSection(s, u).sockets[x])
  {
  }

  lemma OneMoreSettles(schedule: seq<Label>, l: Label, x: SocketId)
    requires x in Run(schedule).sockets
    ensures Run(schedule + [l]) == Next(Run(schedule), l)
    ensures x in Run(schedule + [l]).sockets
    ensures Settled(Run(schedule).sockets[x], Run(schedule + [l]).sockets[x])
  {
    assert (schedule + [l])[..|schedule|] == schedule;
    EveryScheduleKeepsInv(schedule);
    assert SocketInv(Run(schedule).sockets[x]);
    StepSettles(Run(schedule), l, x);
  }

  lemma SettledIsReflexive(schedule: seq<Label>, x: SocketId)
    requires x in Run(schedule).sockets
    ensures Settled(Run(schedule).sockets[x], Run(schedule).sockets[x])
  {
    EveryScheduleKeepsInv(schedule);
    assert SocketInv(Run(schedule).sockets[x]);
  }

  /** Once a socket is authenticated its identity stays what it is, and tolerance once used up stays so. */
  lemma {:induction false} IdentityIsFixed(schedule: seq<Label>, more: seq<Label>, x: SocketId)
    requires x in Run(schedule).sockets
    ensures x in Run(schedule + more).sockets
    ensures Settled(Run(schedule).sockets[x], Run(schedule + more).sockets[x])
    decreases |more|
  {
    if more == [] {
      assert schedule + more == schedule;
      SettledIsReflexive(schedule, x);
    } else {
      var n := |more| - 1;
      IdentityIsFixed(schedule, more[..n], x);
      OneMoreSettles(schedule + more[..n], more[n], x);
      assert schedule + more == schedule + more[..n] + [more[n]];
    }
  }

  /** After a first text, whatever happens in between, any token ends an authenticated socket. */
  lemma LaterTokenEndsSocket(
    schedule: seq<Label>, first: Option<ClientMessage>, more: seq<Label>, x: SocketId, token: ClientMessage)
    requires Looping(Run(schedule), x) && token.Auth?
    requires var later := schedule + [Receive(x, Text(first))] + more;
      Looping(Run(later), x) && Run(later).sockets[x].authenticated
    ensures var later := schedule + [Receive(x, Text(first))] + more;
      Next(Run(later), Receive(x, Text(Some(token)))).sockets[x].phase.Leave?
  {
    var heard := schedule + [Receive(x, Text(first))];
    OneMoreSettles(schedule, Receive(x, Text(first)), x);
    FrameDecides(schedule, x, Text(first));
    IdentityIsFixed(heard, more, x);
    FrameDecides(heard + more, x, Text(Some(token)));
  }

  /** A stored connection belongs to an unexited authenticated socket of that user, and is stored once. */
  lemma StoredConnectionsAreLive(schedule: seq<Label>, u: UserId, x: SocketId)
    requires u in Run(schedule).connections && x in Run(schedule).connections[u]
    ensures var s := Run(schedule);
      && x in s.sockets && s.sockets[x].authenticated && s.sockets[x].user == Some(u) && !Exited(s, x)
      && (x, u) in s.registrations
      && Distinct(s.connections[u])
  {
    EveryScheduleKeepsInv(schedule);
    var s := Run(schedule);
    assert Live(s.sockets, x, u);
    assert SocketInv(s.sockets[x]);
  }

  /** Every user in the map has an unexited authenticated socket, even when the user's list is empty. */
  lemma UsersInTheMapHaveASocket(schedule: seq<Label>, u: UserId)
    requires u in Run(schedule).connections
    ensures var s := Run(schedule);
      exists x <- s.sockets :: s.sockets[x].authenticated && s.sockets[x].user == Some(u) && !Exited(s, x)
  {
    EveryScheduleKeepsInv(schedule);
    var s := Run(schedule);
    if LeavingUser(s.section, s.sockets) == Some(u) {
      assert SocketInv(s.sockets[s.section.sock]);
    } else {
      var y :| Live(s.sockets, y, u);
      assert SocketInv(s.sockets[y]);
    }
  }

  /** Once every socket has exited, the map is empty and nobody's latest event says online. */
  lemma AllExitedLeavesNobodyOnline(schedule: seq<Label>, u: UserId)
    requires forall x <- Run(schedule).sockets :: Exited(Run(schedule), x)
    ensures Run(schedule).connections == map[]
    ensures !LastOnline(Run(schedule).events, u)
  {
    EveryScheduleKeepsInv(schedule);
    var s := Run(schedule);
    forall v | v in s.connections ensures false {
      UsersInTheMapHaveASocket(schedule, v);
    }
    assert s.section.Greeting? ==> !Exited(s, s.section.sock);
  }

  /**
    Outside the presence sections a user is in the map exactly when the user's
    latest presence event says online. A user with an open connection is in the
    map, so `is_online` never contradicts the announcements.
   */
  lemma PresenceMatchesAnnouncements(schedule: seq<Label>, u: UserId)
    requires Run(schedule).section.Free?
    ensures var s := Run(schedule);
      && (u in s.connections <==> LastOnline(s.events, u))
      && (Listed(s.connections, u) != [] ==> LastOnline(s.events, u))
  {
    EveryScheduleKeepsInv(schedule);
  }

  /** At every moment: the first event is online and no two offline events are consecutive. */
  lemma OfflineAlwaysEndsOnline(schedule: seq<Label>, u: UserId)
    ensures OfflineEndsOnline(OfUser(Run(schedule).events, u))
  {
    EveryScheduleKeepsInv(schedule);
  }

  /**
    Strict alternation holds exactly for the users who were never re-announced
    over a list that pruning had left empty, so it holds for everyone none of
    whose registered channels was found closed.
   */
  lemma AlternatesUnlessReopened(schedule: seq<Label>, u: UserId)
    ensures Alternates(OfUser(Run(schedule).events, u)) <==> u !in Run(schedule).reopened
    ensures u !in Run(schedule).pruned ==> Alternates(OfUser(Run(schedule).events, u))
  {
    EveryScheduleKeepsInv(schedule);
  }

  lemma Extend(schedule: seq<Label>, s: State, l: Label) returns (schedule': seq<Label>, s': State)
    requires Run(schedule) == s
    ensures schedule' == schedule + [l] && s' == Next(s, l) && Run(schedule') == s'
  {
    schedule', s' := schedule + [l], Next(s, l);
    assert schedule'[..|schedule|] == schedule;
  }

  lemma FirstTabIsAnnounced() returns (schedule: seq<Label>, s: State)
    ensures s == Run(schedule) && s.section.Free? && s.sockets.Keys == {0} && s.closed == {}
    ensures s.connections == map[7 := [0]] && s.events == [Online(7)]
  {
    schedule, s := [], INIT;
    schedule, s := Extend(schedule, s, Spawn(0, Some(7)));
    schedule, s := Extend(schedule, s, Lock(0));
    schedule, s := Extend(schedule, s, SectionStep(7));
    schedule, s := Extend(schedule, s, SectionStep(7));
    assert [] + [0] == [0] && [] + [Online(7)] == [Online(7)];
    assert s.connections[7] == [0];
    assert s.connections == map[7 := [0]];
    WithoutAbsent([0], {});
    schedule, s := Extend(schedule, s, SectionStep(7));
    schedule, s := Extend(schedule, s, SectionStep(7));
  }

  lemma ClosedTabIsPruned() returns (schedule: seq<Label>, s: State)
    ensures s == Run(schedule) && s.section.Free? && s.sockets.Keys == {0}
    ensures s.connections == map[7 := []] && s.events == [Online(7)]
  {
    schedule, s := FirstTabIsAnnounced();
    schedule, s := Extend(schedule, s, CloseChannel(0));
    assert s.connections[7] == [0] && s.closed == {0};
    schedule, s := Extend(schedule, s, Send(7));
    assert Without([0], {0}) == Without([0][1..], {0}) == [];
    assert s.connections[7] == [];
  }

  /** A user whose only channel closes and is pruned by a send is announced online again by the next tab. */
  lemma PrunedUserIsAnnouncedTwice() returns (schedule: seq<Label>)
    ensures Run(schedule).events == [Online(7), Online(7)]
  {
    var s;
    schedule, s := ClosedTabIsPruned();
    schedule, s := Extend(schedule, s, Spawn(1, Some(7)));
    schedule, s := Extend(schedule, s, Lock(1));
    schedule, s := Extend(schedule, s, SectionStep(7));
    schedule, s := Extend(schedule, s, SectionStep(7));
  }
}
