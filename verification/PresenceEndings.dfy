/**
  How sockets end: what each arm of the select loop does, that a forced
  disconnect reaches every listed socket, and that nobody comes back.
 */
module PresenceEndings {
  import opened Wrappers
  import opened WsConnections
  import opened PresenceProtocol
  import opened PresenceInvariants
  import opened PresenceSections
  import T = PresenceTheorems

  lemma OneMore(schedule: seq<Label>, l: Label)
    ensures Run(schedule + [l]) == Next(Run(schedule), l)
  {
    assert (schedule + [l])[..|schedule|] == schedule;
  }

  // ----- being told -----

  /** Only authenticated sockets are told to disconnect. */
  ghost predicate ToldInv(s: State) {
    forall x <- s.sockets :: s.sockets[x].told ==> s.sockets[x].user.Some?
  }

  lemma DroppingTells(s: State, v: UserId, u: UserId)
    requires Inv(s) && ToldInv(s) && s.section == Dropping(v)
    ensures var t := StepSection(s, u);
      && ToldInv(t) && v !in t.connections
      && (forall x <- Listed(s.connections, v) :: x in t.sockets && t.sockets[x].told && t.sockets[x].user == Some(v))
  {
    forall x | x in Listed(s.connections, v) ensures Live(s.sockets, x, v) {
    }
  }

  lemma SectionKeepsTold(s: State, u: UserId)
    requires Inv(s) && ToldInv(s)
    ensures ToldInv(StepSection(s, u))
  {
    if s.section.Dropping? {
      DroppingTells(s, s.section.user, u);
    }
  }

  lemma FrameKeepsTold(k: Socket, frame: Frame)
    requires k.told ==> k.user.Some?
    ensures OnFrame(k, frame).told == k.told && (k.told ==> OnFrame(k, frame).user.Some?)
  {
  }

  lemma StepKeepsTold(s: State, l: Label)
    requires Inv(s) && ToldInv(s)
    ensures ToldInv(Next(s, l))
  {
    if l.SectionStep? {
      SectionKeepsTold(s, l.user);
    } else if l.Receive? && l.sock in s.sockets {
      FrameKeepsTold(s.sockets[l.sock], l.frame);
    }
  }

  lemma {:induction false} ScheduleKeepsTold(schedule: seq<Label>)
    ensures ToldInv(Run(schedule))
  {
    if schedule != [] {
      var before := schedule[..|schedule| - 1];
      ScheduleKeepsTold(before);
      EveryScheduleKeepsInv(before);
      StepKeepsTold(Run(before), schedule[|schedule| - 1]);
    }
  }

  // ----- the arms of the loop -----

  /**
    Being told ends a socket that takes the disconnect arm, the authentication
    deadline ends exactly the anonymous loops, the expiry of the token exactly the
    authenticated ones, and the heartbeat timeout any loop. An authenticated
    socket then has its section to leave, an anonymous one is done.
   */
  ghost predicate ArmsAct(k: Socket, disconnected: Socket, deadline: Socket, expiry: Socket, heartbeat: Socket) {
    && disconnected.phase == (if k.told then Leave else Loop)
    && deadline.phase == (if k.authenticated then Loop else Left)
    && expiry.phase == (if k.authenticated then Leave else Loop)
    && heartbeat.phase == (if k.authenticated then Leave else Left)
  }

  lemma ArmsOfLoop(s: State, x: SocketId)
    requires Looping(s, x) && SocketInv(s.sockets[x]) && (s.sockets[x].told ==> s.sockets[x].user.Some?)
    ensures ArmsAct(s.sockets[x],
                    Next(s, Disconnected(x)).sockets[x], Next(s, AuthDeadline(x)).sockets[x],
                    Next(s, TokenExpiry(x)).sockets[x], Next(s, HeartbeatTimeout(x)).sockets[x])
  {
  }

  /** What every arm but the incoming frames does to a loop, in every run. */
  lemma ArmsEnd(schedule: seq<Label>, x: SocketId)
    requires Looping(Run(schedule), x)
    ensures var s := Run(schedule);
      ArmsAct(s.sockets[x],
              Next(s, Disconnected(x)).sockets[x], Next(s, AuthDeadline(x)).sockets[x],
              Next(s, TokenExpiry(x)).sockets[x], Next(s, HeartbeatTimeout(x)).sockets[x])
  {
    ScheduleKeepsTold(schedule);
    EveryScheduleKeepsInv(schedule);
    assert SocketInv(Run(schedule).sockets[x]);
    ArmsOfLoop(Run(schedule), x);
  }

  // ----- nobody comes back -----

  /** Out of its loop, with or without its leaving section still to come. */
  predicate Ending(k: Socket) {
    k.phase.Leave? || k.phase.Left?
  }

  /** Told stays told, ending stays ending, left stays left, and a section that was given up is not taken again. */
  ghost predicate Onward(s: State, t: State, x: SocketId) {
    && x in s.sockets && x in t.sockets
    && (s.sockets[x].told ==> t.sockets[x].told)
    && (Ending(s.sockets[x]) ==> Ending(t.sockets[x]))
    && (s.sockets[x].phase.Left? ==> t.sockets[x].phase.Left?)
    && (Exited(s, x) ==> Exited(t, x))
  }

  /** A section moves its own socket, from greeting into the loop or out of its leaving section. */
  lemma SectionMoves(s: State, u: UserId, x: SocketId)
    requires SectionInv(s.section, s.sockets) && x in s.sockets
    ensures var t := StepSection(s, u);
      && x in t.sockets
      && (s.sockets[x].told ==> t.sockets[x].told)
      && (t.sockets[x].phase == s.sockets[x].phase
          || (s.sockets[x].phase.Greet? && t.sockets[x].phase.Loop?)
          || (s.sockets[x].phase.Leave? && t.sockets[x].phase.Left?))
  {
  }

  lemma SectionKeepsOwner(s: State, u: UserId, x: SocketId)
    ensures StepSection(s, u).section.Owned(x) ==> s.section.Owned(x)
  {
  }

  lemma SectionGoesOn(s: State, u: UserId, x: SocketId)
    requires SectionInv(s.section, s.sockets) && x in s.sockets
    ensures Onward(s, StepSection(s, u), x)
  {
    SectionMoves(s, u, x);
    SectionKeepsOwner(s, u, x);
  }

  lemma FrameGoesOn(k: Socket, frame: Frame)
    ensures OnFrame(k, frame).told == k.told
  {
  }

  lemma StepGoesOn(s: State, l: Label, x: SocketId)
    requires Inv(s) && x in s.sockets
    ensures Onward(s, Next(s, l), x)
  {
    if l.SectionStep? {
      SectionGoesOn(s, l.user, x);
    } else if l.Receive? && l.sock == x {
      FrameGoesOn(s.sockets[x], l.frame);
    }
  }

  lemma OnwardTwice(s: State, t: State, u: State, x: SocketId)
    requires Onward(s, t, x) && Onward(t, u, x)
    ensures Onward(s, u, x)
  {
  }

  lemma GoesOneOn(schedule: seq<Label>, l: Label, x: SocketId)
    requires x in Run(schedule).sockets
    ensures Onward(Run(schedule), Run(schedule + [l]), x)
  {
    EveryScheduleKeepsInv(schedule);
    OneMore(schedule, l);
    StepGoesOn(Run(schedule), l, x);
  }

  lemma {:induction false} GoesOn(schedule: seq<Label>, more: seq<Label>, x: SocketId) returns (s: State, t: State)
    requires x in Run(schedule).sockets
    ensures s == Run(schedule) && t == Run(schedule + more) && Onward(s, t, x)
    decreases |more|
  {
    s := Run(schedule);
    if more == [] {
      assert schedule + more == schedule;
      t := s;
    } else {
      var n := |more| - 1;
      var m;
      s, m := GoesOn(schedule, more[..n], x);
      t := Run(schedule + more[..n] + [more[n]]);
      GoesOneOn(schedule + more[..n], more[n], x);
      OnwardTwice(s, m, t, x);
      assert schedule + more == schedule + more[..n] + [more[n]];
    }
  }

  /** An exited socket is in nobody's list. */
  lemma ExitedIsUnlisted(schedule: seq<Label>, x: SocketId, u: UserId)
    requires Exited(Run(schedule), x)
    ensures x !in Listed(Run(schedule).connections, u)
  {
    if u in Run(schedule).connections && x in Run(schedule).connections[u] {
      T.StoredConnectionsAreLive(schedule, u, x);
    }
  }

  // ----- a forced disconnect -----

  /**
    Whatever happens in between, every socket listed when a forced disconnect
    takes its step is told; if it is in its loop when it takes the disconnect arm
    it never loops again, and once it has exited it is in no list.
   */
  lemma ForcedDisconnectEnds(
    schedule: seq<Label>, v: UserId, u: UserId, between: seq<Label>, x: SocketId, after: seq<Label>)
    requires Run(schedule).section == Dropping(v) && x in Listed(Run(schedule).connections, v)
    requires Looping(Run(schedule + [SectionStep(u)] + between), x)
    ensures Over(Run(schedule + [SectionStep(u)] + between + [Disconnected(x)] + after), x)
  {
    var told := schedule + [SectionStep(u)];
    ToldByStep(schedule, v, u, x);
    var s, t := GoesOn(told, between, x);
    ToldSocketEnds(told + between, x, after);
  }

  /** Never again in its loop, and in nobody's list once it has exited. */
  ghost predicate Over(s: State, x: SocketId) {
    && x in s.sockets && Ending(s.sockets[x]) && !Looping(s, x)
    && (Exited(s, x) ==> forall w :: x !in Listed(s.connections, w))
  }

  lemma ToldByStep(schedule: seq<Label>, v: UserId, u: UserId, x: SocketId)
    requires Run(schedule).section == Dropping(v) && x in Listed(Run(schedule).connections, v)
    ensures var t := Run(schedule + [SectionStep(u)]);
      x in t.sockets && t.sockets[x].told
  {
    EveryScheduleKeepsInv(schedule);
    ScheduleKeepsTold(schedule);
    DroppingTells(Run(schedule), v, u);
    OneMore(schedule, SectionStep(u));
  }

  lemma ToldSocketEnds(schedule: seq<Label>, x: SocketId, after: seq<Label>)
    requires Looping(Run(schedule), x) && Run(schedule).sockets[x].told
    ensures Over(Run(schedule + [Disconnected(x)] + after), x)
  {
    var ended := schedule + [Disconnected(x)];
    ArmsEnd(schedule, x);
    OneMore(schedule, Disconnected(x));
    var s, t := GoesOn(ended, after, x);
    forall w | Exited(t, x) ensures x !in Listed(t.connections, w) {
      ExitedIsUnlisted(ended + after, x, w);
    }
  }

  /** The user's entry is gone, everybody listed is told, and the user is announced offline, if there was an entry. */
  ghost predicate Disconnects(s: State, t: State, v: UserId) {
    && v !in t.connections
    && (forall x <- Listed(s.connections, v) :: x in t.sockets && t.sockets[x].told && t.sockets[x].user == Some(v))
    && t.events == s.events + if v in s.connections then [Offline(v)] else []
  }

  lemma DroppingDisconnects(s: State, v: UserId, u: UserId)
    requires Inv(s) && ToldInv(s) && s.section == Dropping(v)
    ensures Disconnects(s, StepSection(s, u), v)
  {
    DroppingTells(s, v, u);
  }

  /** The presence lock, when free, is given to a forced disconnect, and its step disconnects the user. */
  lemma ForcedDisconnectTells(schedule: seq<Label>, v: UserId, u: UserId)
    requires Run(schedule).section.Free?
    ensures Disconnects(Run(schedule), Run(schedule + [LockToDisconnect(v)] + [SectionStep(u)]), v)
  {
    var locked := schedule + [LockToDisconnect(v)];
    OneMore(schedule, LockToDisconnect(v));
    EveryScheduleKeepsInv(locked);
    ScheduleKeepsTold(locked);
    var s, t := SectionStepIsRun(locked, u);
    DroppingDisconnects(s, v, u);
    assert s == Run(schedule).(section := Dropping(v));
  }

  function SectionSteps(users: seq<UserId>): seq<Label> {
    if users == [] then [] else [SectionStep(users[0])] + SectionSteps(users[1..])
  }

  lemma SectionStepIsRun(schedule: seq<Label>, u: UserId) returns (s: State, t: State)
    ensures s == Run(schedule) && t == Run(schedule + [SectionStep(u)]) && t == StepSection(s, u)
  {
    OneMore(schedule, SectionStep(u));
    s, t := Run(schedule), Run(schedule + [SectionStep(u)]);
  }

  lemma FirstSectionStep(schedule: seq<Label>, u: UserId, users: seq<UserId>)
    ensures schedule + SectionSteps([u] + users) == schedule + [SectionStep(u)] + SectionSteps(users)
  {
    assert ([u] + users)[1..] == users;
  }

  lemma AloneFirst(s: State, u: UserId, users: seq<UserId>)
    ensures Alone(s, [u] + users) == Alone(StepSection(s, u), users)
  {
    assert ([u] + users)[1..] == users;
  }

  lemma {:induction false} AloneIsRun(schedule: seq<Label>, users: seq<UserId>) returns (s: State, t: State)
    ensures s == Run(schedule) && t == Run(schedule + SectionSteps(users)) && t == Alone(s, users)
    decreases |users|
  {
    if users == [] {
      assert schedule + [] == schedule;
      s, t := Run(schedule), Run(schedule);
    } else {
      var u, rest := users[0], users[1..];
      assert users == [u] + rest;
      var m;
      m, t := AloneIsRun(schedule + [SectionStep(u)], rest);
      s, m := SectionStepIsRun(schedule, u);
      FirstSectionStep(schedule, u, rest);
      AloneFirst(s, u, rest);
    }
  }

  /** A socket that has left its loop can take its leaving section when the lock is free, and then it has exited. */
  lemma LeavingSectionExits(schedule: seq<Label>, x: SocketId) returns (users: seq<UserId>)
    requires Run(schedule).section.Free? && x in Run(schedule).sockets && Run(schedule).sockets[x].phase.Leave?
    ensures var t := Run(schedule + [Lock(x)] + SectionSteps(users));
      Exited(t, x) && forall w :: x !in Listed(t.connections, w)
  {
    var locked := schedule + [Lock(x)];
    EveryScheduleKeepsInv(schedule);
    assert SocketInv(Run(schedule).sockets[x]);
    OneMore(schedule, Lock(x));
    var s := Run(locked);
    users := UnregisterAlone(s, x);
    var s', t := AloneIsRun(locked, users);
    LeftOnceUnregistered(s, x, users);
    assert Exited(t, x);
    forall w ensures x !in Listed(t.connections, w) {
      ExitedIsUnlisted(locked + SectionSteps(users), x, w);
    }
  }

  lemma {:induction false} AloneKeepsLeft(s: State, x: SocketId, users: seq<UserId>)
    requires x in s.sockets && s.sockets[x].phase.Left? && !s.section.Entering?
    requires !s.section.Retaining?
    ensures x in Alone(s, users).sockets && Alone(s, users).sockets[x].phase.Left?
    decreases |users|
  {
    if users != [] {
      SectionKeepsLeft(s, users[0], x);
      AloneKeepsLeft(StepSection(s, users[0]), x, users[1..]);
    }
  }

  lemma SectionKeepsLeft(s: State, u: UserId, x: SocketId)
    requires x in s.sockets && s.sockets[x].phase.Left? && !s.section.Entering? && !s.section.Retaining?
    ensures var t := StepSection(s, u);
      x in t.sockets && t.sockets[x].phase.Left? && !t.section.Entering? && !t.section.Retaining?
  {
  }

  lemma LeftOnceUnregistered(s: State, x: SocketId, users: seq<UserId>)
    requires s.section == Retaining(x) && x in s.sockets && s.sockets[x].user.Some?
    requires Alone(s, users).section.Free?
    ensures x in Alone(s, users).sockets && Alone(s, users).sockets[x].phase.Left?
  {
    if users != [] {
      AloneKeepsLeft(StepSection(s, users[0]), x, users[1..]);
    }
  }

  // ----- how a socket starts -----

  /** A new socket with an identity first registers; without one it waits in its loop for a token. */
  lemma SpawnStarts(schedule: seq<Label>, x: SocketId, initial: Option<UserId>)
    requires x !in Run(schedule).sockets
    ensures Run(schedule + [Spawn(x, initial)]).sockets
         == Run(schedule).sockets[x := Socket(if initial.Some? then Greet else Loop,
                                              initial, initial.Some?, initial.Some?, false)]
  {
    OneMore(schedule, Spawn(x, initial));
  }

  /** What a text is answered: before authentication only a token is heard, afterwards anything but a token. */
  lemma RepliesMean(parsed: Option<ClientMessage>, authenticated: bool)
    ensures var reply := ParseApplicationMessage(parsed, authenticated);
      && (reply == AuthenticateFirst <==> !authenticated && (parsed.None? || !parsed.value.Auth?))
      && (reply == AlreadyAuthenticated <==> authenticated && parsed.Some? && parsed.value.Auth?)
      && (reply == InvalidMessage <==> authenticated && parsed.None?)
      && (reply.Accepted? <==> parsed.Some? && parsed.value.Auth? != authenticated)
      && (reply.Accepted? ==> parsed == Some(reply.message))
  {
  }

  /** No text of `x` in these labels. */
  ghost predicate Silent(labels: seq<Label>, x: SocketId) {
    forall l <- labels :: l.Receive? && l.sock == x ==> !l.frame.Text?
  }

  lemma SilentStep(s: State, l: Label, x: SocketId)
    requires x in s.sockets && s.sockets[x].acceptsCompatible && Silent([l], x)
    ensures x in Next(s, l).sockets && Next(s, l).sockets[x].acceptsCompatible
  {
    assert l in [l];
  }

  lemma {:induction false} ToleranceLasts(schedule: seq<Label>, more: seq<Label>, x: SocketId)
    requires x in Run(schedule).sockets && Run(schedule).sockets[x].acceptsCompatible && Silent(more, x)
    ensures x in Run(schedule + more).sockets && Run(schedule + more).sockets[x].acceptsCompatible
    decreases |more|
  {
    if more == [] {
      assert schedule + more == schedule;
    } else {
      var n := |more| - 1;
      assert forall l <- more[..n] :: l in more;
      ToleranceLasts(schedule, more[..n], x);
      OneMore(schedule + more[..n], more[n]);
      assert more[n] in more;
      SilentStep(Run(schedule + more[..n]), more[n], x);
      assert schedule + more == schedule + more[..n] + [more[n]];
    }
  }

  /** The first text of a socket authenticated by its upgrade may repeat that identity, whatever came before it. */
  lemma RepeatedIdentityIsTolerated(schedule: seq<Label>, x: SocketId, u: UserId, more: seq<Label>)
    requires x !in Run(schedule).sockets && Silent(more, x)
    requires Looping(Run(schedule + [Spawn(x, Some(u))] + more), x)
    ensures var s := Run(schedule + [Spawn(x, Some(u))] + more);
      Next(s, Receive(x, Text(Some(Auth(Some(u)))))).sockets[x].phase.Loop?
  {
    var spawned := schedule + [Spawn(x, Some(u))];
    SpawnStarts(schedule, x, Some(u));
    ToleranceLasts(spawned, more, x);
    T.IdentityIsFixed(spawned, more, x);
    T.FrameDecides(spawned + more, x, Text(Some(Auth(Some(u)))));
  }

  // ----- pruning -----

  /** Whoever is recorded as pruned had registered a channel that was found closed. */
  ghost predicate PrunedHadClosed(s: State) {
    forall u <- s.pruned :: exists r <- s.registrations :: r.1 == u && r.0 in s.closed
  }

  lemma PruneUserHadClosed(s: State, u: UserId)
    requires Inv(s) && PrunedHadClosed(s)
    ensures PrunedHadClosed(PruneUser(s, u))
  {
    if x :| x in Listed(s.connections, u) && x in s.closed {
      assert Live(s.sockets, x, u);
      assert (x, u) in s.registrations;
    }
  }

  lemma MoreHadClosed(s: State, t: State)
    requires PrunedHadClosed(s) && t.pruned == s.pruned && s.closed <= t.closed
    requires forall r <- s.registrations :: r in t.registrations
    ensures PrunedHadClosed(t)
  {
    forall u | u in t.pruned ensures exists r <- t.registrations :: r.1 == u && r.0 in t.closed {
      var r :| r in s.registrations && r.1 == u && r.0 in s.closed;
      assert r in t.registrations;
    }
  }

  lemma CastingHadClosed(s: State, u: UserId)
    requires Inv(s) && PrunedHadClosed(s) && s.section.Casting?
    ensures PrunedHadClosed(StepSection(s, u))
  {
    var t := StepSection(s, u);
    if t.pruned == s.pruned {
      MoreHadClosed(s, t);
    } else {
      PruneUserHadClosed(s, u);
      MoreHadClosed(PruneUser(s, u), t);
    }
  }

  lemma StepHadClosed(s: State, l: Label)
    requires Inv(s) && PrunedHadClosed(s)
    ensures PrunedHadClosed(Next(s, l))
  {
    if l.Send? {
      PruneUserHadClosed(s, l.user);
    } else if l.SectionStep? && s.section.Casting? {
      CastingHadClosed(s, l.user);
    } else {
      OthersPruneNobody(s, l);
      MoreHadClosed(s, Next(s, l));
    }
  }

  lemma OthersPruneNobody(s: State, l: Label)
    requires !l.Send? && !(l.SectionStep? && s.section.Casting?)
    ensures Next(s, l).pruned == s.pruned && s.closed <= Next(s, l).closed
    ensures s.registrations <= Next(s, l).registrations
  {
  }

  lemma {:induction false} ScheduleHadClosed(schedule: seq<Label>)
    ensures PrunedHadClosed(Run(schedule))
  {
    if schedule != [] {
      var before := schedule[..|schedule| - 1];
      ScheduleHadClosed(before);
      EveryScheduleKeepsInv(before);
      StepHadClosed(Run(before), schedule[|schedule| - 1]);
    }
  }

  /** A user none of whose registered channels has been closed is announced online and offline in strict turn. */
  lemma OpenChannelsAlternate(schedule: seq<Label>, u: UserId)
    requires forall r <- Run(schedule).registrations :: r.1 == u ==> r.0 !in Run(schedule).closed
    ensures Alternates(OfUser(Run(schedule).events, u))
  {
    ScheduleHadClosed(schedule);
    T.AlternatesUnlessReopened(schedule, u);
  }
}
