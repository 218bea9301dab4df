/**
  Private messages and the per-viewer boundary below which a conversation is
  cleared. A clear is two statements: it reads the greatest message id of the
  conversation, then raises the stored boundary to it. Messages are inserted, and
  other clears run, in between.
 */
module MessageHistory {
  import S = SocialTables

  type UserId = S.UserId

  const MAX_MESSAGE_CHARS: nat := 10_000

  /** `at` is the time of the insert, which need not follow the ids. */
  datatype Message = Message(id: nat, sender: UserId, recipient: UserId, content: string, at: int)
  {
    predicate Between(a: UserId, b: UserId) {
      (sender == a && recipient == b) || (sender == b && recipient == a)
    }

    predicate Involves(viewer: UserId) {
      sender == viewer || recipient == viewer
    }

    /** The conversation this message belongs to, as `viewer` sees it. */
    function SeenBy(viewer: UserId): Conversation {
      Conversation(viewer, if sender == viewer then recipient else sender)
    }
  }

  datatype Conversation = Conversation(viewer: UserId, partner: UserId)

  /** The rows of social_message_clears. */
  type Clears = map<Conversation, nat>

  /** COALESCE(MAX(id), 0) over the messages between the two. */
  function MaxId(messages: seq<Message>, of: Conversation): nat {
    if messages == [] then 0
    else
      var last := messages[|messages| - 1];
      var rest := MaxId(messages[..|messages| - 1], of);
      if last.Between(of.viewer, of.partner) && last.id > rest then last.id else rest
  }

  /** Message `i` of the conversation has id `id`. */
  predicate IdAt(messages: seq<Message>, of: Conversation, i: nat, id: nat)
    requires i < |messages|
  {
    messages[i].Between(of.viewer, of.partner) && messages[i].id == id
  }

  /** `max` is the greatest id of the conversation among the first `n` messages, or 0 when there is none. */
  ghost predicate IsMax(messages: seq<Message>, n: nat, of: Conversation, max: nat)
    requires n <= |messages|
  {
    && (forall i | 0 <= i < n && messages[i].Between(of.viewer, of.partner) :: messages[i].id <= max)
    && (max == 0 || exists i: nat | i < n :: IdAt(messages, of, i, max))
  }

  lemma {:induction false} MaxIdIsMax(messages: seq<Message>, of: Conversation)
    ensures IsMax(messages, |messages|, of, MaxId(messages, of))
    decreases |messages|
  {
    if messages != [] {
      var n := |messages| - 1;
      MaxIdIsMax(messages[..n], of);
      var rest := MaxId(messages[..n], of);
      if rest != 0 {
        var i: nat :| i < n && IdAt(messages[..n], of, i, rest);
        assert IdAt(messages, of, i, rest);
      }
      forall i | 0 <= i < n && messages[i].Between(of.viewer, of.partner) ensures messages[i].id <= rest {
        assert messages[..n][i] == messages[i];
      }
      assert IdAt(messages, of, n, messages[n].id) || !messages[n].Between(of.viewer, of.partner);
    }
  }

  /** INSERT ... ON CONFLICT DO UPDATE SET cleared_through_id = GREATEST(stored, new). */
  function Raised(clears: Clears, of: Conversation, through: nat): Clears {
    clears[of := if of in clears && clears[of] > through then clears[of] else through]
  }

  predicate Hidden(clears: Clears, viewer: UserId, m: Message) {
    var of := m.SeenBy(viewer);
    of in clears && m.id <= clears[of]
  }

  function Visible(messages: seq<Message>, clears: Clears, viewer: UserId): seq<Message> {
    if messages == [] then []
    else
      var last := messages[|messages| - 1];
      Visible(messages[..|messages| - 1], clears, viewer)
      + if last.Involves(viewer) && !Hidden(clears, viewer, last) then [last] else []
  }

  /** Ids grow in insertion order and start at 1. */
  ghost predicate Numbered(messages: seq<Message>, lastId: nat) {
    && (forall i | 0 <= i < |messages| :: 1 <= messages[i].id <= lastId)
    && (forall i, j | 0 <= i < j < |messages| :: messages[i].id < messages[j].id)
  }

  /** Oldest first. */
  ghost predicate InOrder(rows: seq<Message>) {
    forall i, j | 0 <= i < j < |rows| :: rows[i].at <= rows[j].at
  }

  /** Another user a conversation can be had with: `positive_id`, then not oneself. */
  predicate ValidPartner(viewer: UserId, partner: int) {
    0 < partner <= S.MAX_I32 && partner != viewer
  }

  datatype ClearResult = Cleared | Unauthenticated | Invalid | ForeignKeyFailed

  datatype SendResult = Sent(message: Message) | BadRequest | Unauthorized | Forbidden
  {
    /** What the answer adds to the list of `user`. */
    function NewFor(user: UserId): seq<Message> {
      if Sent? && (user == message.sender || user == message.recipient) then [message] else []
    }
  }

  class MessageStore {
    var messages: seq<Message>
    var lastId: nat
    var clears: Clears

    ghost predicate Valid()
      reads this
    {
      Numbered(messages, lastId) && forall of <- clears :: clears[of] <= lastId
    }

    constructor ()
      ensures Valid() && messages == [] && clears == map[]
    {
      messages, lastId, clears := [], 0, map[];
    }

    /**
      `t` is what the checks read; `content` is the text without surrounding
      white space. A message is sent exactly between two existing users with no
      block either way, under the policy of the recipient: anyone by default or
      for `Everyone`, friends only for `Friends`, nobody for `Nobody`.
     */
    method SendMessage(t: S.Tables, sender: UserId, recipient: UserId, content: string, now: int)
      returns (r: SendResult)
      requires Valid()
      modifies this`messages, this`lastId
      ensures Valid()
      ensures r.Sent? <==>
        && {sender, recipient} <= t.users && sender != recipient && 0 < |content| <= 10_000
        && (sender, recipient) !in t.blocks && (recipient, sender) !in t.blocks
        && (recipient in t.preferences ==>
              && t.preferences[recipient].message != S.Nobody
              && (t.preferences[recipient].message == S.Friends ==> S.PairOf(sender, recipient) in t.friendships))
      ensures r == BadRequest <==> sender in t.users && (sender == recipient || !(0 < |content| <= 10_000))
      ensures r == Unauthorized <==>
        sender !in t.users || (sender != recipient && 0 < |content| <= 10_000 && recipient !in t.users)
      ensures messages == if r.Sent? then old(messages) + [r.message] else old(messages)
      ensures r.Sent? ==> r.message == Message(lastId, sender, recipient, content, now) && lastId > old(lastId)
      ensures forall u :: Visible(messages, clears, u) == old(Visible(messages, clears, u)) + r.NewFor(u)
    {
      if sender !in t.users { return Unauthorized; }
      if sender == recipient { return BadRequest; }
      if |content| == 0 || |content| > MAX_MESSAGE_CHARS { return BadRequest; }
      if recipient !in t.users { return Unauthorized; }
      if S.MessagePermission(t, sender, recipient) != S.Allowed { return Forbidden; }
      lastId := lastId + 1;
      var message := Message(lastId, sender, recipient, content, now);
      assert (messages + [message])[..|messages|] == messages;
      messages := messages + [message];
      r := Sent(message);
    }

    /** SELECT COALESCE(MAX(id), 0). */
    method ReadMax(of: Conversation) returns (through: nat)
      ensures through == MaxId(messages, of)
    {
      through := 0;
      for i := 0 to |messages|
        invariant through == MaxId(messages[..i], of)
      {
        assert messages[..i + 1][..i] == messages[..i];
        if messages[i].Between(of.viewer, of.partner) && messages[i].id > through {
          through := messages[i].id;
        }
      }
      assert messages[..|messages|] == messages;
    }

    method RaiseBoundary(of: Conversation, through: nat)
      modifies this`clears
      ensures clears == Raised(old(clears), of, through)
    {
      if of in clears {
        if through > clears[of] {
          clears := clears[of := through];
        }
      } else {
        clears := clears[of := through];
      }
    }

    /** The whole handler when nothing else runs between its two statements. */
    method ClearHistory(users: set<UserId>, viewer: UserId, partner: int) returns (r: ClearResult)
      requires Valid()
      modifies this`clears
      ensures Valid()
      ensures r == if viewer !in users then Unauthenticated
                   else if !(0 < partner <= 0x7FFF_FFFF && partner != viewer) then Invalid
                   else if partner in users then Cleared else ForeignKeyFailed
      ensures !r.Cleared? ==> clears == old(clears)
      ensures r.Cleared? ==> forall m | m in messages && m.Involves(viewer) ::
                (Hidden(clears, viewer, m) <==>
                   old(Hidden(clears, viewer, m)) || m.sender == partner || m.recipient == partner)
      ensures forall u | u != viewer :: Visible(messages, clears, u) == old(Visible(messages, clears, u))
    {
      if viewer !in users { return Unauthenticated; }
      if partner <= 0 || partner > S.MAX_I32 { return Invalid; }
      if partner == viewer { return Invalid; }
      var of := Conversation(viewer, partner);
      var through := ReadMax(of);
      if partner !in users { return ForeignKeyFailed; }
      RaiseBoundary(of, through);
      r := Cleared;
      MaxIdIsMax(messages, of);
      forall u | u != viewer ensures Visible(messages, clears, u) == old(Visible(messages, clears, u)) {
        SameBoundariesSameList(messages, old(clears), clears, u);
      }
    }

    /** The query: the visible messages, oldest first; the order of messages with one time is left open. */
    method FetchMessages(viewer: UserId) returns (rows: seq<Message>)
      ensures SameRows(rows, Visible(messages, clears, viewer))
      ensures forall i, j | 0 <= i < j < |rows| :: rows[i].at <= rows[j].at
    {
      rows := [];
      for i := 0 to |messages|
        invariant SameRows(rows, Visible(messages[..i], clears, viewer)) && InOrder(rows)
      {
        assert messages[..i + 1][..i] == messages[..i];
        if messages[i].Involves(viewer) && !Hidden(clears, viewer, messages[i]) {
          var k := FindPlace(rows, messages[i]);
          PlacedInOrder(rows, k, messages[i]);
          PlacedIsAdded(rows, k, messages[i], Visible(messages[..i], clears, viewer));
          rows := rows[..k] + [messages[i]] + rows[k..];
        }
      }
      assert messages[..|messages|] == messages;
    }

    /** Behind everything that is not newer. */
    method FindPlace(rows: seq<Message>, m: Message) returns (k: nat)
      requires InOrder(rows)
      ensures k <= |rows| && (k > 0 ==> rows[k - 1].at <= m.at)
      ensures forall i | k <= i < |rows| :: m.at < rows[i].at
    {
      k := |rows|;
      while k > 0 && rows[k - 1].at > m.at
        invariant k <= |rows|
        invariant forall i | k <= i < |rows| :: m.at < rows[i].at
      {
        k := k - 1;
      }
    }
  }

  /** One is a rearrangement of the other. */
  ghost predicate SameRows(a: seq<Message>, b: seq<Message>) {
    multiset(a) == multiset(b)
  }

  lemma PlacedIsAdded(rows: seq<Message>, k: nat, m: Message, visible: seq<Message>)
    requires k <= |rows| && SameRows(rows, visible)
    ensures SameRows(rows[..k] + [m] + rows[k..], visible + [m])
  {
    assert rows == rows[..k] + rows[k..];
  }

  lemma PlacedInOrder(rows: seq<Message>, k: nat, m: Message)
    requires InOrder(rows) && k <= |rows|
    requires k > 0 ==> rows[k - 1].at <= m.at
    requires forall i | k <= i < |rows| :: m.at <= rows[i].at
    ensures InOrder(rows[..k] + [m] + rows[k..])
  {
    var placed := rows[..k] + [m] + rows[k..];
    forall i | 0 <= i < |placed| ensures placed[i] == if i < k then rows[i] else if i == k then m else rows[i - 1] {
    }
  }

  /** What a viewer sees depends on that viewer's boundaries only. */
  lemma {:induction false} SameBoundariesSameList(messages: seq<Message>, before: Clears, after: Clears, viewer: UserId)
    requires forall of: Conversation | of.viewer == viewer ::
      (of in before <==> of in after) && (of in before ==> before[of] == after[of])
    ensures Visible(messages, before, viewer) == Visible(messages, after, viewer)
    decreases |messages|
  {
    if messages != [] {
      var n := |messages| - 1;
      SameBoundariesSameList(messages[..n], before, after, viewer);
      assert messages[n].SeenBy(viewer).viewer == viewer;
    }
  }

  /** The list keeps the order of the messages and holds exactly those that involve the viewer and are not hidden. */
  lemma {:induction false} VisibleMeans(messages: seq<Message>, clears: Clears, viewer: UserId, m: Message)
    ensures m in Visible(messages, clears, viewer)
      <==> m in messages && (m.sender == viewer || m.recipient == viewer) && !Hidden(clears, viewer, m)
    decreases |messages|
  {
    if messages != [] {
      var n := |messages| - 1;
      VisibleMeans(messages[..n], clears, viewer, m);
      assert messages == messages[..n] + [messages[n]];
    }
  }
}

/** Every interleaving of inserts and of the two statements of every clear. */
module ClearProtocol {
  import opened MessageHistory

  /** A clear between its statements; `seen`, for the statements only, counts the messages its MAX looked at. */
  datatype Clearing = Clearing(of: Conversation, through: nat, seen: nat)

  /** The record of a finished clear. */
  datatype Finished = Finished(of: Conversation, seen: nat)

  /** `finished` is a history variable: no step reads it. */
  datatype State = State(
    messages: seq<Message>,
    lastId: nat,
    clears: Clears,
    clearing: map<nat, Clearing>,
    finished: set<Finished>)

  datatype Action =
    | Insert(sender: UserId, recipient: UserId, content: string, at: int, gap: nat)
    | BeginClear(request: nat, viewer: UserId, partner: int)
    | EndClear(request: nat)
    | FailClear(request: nat)

  const INITIAL := State([], 0, map[], map[], {})

  /** `gap` counts the ids that inserts rolled back in the meantime have used up. */
  function Inserted(s: State, sender: UserId, recipient: UserId, content: string, at: int, gap: nat): State {
    var id := s.lastId + gap + 1;
    s.(messages := s.messages + [Message(id, sender, recipient, content, at)], lastId := id)
  }

  /** An action that is not enabled leaves the state as it is. */
  function Step(s: State, action: Action): State {
    match action
    case Insert(sender, recipient, content, at, gap) =>
      if sender == recipient then s else Inserted(s, sender, recipient, content, at, gap)
    case BeginClear(request, viewer, partner) =>
      if request in s.clearing || !ValidPartner(viewer, partner) then s
      else
        var of := Conversation(viewer, partner);
        s.(clearing := s.clearing[request := Clearing(of, MaxId(s.messages, of), |s.messages|)])
    case EndClear(request) =>
      if request !in s.clearing then s
      else
        var c := s.clearing[request];
        s.(clears := Raised(s.clears, c.of, c.through),
           clearing := s.clearing - {request},
           finished := s.finished + {Finished(c.of, c.seen)})
    case FailClear(request) =>
      s.(clearing := s.clearing - {request})
  }

  function Run(s: State, schedule: seq<Action>): State
    decreases |schedule|
  {
    if schedule == [] then s
    else Step(Run(s, schedule[..|schedule| - 1]), schedule[|schedule| - 1])
  }

  // ----- the invariant: each boundary is the greatest MAX among the finished clears of its conversation -----

  ghost predicate Covers(s: State, f: Finished) {
    && f.seen <= |s.messages|
    && f.of in s.clears
    && (forall i | 0 <= i < f.seen && s.messages[i].Between(f.of.viewer, f.of.partner) ::
          s.messages[i].id <= s.clears[f.of])
  }

  ghost predicate AttainedBy(messages: seq<Message>, boundary: nat, f: Finished) {
    && f.seen <= |messages|
    && (boundary == 0 || exists i: nat | i < f.seen :: IdAt(messages, f.of, i, boundary))
  }

  ghost predicate Attained(s: State, of: Conversation)
    requires of in s.clears
  {
    exists f <- s.finished :: f.of == of && AttainedBy(s.messages, s.clears[of], f)
  }

  ghost predicate ReadEarlier(s: State, c: Clearing) {
    && c.seen <= |s.messages|
    && c.of.viewer != c.of.partner
    && IsMax(s.messages, c.seen, c.of, c.through)
  }

  ghost predicate Inv(s: State) {
    && Numbered(s.messages, s.lastId)
    && (forall m <- s.messages :: m.sender != m.recipient)
    && (forall f <- s.finished :: Covers(s, f))
    && (forall of <- s.clears :: Attained(s, of) && of.viewer != of.partner)
    && (forall r <- s.clearing :: ReadEarlier(s, s.clearing[r]))
  }

  lemma InsertKeepsAttained(messages: seq<Message>, m: Message, boundary: nat, f: Finished)
    requires AttainedBy(messages, boundary, f)
    ensures AttainedBy(messages + [m], boundary, f)
  {
    if boundary != 0 {
      var i: nat :| i < f.seen && IdAt(messages, f.of, i, boundary);
      assert IdAt(messages + [m], f.of, i, boundary);
    }
  }

  lemma InsertKeepsMax(messages: seq<Message>, m: Message, n: nat, of: Conversation, max: nat)
    requires n <= |messages| && IsMax(messages, n, of, max)
    ensures IsMax(messages + [m], n, of, max)
  {
    if max != 0 {
      var i: nat :| i < n && IdAt(messages, of, i, max);
      assert IdAt(messages + [m], of, i, max);
    }
  }

  lemma InsertKeepsInv(s: State, sender: UserId, recipient: UserId, content: string, at: int, gap: nat)
    requires Inv(s) && sender != recipient
    ensures Inv(Inserted(s, sender, recipient, content, at, gap))
  {
    var t := Inserted(s, sender, recipient, content, at, gap);
    var m := t.messages[|s.messages|];
    forall of | of in t.clears ensures Attained(t, of) {
      assert Attained(s, of);
      var f :| f in s.finished && f.of == of && AttainedBy(s.messages, s.clears[of], f);
      InsertKeepsAttained(s.messages, m, s.clears[of], f);
    }
    forall r | r in t.clearing ensures ReadEarlier(t, t.clearing[r]) {
      var c := s.clearing[r];
      assert ReadEarlier(s, c);
      InsertKeepsMax(s.messages, m, c.seen, c.of, c.through);
    }
    forall f | f in t.finished ensures Covers(t, f) {
      assert Covers(s, f);
    }
  }

  /** A step that leaves messages, boundaries and records alone keeps what the invariant says of them. */
  lemma SameTables(s: State, t: State)
    requires Inv(s) && t == s.(clearing := t.clearing)
    requires forall r <- t.clearing :: ReadEarlier(s, t.clearing[r])
    ensures Inv(t)
  {
    forall of | of in t.clears ensures Attained(t, of) {
      assert Attained(s, of);
    }
    forall f | f in t.finished ensures Covers(t, f) {
      assert Covers(s, f);
    }
    forall r | r in t.clearing ensures ReadEarlier(t, t.clearing[r]) {
      assert ReadEarlier(s, t.clearing[r]);
    }
  }

  lemma EndKeepsInv(s: State, request: nat)
    requires Inv(s) && request in s.clearing
    ensures Inv(Step(s, EndClear(request)))
  {
    var t := Step(s, EndClear(request));
    var c := s.clearing[request];
    assert ReadEarlier(s, c);
    forall f | f in t.finished ensures Covers(t, f) {
      assert f == Finished(c.of, c.seen) || Covers(s, f);
    }
    forall of | of in t.clears ensures Attained(t, of) && of.viewer != of.partner {
      EndKeepsAttained(s, request, of);
    }
    forall r | r in t.clearing ensures ReadEarlier(t, t.clearing[r]) {
      assert ReadEarlier(s, s.clearing[r]);
    }
  }

  lemma EndKeepsAttained(s: State, request: nat, of: Conversation)
    requires Inv(s) && request in s.clearing && of in Step(s, EndClear(request)).clears
    ensures Attained(Step(s, EndClear(request)), of) && of.viewer != of.partner
  {
    var t := Step(s, EndClear(request));
    var c := s.clearing[request];
    var mine := Finished(c.of, c.seen);
    assert ReadEarlier(s, c);
    if of == c.of && t.clears[of] == c.through {
      assert mine in t.finished && AttainedBy(t.messages, t.clears[of], mine);
    } else {
      assert Attained(s, of);
      var f :| f in s.finished && f.of == of && AttainedBy(s.messages, s.clears[of], f);
      assert f in t.finished && AttainedBy(t.messages, t.clears[of], f);
    }
  }

  lemma StepKeepsInv(s: State, action: Action)
    requires Inv(s)
    ensures Inv(Step(s, action))
  {
    match action
    case Insert(sender, recipient, content, at, gap) =>
      if sender != recipient {
        InsertKeepsInv(s, sender, recipient, content, at, gap);
      }
    case BeginClear(request, viewer, partner) =>
      MaxIdIsMax(s.messages, Conversation(viewer, partner));
      SameTables(s, Step(s, action));
    case EndClear(request) =>
      if request in s.clearing {
        EndKeepsInv(s, request);
      }
    case FailClear(request) =>
      SameTables(s, Step(s, action));
  }

  lemma {:induction false} RunKeepsInv(s: State, schedule: seq<Action>)
    requires Inv(s)
    ensures Inv(Run(s, schedule))
    decreases |schedule|
  {
    if schedule != [] {
      RunKeepsInv(s, schedule[..|schedule| - 1]);
      StepKeepsInv(Run(s, schedule[..|schedule| - 1]), schedule[|schedule| - 1]);
    }
  }

  // ----- theorems -----

  /** The meaning of a boundary, without boundaries: some finished clear of `viewer` looked at message `i`. */
  ghost predicate LookedAt(s: State, viewer: UserId, i: nat)
    requires i < |s.messages|
  {
    exists f <- s.finished :: f.of == s.messages[i].SeenBy(viewer) && i < f.seen
  }

  /** In every state of every run, a message is hidden from a participant exactly when a finished clear looked at it. */
  lemma HiddenMeansLookedAt(s: State, viewer: UserId, i: nat)
    requires Inv(s) && i < |s.messages| && s.messages[i].Involves(viewer)
    ensures Hidden(s.clears, viewer, s.messages[i]) <==> LookedAt(s, viewer, i)
  {
    var m := s.messages[i];
    var of := m.SeenBy(viewer);
    assert m.Between(of.viewer, of.partner);
    if Hidden(s.clears, viewer, m) {
      assert Attained(s, of);
      var f :| f in s.finished && f.of == of && AttainedBy(s.messages, s.clears[of], f);
      var j: nat :| j < f.seen && IdAt(s.messages, of, j, s.clears[of]);
      assert i <= j;
    }
    if LookedAt(s, viewer, i) {
      var f :| f in s.finished && f.of == of && i < f.seen;
      assert Covers(s, f);
    }
  }

  lemma HiddenInEveryRun(schedule: seq<Action>, viewer: UserId, i: nat)
    requires i < |Run(INITIAL, schedule).messages| && Run(INITIAL, schedule).messages[i].Involves(viewer)
    ensures var s := Run(INITIAL, schedule); Hidden(s.clears, viewer, s.messages[i]) <==> LookedAt(s, viewer, i)
  {
    RunKeepsInv(INITIAL, schedule);
    HiddenMeansLookedAt(Run(INITIAL, schedule), viewer, i);
  }

  /** An insert is visible at once to both participants, below no boundary, and to nobody else. */
  lemma InsertAppears(s: State, sender: UserId, recipient: UserId, content: string, at: int, gap: nat, u: UserId)
    requires Inv(s) && sender != recipient
    ensures var t := Step(s, Insert(sender, recipient, content, at, gap));
      var m := Message(s.lastId + gap + 1, sender, recipient, content, at);
      && t.messages == s.messages + [m]
      && Visible(t.messages, t.clears, u)
         == Visible(s.messages, s.clears, u) + if u == sender || u == recipient then [m] else []
  {
    var t := Step(s, Insert(sender, recipient, content, at, gap));
    var m := t.messages[|s.messages|];
    assert t.messages[..|s.messages|] == s.messages;
    var of := m.SeenBy(u);
    if of in s.clears {
      assert Attained(s, of);
      var f :| f in s.finished && f.of == of && AttainedBy(s.messages, s.clears[of], f);
    }
  }

  /** A clear that fails after its MAX hides nothing and is over. */
  lemma FailedClearHidesNothing(s: State, request: nat)
    ensures var t := Step(s, FailClear(request));
      request !in t.clearing && t == s.(clearing := t.clearing) && t.clearing.Keys == s.clearing.Keys - {request}
  {
  }

  ghost predicate Grows(s: State, t: State) {
    && s.messages <= t.messages
    && s.finished <= t.finished
    && (forall of <- s.clears :: of in t.clears && s.clears[of] <= t.clears[of])
  }

  /** Along every run messages stay, and no boundary decreases. */
  lemma {:induction false} BoundariesNeverDecrease(s: State, schedule: seq<Action>)
    ensures Grows(s, Run(s, schedule))
    decreases |schedule|
  {
    if schedule != [] {
      BoundariesNeverDecrease(s, schedule[..|schedule| - 1]);
    }
  }

  /** A message hidden from a viewer stays hidden. */
  lemma HiddenStaysHidden(s: State, schedule: seq<Action>, viewer: UserId, m: Message)
    requires m in s.messages && Hidden(s.clears, viewer, m)
    ensures m in Run(s, schedule).messages && Hidden(Run(s, schedule).clears, viewer, m)
  {
    BoundariesNeverDecrease(s, schedule);
    var i :| 0 <= i < |s.messages| && s.messages[i] == m;
    assert Run(s, schedule).messages[i] == m;
  }

  /** No action of the schedule belongs to the given request. */
  ghost predicate Leaves(schedule: seq<Action>, request: nat) {
    forall l <- schedule :: l.Insert? || l.request != request
  }

  lemma {:induction false} ReadIsKept(s: State, schedule: seq<Action>, request: nat)
    requires request in s.clearing && Leaves(schedule, request)
    ensures request in Run(s, schedule).clearing && Run(s, schedule).clearing[request] == s.clearing[request]
    decreases |schedule|
  {
    if schedule != [] {
      var n := |schedule| - 1;
      assert schedule[n] in schedule;
      ReadIsKept(s, schedule[..n], request);
    }
  }

  /** The upsert hides exactly the messages of the conversation that its MAX looked at. */
  lemma UpsertHides(s: State, request: nat, i: nat)
    requires Inv(s) && request in s.clearing && i < |s.messages|
    requires s.messages[i].Involves(s.clearing[request].of.viewer)
    ensures var c := s.clearing[request];
      var t := Step(s, EndClear(request));
      Hidden(t.clears, c.of.viewer, s.messages[i])
      <==> Hidden(s.clears, c.of.viewer, s.messages[i])
           || (s.messages[i].Between(c.of.viewer, c.of.partner) && i < c.seen)
  {
    var c := s.clearing[request];
    var m := s.messages[i];
    assert ReadEarlier(s, c);
    if m.Between(c.of.viewer, c.of.partner) {
      assert m.SeenBy(c.of.viewer) == c.of;
      if m.id <= c.through {
        var top: nat :| top < c.seen && IdAt(s.messages, c.of, top, c.through);
        assert i <= top;
      }
    } else {
      assert m.SeenBy(c.of.viewer) != c.of;
    }
  }

  lemma UpsertKeepsOthers(s: State, request: nat, u: UserId)
    requires request in s.clearing && u != s.clearing[request].of.viewer
    ensures Visible(s.messages, Step(s, EndClear(request)).clears, u) == Visible(s.messages, s.clears, u)
  {
    SameBoundariesSameList(s.messages, s.clears, Step(s, EndClear(request)).clears, u);
  }

  /**
    The whole effect of one clear, whatever runs between its MAX and its upsert: the
    viewer loses exactly the messages of the conversation that the MAX looked at, and
    everybody else's list is unchanged.
  */
  lemma ClearHidesWhatItRead(s: State, between: seq<Action>, request: nat, viewer: UserId, partner: int)
    requires Inv(s) && request !in s.clearing && ValidPartner(viewer, partner) && Leaves(between, request)
    ensures var before := Run(Step(s, BeginClear(request, viewer, partner)), between);
      var after := Step(before, EndClear(request));
      && s.messages <= before.messages && after.messages == before.messages
      && (forall i: nat | i < |before.messages| && before.messages[i].Involves(viewer) ::
            Hidden(after.clears, viewer, before.messages[i])
            <==> Hidden(before.clears, viewer, before.messages[i])
                 || (before.messages[i].Between(viewer, partner) && i < |s.messages|))
      && (forall u | u != viewer ::
            Visible(after.messages, after.clears, u) == Visible(before.messages, before.clears, u))
  {
    var begun := Step(s, BeginClear(request, viewer, partner));
    var before := Run(begun, between);
    StepKeepsInv(s, BeginClear(request, viewer, partner));
    RunKeepsInv(begun, between);
    BoundariesNeverDecrease(begun, between);
    ReadIsKept(begun, between, request);
    assert before.clearing[request] == begun.clearing[request];
    forall i: nat | i < |before.messages| && before.messages[i].Involves(viewer)
      ensures Hidden(Step(before, EndClear(request)).clears, viewer, before.messages[i])
        <==> Hidden(before.clears, viewer, before.messages[i])
             || (before.messages[i].Between(viewer, partner) && i < |s.messages|)
    {
      UpsertHides(before, request, i);
    }
    forall u | u != viewer
      ensures Visible(before.messages, Step(before, EndClear(request)).clears, u)
        == Visible(before.messages, before.clears, u)
    {
      UpsertKeepsOthers(before, request, u);
    }
  }

  /** A message inserted after the MAX of a clear is not hidden by that clear. */
  lemma LaterMessageSurvives(s: State, between: seq<Action>, request: nat, viewer: UserId, partner: int, i: nat)
    requires Inv(s) && request !in s.clearing && ValidPartner(viewer, partner) && Leaves(between, request)
    requires var before := Run(Step(s, BeginClear(request, viewer, partner)), between);
      |s.messages| <= i < |before.messages| && before.messages[i] in Visible(before.messages, before.clears, viewer)
    ensures var before := Run(Step(s, BeginClear(request, viewer, partner)), between);
      var after := Step(before, EndClear(request));
      before.messages[i] in Visible(after.messages, after.clears, viewer)
  {
    var before := Run(Step(s, BeginClear(request, viewer, partner)), between);
    var after := Step(before, EndClear(request));
    ClearHidesWhatItRead(s, between, request, viewer, partner);
    VisibleMeans(before.messages, before.clears, viewer, before.messages[i]);
    VisibleMeans(after.messages, after.clears, viewer, before.messages[i]);
    assert after.messages[i] == before.messages[i];
  }
}
