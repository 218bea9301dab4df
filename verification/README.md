# Verified model of the backend's protocols

A Dafny model of the parts of the Axum/PostgreSQL backend in which several
requests, sockets or clocks meet, with proofs that hold for every input, every
schedule or every run.

`dafny verify dfyconfig.toml` checks the project.

## What is modelled

**Friendships.** `SocialTables` holds the three social tables and the meaning of each
pair-locked operation when it runs alone, and `SocialContracts` says what that comes
to in rows. `SocialHandlers` runs the handlers statement by statement on tables
updated in place and proves them equal to that meaning. `FriendshipProtocol` runs the
same handlers as concurrent transactions: a program counter over SQL statements, a
private buffer published at commit, reads of the committed state at statement time
(READ COMMITTED), row locks and unique keys, and the advisory lock on the pair.
`unblock_user` and preference changes are single unlocked steps, and any transaction
may be aborted at any point. `FriendshipInvariants` proves the inductive invariant,
`FriendshipTheorems` what follows from it, `FriendshipSerial` that lock order is a
serial order, `FriendshipAnswers` what the answers given before the lock mean,
`FriendshipAlone` that a transaction run alone does what its handler does,
`FriendshipLocks` that the locks cover what is written, `FriendshipPolicies` what the
unlocked steps do, and `RelationshipViews` that everything shown to users is derived
consistently.

**Presence.** `WsConnections` is the connection map with the methods of `WsState`.
`PresenceProtocol` runs sockets as state machines around it; the critical sections are
sequences of steps between which sends, closures and other sockets act, and a
broadcast visits one entry per step. `PresenceSections` ties the sections to the
methods; `PresenceInvariants`, `PresenceTheorems` and `PresenceEndings` prove the
promises.

**Rate limiting.** `RateLimiting` is the limiter with its deques, front pops and
sweeps; `RateLimitTheorems` treats whole runs, `RateLimitAnswers` says what the
answers mean, and `RateLimitTightness` shows how far the bound reaches. The sweep
decision and the deque update are two mutex sections, so the deque update is specified
for either decision. Times are nanoseconds and may run backwards by a stated skew.

**Search.** `LikeSearch` gives LIKE with a backslash escape as a recursive matcher
(PostgreSQL documentation, section 9.7.1) and proves what the compiled patterns mean.

**Passwords.** `Base64Url` (section 5 of RFC 4648), `Pbkdf2` (section 5.2 of RFC 8018,
over an arbitrary 32-byte PRF), `StoredHash` (the printed format, verification and the
upgrade at login) and `PasswordTexts` (which stored texts accept which passwords).

**Paging.** `KeysetPaging`: the page handler, walks over a fixed table and over one
that changes between pages.

**Message history.** `MessageHistory` is the message store with sending, clearing and
listing; `ClearProtocol` interleaves inserts with the two statements of any number of
clears.

**Registration codes.** `VerificationCodes` runs the two handlers of one mailbox
alone, `RepeatedSubmissions` one after another; `RegistrationProtocol` interleaves
them, with the snapshot and the row lock of `SELECT ... FOR UPDATE` as separate steps,
the lock held to the end, and the advisory lock of sends. Its actions carry arbitrary
clock readings, so nothing depends on clocks running forward.

In the protocol modules an action that is not enabled leaves the state as it is, so
every sequence of actions is a schedule. Fields described as recording what happened,
such as `removals`, `events`, `reopened`, `finished`, `issues` and `accounts`, are
read by no step (a code's number is the count of codes issued).

Two properties one might expect are false of the code. Each is proved with its exact
condition. Online and offline strictly alternate if and only if a user was never
registered again over a list emptied by pruning
(`PresenceTheorems.AlternatesUnlessReopened`; a run that fails is
`PrunedUserIsAnnouncedTwice`). And when calls may be processed up to `d` later than
their clock reading, intervals of a positive length respect the rate limit if and only
if the length is at most the window less `d`
(`RateLimitTightness.BoundReachesWindowLessSkew`; a run that fails is
`LateCallExceedsWindow`, with the sweeps the limiter itself decides on). So the full
window is covered exactly when no call is late.

## Model

| member | source | states |
|---|---|---|
| `SocialTables.EffectIsLocal` | src/social/relationships.rs:365-517 | What each of the six pair-locked operations does and answers depends only on the rows of its own pair, and it writes only rows of that pair |
| `SocialTables.EffectKeepsGood` | src/social/relationships.rs:365-904 | Every operation run alone keeps: one pending request per unordered pair, none between friends, none across a block, and the checks of the schema |
| `SocialTables.OverlayKeepsOtherPairs` | src/social/mod.rs:339-355 | Committing rows of one pair changes nothing that is seen of another pair: why one advisory lock per pair is enough |
| `SocialContracts.CreateMeans` | src/social/relationships.rs:365-517 | Every answer of a creation with its exact condition on the rows: created iff both users exist, no block either way, the recipient takes requests, no friendship and nothing pending; and the one row that appears |
| `SocialContracts.AcceptMeans` | src/social/relationships.rs:542-632 | Every answer of an acceptance with its exact condition, and afterwards the status of every row and the friendship |
| `SocialContracts.CloseMeans` | src/social/relationships.rs:634-743 | Every answer of a rejection and of a cancellation with its exact condition; the one row is then rejected, or cancelled |
| `SocialContracts.RemoveMeans` | src/social/relationships.rs:745-787 | Every answer of a removal, and the friendships it leaves |
| `SocialContracts.BlockMeans` | src/social/relationships.rs:839-904 | Every answer of a block, and afterwards the block, the status of every row and the untouched friendship |
| `SocialHandlers.SocialStore.constructor` | migrations/202610250001_social_v2.sql:7-58 | Empty social tables satisfy the promises |
| `SocialHandlers.SocialStore.CancelPendingBetween` | src/social/relationships.rs:594-606 | The UPDATE over both directions cancels exactly the pending rows of the unordered pair, but for the row kept |
| `SocialHandlers.SocialStore.FindPending` | src/social/relationships.rs:442-450 | A pending request from one user to the other is found exactly when there is one |
| `SocialHandlers.SocialStore.CreateRequest` | src/social/relationships.rs:365-517 | Statement by statement in place, the handler leaves the tables and the answer of the reference meaning, and creates iff the rows allow it |
| `SocialHandlers.SocialStore.AcceptRequest` | src/social/relationships.rs:542-632 | Same for accepting: friendship inserted, row accepted, other pending rows of the pair cancelled, or the right error and no change |
| `SocialHandlers.SocialStore.RejectRequest` | src/social/relationships.rs:634-688 | Same for rejecting |
| `SocialHandlers.SocialStore.CancelRequest` | src/social/relationships.rs:690-743 | Same for cancelling, with the sender as the one who may |
| `SocialHandlers.SocialStore.RemoveFriend` | src/social/relationships.rs:745-787 | Same for removing: the friendship row goes, removing a stranger succeeds without change |
| `SocialHandlers.SocialStore.BlockUser` | src/social/relationships.rs:839-904 | Same for blocking: block inserted, pending rows of the pair cancelled in both directions, friendship kept |
| `SocialHandlers.SocialStore.UnblockUser` | src/social/relationships.rs:906-940 | One delete without the lock keeps the promises and changes only that block |
| `FriendshipInvariants.StatementKeepsStable` | src/social/relationships.rs:382-501 | One statement under the pair lock keeps what the program counter has established about the pair |
| `FriendshipInvariants.PublishedKeepsGood` | src/social/relationships.rs:503-503 | Publishing the buffer at commit keeps the promises of the tables, although they were checked statements earlier |
| `FriendshipInvariants.PublishedKeepsCount` | src/social/relationships.rs:573-592 | A commit changes the number of accepted rows of a pair exactly as it changes the friendship row and the removals |
| `FriendshipInvariants.NextKeepsInv` | src/social/relationships.rs:365-940 | Every step of every transaction, every abort and every unlocked unblock or preference change keeps the inductive invariant |
| `FriendshipInvariants.EveryScheduleKeepsInv` | src/social/relationships.rs:365-940 | The invariant holds after every schedule from empty tables |
| `FriendshipTheorems.AtMostOnePending` | migrations/202610250001_social_v2.sql:19-21 | In every committed state of every interleaving an unordered pair has at most one pending request, and none when the two are friends or either blocks the other; the index promises only the ordered pair |
| `FriendshipTheorems.AcceptancesAreConserved` | src/social/relationships.rs:573-606 | For every pair, accepted requests = removals that deleted a row + 1 if the two are friends now |
| `FriendshipTheorems.DefensiveBranchesAreIdle` | src/social/relationships.rs:474-501 | The insert of a request never conflicts, so its second query never runs; the friendship insert never conflicts; the cancel-the-others update touches no row |
| `FriendshipTheorems.RowLocksNeverWait` | src/social/relationships.rs:519-561 | In every schedule FOR UPDATE, every UPDATE and every unique key is free when a statement needs it |
| `FriendshipTheorems.WaitsForIsAcyclic` | src/social/mod.rs:339-355 | A path of waits has at most one edge, so the wait-for graph never has a cycle |
| `FriendshipTheorems.SomeTransactionProceeds` | src/social/mod.rs:339-355 | While some transaction has not ended, some transaction can take its next step |
| `FriendshipLocks.WritesKeepOthersOut` | src/social/relationships.rs:553-606 | In every run, whatever a transaction has written and not committed is covered by a row lock or a unique key it holds |
| `FriendshipLocks.StatementAsksFirst` | src/social/relationships.rs:553-606 | A statement asks for every row and every unique key it is about to lock |
| `FriendshipLocks.SelectForUpdateLocks` | src/social/relationships.rs:553-561 | FOR UPDATE asks for its row, and holds it afterwards when it exists |
| `FriendshipLocks.StuckIffWaiting` | src/social/mod.rs:339-355 | In every run an unfinished transaction cannot take its next step iff it waits for another |
| `FriendshipPolicies.NoRequestToRefuser` | src/social/relationships.rs:413-425 | While preferences stay as they are, no request to a user who takes none is ever committed, in any schedule |
| `FriendshipPolicies.UnblockTakesEffect` | src/social/relationships.rs:918-923 | The unlocked delete removes exactly that block, whatever the others are doing |
| `FriendshipPolicies.AbortRollsBack` | src/social/mod.rs:339-355 | In every run an aborted transaction leaves no row and holds no lock, and nobody else notices |
| `FriendshipAlone.RunAloneIsEndpoint` | src/social/relationships.rs:365-904 | From every state without held locks a new operation can be stepped to its end, with the answer and the tables of its endpoint |
| `FriendshipSerial.AloneCommutes` | src/social/mod.rs:339-355 | Operations on different pairs commute, both in their rows and in their answers |
| `FriendshipSerial.ReplayInsert` | src/social/relationships.rs:382-385 | An operation that ends later can be inserted at its place in lock order without disturbing the ones already replayed after it |
| `FriendshipSerial.LockOrderSerializes` | src/social/relationships.rs:365-904 | With preferences fixed and no unblock, the committed tables, and the answer of every operation that held its pair lock and was not aborted, are those of running the operations alone, one at a time, in the order they acquired their pair locks |
| `FriendshipAnswers.EarlyAnswersAreAlone` | src/social/relationships.rs:519-540 | In every schedule an operation answered without ever holding its pair lock got the answer its endpoint gives alone on the tables of the moment it was answered, and changed no row |
| `RelationshipViews.LoadFriends` | src/social/mod.rs:396-406 | Whatever the order of the rows, the set holds exactly the listed targets that are friends of the viewer |
| `RelationshipViews.LoadBlocks` | src/social/mod.rs:408-425 | The two sets hold exactly the listed targets the viewer blocks and those that block the viewer |
| `RelationshipViews.LoadPending` | src/social/mod.rs:427-446 | The two maps hold exactly the pending request to and from each listed target |
| `RelationshipViews.LoadPolicies` | src/social/mod.rs:448-460 | The map holds exactly the stored policies of the listed targets |
| `RelationshipViews.Load` | src/social/mod.rs:386-463 | Each part of the context is what its query describes at the moment of that query, so other commits may fall in between; undisturbed it is the context of the tables, also for an empty list |
| `RelationshipViews.HintIsAuthority` | src/social/mod.rs:481-498 | For every snapshot, viewer and list, the hint for a listed target is true iff the authority of the send endpoint allows |
| `RelationshipViews.FriendRowIsAuthority` | src/social/relationships.rs:245-286 | On every friend row the inline SQL gives the same permission as the authority and the context, and the relationship shown is that of the context |
| `RelationshipViews.CanMessageMeans` | src/social/mod.rs:481-498 | The hint in terms of rows: never to oneself or across a block, else by the policy of the target: anyone by default or for everyone, nobody, or exactly the friends |
| `RelationshipViews.ViewMeans` | src/social/mod.rs:465-479 | The relationship shown in terms of rows: a block of one own first, then a friendship, then an outgoing and then an incoming pending request, with its id |
| `RelationshipViews.ViewIsIndependentOfList` | src/social/mod.rs:465-479 | What is shown about a target does not depend on the other targets listed |
| `RelationshipViews.ViewsMirror` | src/social/mod.rs:465-479 | In every reachable state: A sees outgoing r for B iff B sees incoming r for A; friends is mirrored by friends or blocked, none by none or blocked |
| `WsConnections.WithoutMembers` | src/ws.rs:62-62 | Retaining keeps exactly the connections that are not dropped, and leaves nothing exactly when all are dropped |
| `WsConnections.WsState.Register` | src/ws.rs:53-58 | Appends to the list of the user and tells whether the list was empty, key or no key |
| `WsConnections.WsState.Unregister` | src/ws.rs:60-68 | Drops this channel and removes the key if the list is then empty; true iff the key was there and no other channel was left |
| `WsConnections.WsState.RetainOpen` | src/ws.rs:74-76 | The in-place filter keeps the open channels in order |
| `WsConnections.WsState.SendToUser` | src/ws.rs:71-78 | Only the closed channels of that user are dropped; a key may be left with no channel |
| `WsConnections.WsState.Broadcast` | src/ws.rs:80-87 | The closed channels of every user are dropped, in whatever order the entries are visited, and no key is removed |
| `WsConnections.WsState.IsOnline` | src/ws.rs:89-93 | True iff some channel is listed for the user |
| `WsConnections.WsState.DisconnectUser` | src/ws.rs:95-110 | Removes the key, tells every channel that was listed and broadcasts offline, or does nothing |
| `WsConnections.WsState.RegisterAuthenticatedConnection` | src/ws.rs:217-237 | Registers, and broadcasts online iff no channel of the user was listed |
| `WsConnections.WsState.UnregisterAuthenticatedConnection` | src/ws.rs:239-253 | Unregisters, and broadcasts offline iff the user left the map |
| `PresenceSections.RegisterAlone` | src/ws.rs:217-237 | Undisturbed, the steps of the registering section in the protocol do what the method does |
| `PresenceSections.UnregisterAlone` | src/ws.rs:239-253 | Undisturbed, the steps of the unregistering section do what the method does |
| `PresenceSections.DisconnectAlone` | src/ws.rs:95-110 | Undisturbed, the steps of a forced disconnect do what the method does, and the listed sockets are told |
| `PresenceInvariants.NextKeepsInv` | src/ws.rs:53-444 | Every step of sockets, sections, sends, closures, frames and timers keeps the inductive invariant |
| `PresenceInvariants.EveryScheduleKeepsInv` | src/ws.rs:53-444 | The invariant holds after every schedule |
| `PresenceTheorems.RegistersOnce` | src/ws.rs:274-368 | Every socket registers at most once, and for the user it is authenticated as |
| `PresenceTheorems.FrameDecides` | src/ws.rs:322-418 | In every run: before authentication only a token or a protocol ping keeps a socket open; afterwards another token is tolerated only as the first text, repeating the identity of the upgrade |
| `PresenceTheorems.IdentityIsFixed` | src/ws.rs:274-368 | Once a socket is authenticated its identity stays the same in every continuation, and its tolerance for a repeated token, once used up, does not come back |
| `PresenceTheorems.LaterTokenEndsSocket` | src/ws.rs:325-335 | After a first text, whatever happens in between, any token ends an authenticated socket |
| `PresenceEndings.ArmsEnd` | src/ws.rs:294-321 | In every run: a told socket that takes the disconnect arm leaves; the authentication deadline ends exactly the anonymous loops, the token expiry exactly the authenticated ones, the heartbeat timeout any |
| `PresenceEndings.ForcedDisconnectEnds` | src/ws.rs:95-110 | Whatever happens in between, a socket listed at a forced disconnect that takes the disconnect arm never loops again, and once exited is in no list |
| `PresenceEndings.ForcedDisconnectTells` | src/ws.rs:95-110 | A free presence lock is given to a forced disconnect, and its step removes the entry, tells every listed socket and announces offline |
| `PresenceEndings.LeavingSectionExits` | src/ws.rs:430-434 | A socket out of its loop can take its leaving section when the lock is free, and then has exited and is in no list |
| `PresenceEndings.RepeatedIdentityIsTolerated` | src/ws.rs:325-335 | The first text of a socket authenticated by its upgrade may repeat that identity, whatever came before it |
| `PresenceEndings.RepliesMean` | src/ws.rs:139-158 | Before authentication only a token is heard, afterwards any application message but a token; each error has its exact condition |
| `PresenceTheorems.StoredConnectionsAreLive` | src/ws.rs:53-68 | A stored channel belongs to an authenticated socket of that user that has not exited, and is stored once |
| `PresenceTheorems.UsersInTheMapHaveASocket` | src/ws.rs:60-68 | Every key has an authenticated socket that has not exited, even when sends have emptied its list |
| `PresenceTheorems.AllExitedLeavesNobodyOnline` | src/ws.rs:430-434 | Once every socket has exited the map is empty and the latest event of no user is online, whatever sends, prunes and forced disconnects interleaved |
| `PresenceTheorems.PresenceMatchesAnnouncements` | src/ws.rs:217-253 | Outside the presence sections a user is in the map iff the latest broadcast event of the user is online |
| `PresenceTheorems.OfflineAlwaysEndsOnline` | src/ws.rs:95-110 | At every moment of every run the first event of a user is online and no two offline events are consecutive |
| `PresenceTheorems.AlternatesUnlessReopened` | src/ws.rs:53-58 | Online and offline strictly alternate iff the user was never registered again over a list left empty; so they do when no channel of the user was found closed |
| `PresenceEndings.OpenChannelsAlternate` | src/ws.rs:119-128 | In every run a user none of whose registered channels has been closed is announced online and offline in strict turn |
| `PresenceTheorems.PrunedUserIsAnnouncedTwice` | src/ws.rs:71-78 | A concrete run with online announced twice in a row: strict alternation is not a promise of the code |
| `RateLimiting.RateLimiter.constructor` | src/rate_limit.rs:69-76 | The limit is at least one and nothing is stored |
| `RateLimiting.RateLimiter.RetainFresh` | src/rate_limit.rs:92-92 | The filter keeps exactly the entries younger than the window, in order |
| `RateLimiting.RateLimiter.Sweep` | src/rate_limit.rs:91-94 | Every deque loses its stale entries and empty deques leave the map, in whatever order the keys are visited |
| `RateLimiting.RateLimiter.CheckAt` | src/rate_limit.rs:78-127 | Sweep decision, sweep, front pops, denial or admission leave exactly the deques and the answer of the specification |
| `RateLimitTheorems.PruningKeepsCount` | src/rate_limit.rs:90-103 | Neither the sweep nor the front pops lose an entry that a later interval of a window could still count |
| `RateLimitTheorems.RecentAdmissionsAreStored` | src/rate_limit.rs:90-117 | Every admission young enough to matter is still in the deque of its key, however late calls are processed |
| `RateLimitTheorems.AdmissionsAreBounded` | src/rate_limit.rs:78-127 | When no call is more than d behind an earlier processed one, an interval shorter than window - d holds at most the limit of admissions of a key, for any mix of keys and sweeps |
| `RateLimitTightness.BoundReachesWindowLessSkew` | src/rate_limit.rs:78-127 | For every limit, window and skew d: an interval of a given positive length never holds more than the limit of admissions of a key if and only if the length is at most window - d, both for arbitrary sweep decisions and for the decisions the limiter makes in turn; the full window is covered iff d is zero |
| `RateLimitTightness.SomeRunExceeds` | src/rate_limit.rs:78-103 | Beyond that length some run, with the sweeps decided from the construction time on, admits exactly one call too many |
| `RateLimitTightness.LateCallExceedsWindow` | src/rate_limit.rs:78-103 | Three concrete calls of a limiter built at time 0, one of them late, with two admissions inside one window at limit one |
| `RateLimitTheorems.LimiterRefinesReference` | src/rate_limit.rs:78-127 | For non-decreasing times every answer, with remaining and reset, is that of a reference that keeps every admission forever and counts those younger than the window |
| `RateLimitAnswers.AnswersMean` | src/rate_limit.rs:97-126 | For calls in order of time: admitted iff fewer admissions of the key than the limit are younger than the window; remaining is the limit less those and this one, or zero; the reset is the time until the oldest of them is as old as the window |
| `RateLimitAnswers.BudgetIsExact` | src/rate_limit.rs:117-126 | After an admission with a given remaining budget, exactly that many of the next calls on the key before its reset are admitted, whatever other keys and sweeps do |
| `RateLimitTheorems.DequesStayValid` | src/rate_limit.rs:97-117 | For non-decreasing times every stored deque is sorted, non-empty and no longer than the limit |
| `RateLimitTheorems.ResetIsExact` | src/rate_limit.rs:105-115 | After a denial at t with reset r, a later call on the key is denied before t + r, and the first one from t + r on is admitted, whatever other keys and sweeps do |
| `RateLimitTheorems.AdvertisedSecondsCoverReset` | src/rate_limit.rs:159-164 | A denial advertises a positive wait within the window, and the whole seconds are at least the wait and less than a second more |
| `LikeSearch.EscapeLikePattern` | src/forum.rs:144-153 | The loop produces the escaped text |
| `LikeSearch.NewSearch` | src/forum.rs:133-142 | The contains pattern matches exactly the texts with the query in them, the prefix pattern exactly those that start with it |
| `LikeSearch.EscapedMatchesItself` | src/forum.rs:144-153 | Under LIKE with a backslash escape an escaped text followed by any pattern matches exactly itself followed by a match of that pattern |
| `LikeSearch.PrefixMeansStartsWith` | src/forum.rs:1034-1036 | For every query and text the prefix pattern matches iff the text starts with the query |
| `LikeSearch.ContainsMeansSubstring` | src/forum.rs:1004-1005 | For every query and text the contains pattern matches iff the query is a contiguous substring of the text |
| `LikeSearch.PatternsAreWellFormed` | src/forum.rs:133-153 | No query yields a pattern that ends in a lone escape, which LIKE would refuse |
| `LikeSearch.UnderscoreMatchesOne` | src/forum.rs:144-153 | An unescaped underscore matches any one character, so escaping it matters |
| `LikeSearch.PrefixRankIsPositionOne` | src/forum.rs:1033-1037 | Among the rows found, those ranked first by the prefix pattern are exactly those whose match POSITION is one |
| `Base64Url.DecodeOfEncode` | src/auth.rs:198-202 | Decoding what was encoded gives the bytes back, and the text never holds the field separator |
| `Base64Url.EncodeOfDecode` | src/auth.rs:219-226 | Only the canonical text of some bytes decodes: no padding and no stray trailing bits |
| `Base64Url.EncodeSextetIsAlphabet` | src/auth.rs:200-201 | The printed characters are the URL-safe alphabet of RFC 4648, in its order |
| `Base64Url.GroupsAreBigEndian` | src/auth.rs:200-201 | Every three bytes are printed as one 24-bit number, most significant sextet first |
| `Base64Url.LastGroup` | src/auth.rs:200-201 | One or two last bytes are padded with zero bits to whole sextets and nothing else |
| `Pbkdf2.XorInto` | src/auth.rs:268-270 | The in-place loop leaves the byte-wise exclusive or |
| `Pbkdf2.Block` | src/auth.rs:258-271 | One pass of the outer loop computes F (P, S, c, i) of section 5.2 of RFC 8018 |
| `Pbkdf2.Pbkdf2HmacSha256` | src/auth.rs:254-277 | The chunked loops write the derived key of section 5.2 of RFC 8018 for an arbitrary PRF, with a short last block |
| `Pbkdf2.ConstantTimeEq` | src/auth.rs:279-289 | True iff the two byte strings are equal |
| `Pbkdf2.DerivedKeyAt` | src/auth.rs:258-276 | Byte k of the key is byte k mod 32 of block k div 32 + 1, whatever the length asked for |
| `Pbkdf2.BigEndianIsRead` | src/auth.rs:259-259 | The four bytes of a block number, read most significant first, give the number |
| `Pbkdf2.OneIteration` | src/auth.rs:260-264 | A key of one iteration and one block is the start of the PRF of the password over the salt followed by the number one |
| `Pbkdf2.OneMoreIteration` | src/auth.rs:266-273 | Each iteration applies the PRF to the previous result and combines the two bit by bit |
| `StoredHash.PrintedHashParses` | src/auth.rs:188-226 | The printed hash splits into four fields that parse back to the iterations, the salt and the key |
| `StoredHash.VerifiesIffSameKey` | src/auth.rs:205-233 | The hash of one password accepts another iff the two derive the same key |
| `StoredHash.HashPasswordVerifies` | src/auth.rs:188-245 | A password is accepted by its own hash, which needs no upgrade |
| `StoredHash.LoginUpgradesOnce` | src/account.rs:335-352 | Whatever was stored, after a successful login the stored hash accepts the same password, needs no upgrade, and a second login leaves it as it is |
| `StoredHash.VerifiedHashIsCanonical` | src/auth.rs:205-233 | A stored text with the prefix is accepted only when its salt and key fields are exactly what hashing would print |
| `PasswordTexts.TextVerifies` | src/auth.rs:205-233 | A stored hash with any salt, any key and any spelled count accepts a password iff the count is between one and a million and the password derives that key |
| `PasswordTexts.PrintedTextVerifies` | src/auth.rs:214-232 | The same with the count printed in decimal, for every count up to a million |
| `PasswordTexts.AcceptedText` | src/auth.rs:205-233 | A marked text that accepts a password is the text of some salt, some count and the key the password derives |
| `PasswordTexts.LoginLeavesStrongHash` | src/account.rs:322-352 | A successful login leaves the text of a key the password derives with at least 600000 iterations, whatever was stored; a failed one leaves what was there |
| `PasswordTexts.StrongHashIsKept` | src/auth.rs:235-245 | A stored hash of at least 600000 iterations is not rewritten |
| `StoredHash.Verify` | src/auth.rs:205-233 | The imperative check, with its buffer, accepts exactly what the specification accepts; a text without the mark of the format accepts exactly itself |
| `StoredHash.Hash` | src/auth.rs:188-203 | The imperative hashing prints the specified text |
| `KeysetPaging.PageLimit` | src/social/mod.rs:295-297 | The page size is 20 by default and otherwise the asked one brought between 1 and 50 |
| `KeysetPaging.ListPage` | src/social/relationships.rs:350-362 | From the rows of any table past any cursor, fetched with one row more than the page, the answer is the page promised: the first rows in order, a cursor iff rows are left, and all of those past it |
| `KeysetPaging.PageIsUnique` | src/social/relationships.rs:335-361 | That promise determines the page |
| `KeysetPaging.WalkIsDescending` | src/social/relationships.rs:194-222 | Whatever is inserted or deleted between pages, a walk lists rows in strictly descending (created_at, id) order |
| `KeysetPaging.NewestFirst` | src/social/relationships.rs:335-361 | In every walk a later row is listed before an earlier one, and of one time the greater id first |
| `KeysetPaging.NoRowTwice` | src/social/relationships.rs:335-361 | No id appears twice in a walk, whatever changes between its pages |
| `KeysetPaging.ListedExactlyOnce` | src/social/relationships.rs:335-361 | A row that matches throughout a completed walk is listed exactly once |
| `KeysetPaging.WalkReturnsTheFullList` | src/social/relationships.rs:194-222 | Over a table that stays as it is a completed walk concatenates to exactly the full filtered list |
| `KeysetPaging.WalkLength` | src/social/relationships.rs:350-361 | Over a fixed table every walk is bounded, and a completed one has exactly as many pages as its rows need |
| `KeysetPaging.WalkCompletes` | src/social/relationships.rs:335-361 | Every walk over a fixed table can be followed to its end |
| `MessageHistory.MaxIdIsMax` | src/social/messages.rs:78-87 | COALESCE(MAX(id), 0) is the greatest id of the conversation |
| `MessageHistory.MessageStore.SendMessage` | src/forum.rs:850-888 | A message is sent iff both users exist and differ, the content has 1 to 10000 characters, there is no block either way and the policy of the recipient admits the sender (anyone by default or for everyone, friends for friends, nobody for nobody); it then becomes visible to both participants, even to one who has cleared the conversation, and to nobody else |
| `MessageHistory.MessageStore.ReadMax` | src/social/messages.rs:78-87 | The first statement of a clear |
| `MessageHistory.MessageStore.RaiseBoundary` | src/social/messages.rs:89-104 | The upsert stores the greater of the stored and the new boundary |
| `MessageHistory.MessageStore.ClearHistory` | src/social/messages.rs:66-114 | Run alone, the handler hides exactly the conversation from the viewer and leaves every other list as it was, or refuses without change |
| `MessageHistory.MessageStore.FetchMessages` | src/forum.rs:390-419 | The list is a rearrangement, oldest first, of the messages of the viewer that no boundary hides |
| `MessageHistory.VisibleMeans` | src/forum.rs:394-411 | A message is visible iff it involves the viewer and is above the boundary of its conversation |
| `ClearProtocol.InsertAppears` | src/forum.rs:878-888 | In every state an insert is visible at once to both participants, below no boundary, and to nobody else |
| `ClearProtocol.StepKeepsInv` | src/social/messages.rs:78-104 | Every insert and every statement of every clear keeps: a boundary is the greatest MAX of the finished clears of its conversation |
| `ClearProtocol.HiddenInEveryRun` | src/forum.rs:402-411 | In every state of every run a message is hidden from a participant iff a finished clear of that participant looked at it |
| `ClearProtocol.BoundariesNeverDecrease` | src/social/messages.rs:89-104 | Along every run no boundary decreases and no message goes |
| `ClearProtocol.HiddenStaysHidden` | src/social/messages.rs:89-104 | A message hidden from a viewer stays hidden |
| `ClearProtocol.ClearHidesWhatItRead` | src/social/messages.rs:78-104 | Whatever runs between its two statements, the upsert of a clear hides exactly the messages of the conversation its MAX looked at, and the list of everybody else is unchanged |
| `ClearProtocol.LaterMessageSurvives` | src/social/messages.rs:78-104 | A message inserted after the MAX of a clear is not hidden by that clear |
| `VerificationCodes.Mailbox.CreateUser` | src/account.rs:207-287 | Run alone, a submission creates an account iff the stored code would accept it and the address is free, after which no code is accepted; a conflict changes nothing, a mismatch adds one attempt, an exhausted row is deleted, and a refusal makes no further code acceptable |
| `VerificationCodes.Mailbox.SendVerificationCode` | src/account.rs:400-437 | Run alone, a send either is refused and changes nothing, or exactly its new code is accepted from then on, for ten minutes, and it came at least 60 seconds after the code it replaces |
| `VerificationCodes.RetryIsExact` | src/account.rs:407-418 | A refused send advertises between 1 and 60 seconds; waiting that long ends the cooldown, and a wait shorter by a second does not |
| `RepeatedSubmissions.MismatchesAreCounted` | src/account.rs:242-257 | After k mismatches in time, up to five, the stored code has k attempts and is otherwise as it was |
| `RepeatedSubmissions.FifthMismatchEndsTheCode` | src/account.rs:229-257 | The right code creates the account after at most four mismatches; after five it is refused and deleted |
| `RegistrationProtocol.StepKeepsInv` | src/account.rs:207-437 | Every step of submissions and sends, under the row lock and the advisory lock, keeps the inductive invariant |
| `RegistrationProtocol.AttemptsAreBounded` | src/account.rs:233-256 | In every run attempts is the number of mismatches counted for the stored code, and no code is counted more than five |
| `RegistrationProtocol.ExhaustedCodeNeverRegisters` | src/account.rs:233-245 | After five mismatches were counted for a code no run ever creates an account with it |
| `RegistrationProtocol.OneAccountPerCode` | src/account.rs:258-287 | In every run each issued code creates at most one account, even if accounts are removed by other means |
| `RegistrationProtocol.AccountsUseTheirCode` | src/account.rs:211-247 | Every account was created with the very code issued, by a submission that started before it expired and with fewer than five mismatches counted |
| `RegistrationProtocol.OneAccountPerMailbox` | src/account.rs:258-276 | Unless accounts are removed by other means a mailbox gets at most one, and none when it had one |
| `RegistrationProtocol.CommitsAreAtomic` | src/account.rs:207-437 | Every commit does to the committed tables exactly what the handler run alone at that moment would do |
| `RegistrationProtocol.SubmissionRunsAlone` | src/account.rs:207-287 | From every state with free locks, the undisturbed steps of a submission do what the handler run alone does |
| `RegistrationProtocol.SendRunsAlone` | src/account.rs:386-437 | The same for a send, whether refused or not |
| `RegistrationProtocol.RefusalsAreAtomic` | src/account.rs:211-276 | In every run a submission that is refused changes no table, and at some moment while it was under way the handler run alone would have given the same answer; this includes a submission whose row was deleted while it waited for it |
| `RegistrationProtocol.SendRefusalsAreAtomic` | src/account.rs:399-417 | A refused send is refused by the handler run alone at the moment of its check, and changes nothing |
| `RegistrationProtocol.CooldownHolds` | src/account.rs:393-418 | A send that replaces a stored code passed its check at least 60 seconds after that code was created |

## Left out

- FriendshipSerial.LockOrderSerializes: covers schedules without `unblock_user` and preference changes, which take no lock and are not ordered by it in the code.
- RelationshipViews.HintIsAuthority: compares the hint and the authority on the same snapshot.
- KeysetPaging.NoRowTwice: a row keeps its creation time, which no statement of the code changes.
- KeysetPaging.ListPage: rows are fetched by a query whose result is specified; planning and execution of SQL are not modelled.
- MessageHistory.MessageStore.SendMessage: its checks read one state of the tables, and the content is the text after trimming; what the notification carries is left out.
- Pbkdf2.Pbkdf2HmacSha256: outputs of more than (2^32 - 1) blocks of 32 bytes, which the standard excludes and the code never asks for.
- RateLimitTheorems.AdvertisedSecondsCoverReset: waits of 2^64 - 1 seconds or more, where the code saturates.
- Creation and update times of the social tables and the length check of a request's message and the notifications of the friendship handlers.
- Foreign-key share locks, user deletion and its cascades, statement timeouts and database errors other than as an abort that rolls back.
- In the friendship protocol a rollback on an error answer is one step that publishes nothing and releases the locks.
- The contents and capacity of the outbound queue of a socket: the order in which a client receives `auth_ok` and a concurrent notification is not modelled, although a comment in the code speaks of it.
- The timers of a socket are actions that may happen at any time in the states in which the code arms them; token lifetimes and heartbeats are not measured.
- Poisoned locks, panics and cancellation of tasks in the WebSocket layer.
- Exhaustion of INTEGER ids and the order of messages with equal times: the listing leaves the latter open, and an insert takes its id and becomes visible in one step.
- JWT, HMAC-SHA-256, UTF-8 encoding, random salts and codes, SMTP and JSON: foreign calls, taken as parameters or left out. Page cursors are compared as values, not as text.
- Collisions of `hashtext`, which can only make sends of two mailboxes wait for each other, and validation of names, passwords and addresses.
- The `list_friends` and `list_blocks` cursors, where a user id is read as a 64-bit id, and offset paging in the user search.
- Case folding in searches: the query is folded by the program and the column by SQL `LOWER`, which may differ; the patterns are compared with texts as they are after folding.
- HTTP routing, middleware, configuration, migrations as such, posts, comments and likes, avatars and other endpoints that are single statements.
