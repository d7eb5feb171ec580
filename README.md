# Real-time poll service: a Dafny model

This project models the vote path of a small real-time polling service and the poll operations around it. Clients create a poll with a question and options, share its link, and vote; every viewer of the poll sees the tallies change live.

The model covers:

- **The "vote" socket handler.** It runs an ordered chain of admission checks: the poll exists, it is open, the voter has not voted, the per-(poll, address) rate limiter lets the vote through, and the option exists. An accepted vote changes the stored poll once and broadcasts the whole poll to the poll's room. A rejected vote sends an error to the sender only.
- **The rate limiter.** A map from the key `pollId:ip` to the time of the last vote it let through, with a 10 000 ms window.
- **The poll HTTP routes.** Create validates the body and builds options with fresh ids and zero votes. Get returns the stored poll. Close marks the poll inactive and broadcasts it.
- **The poll record and its schema defaults.**
- **Two browser pages.** The create page holds the option editor (2 to 10 entries) and the submit validation. The poll page holds the optimistic tally update, the `voted` flag, the total and the percentages.

Modules, one per source file:

- `PollModel` (`poll_model.dfy`) holds the record datatypes, the store (a class over a map from poll id to record), first-match option lookup and the tally sum.
- `RateLimit` (`rate_limit.dfy`) holds the limiter as a class with a map field, plus the pure decision function `Check`.
- `Transport` (`transport.dfy`) holds socket.io rooms and emits, represented as values.
- `PollSocket` (`poll_socket.dfy`) holds the vote handler. `Vote` is the handler as a function; `HandleVote` is the handler written imperatively over the store and limiter objects, and is proved equal to `Vote`.
- `PollRoutes` (`poll_routes.dfy`) holds create, get and close.
- `Engine` (`engine.dfy`) holds the properties of whole runs of vote and close events: the store invariant, closed polls staying frozen, and tallies counting exactly the accepted votes.
- `CreatePollPage` and `PollRoomPage` hold the two browser pages.

These are parameters rather than hidden effects: the clock (`now`), the fresh ids from `uuidv4` (`ids`), the id the database gives a new poll, the sender's address, and whether storage fails during an event (`Storage`).

## Model

| member | source | states |
|---|---|---|
| `PollModel.SchemaDefaults` | backend/src/models/Poll.js:3-14 | a new option has 0 votes; a new poll is active and stamped with its creation time; schema validation passes exactly when the question is non-empty |
| `PollModel.FindOption` | backend/src/sockets/pollSocket.js:44-45 | the result is the FIRST option whose id matches, or None exactly when no option has that id |
| `PollModel.TotalVotesAppend` | frontend/src/pages/PollRoom.jsx:176 | the tally sum of a concatenation is the sum of the parts' sums |
| `PollModel.TotalVotesBump` | backend/src/sockets/pollSocket.js:51 | raising one option's votes by 1 raises the total by exactly 1 |
| `PollModel.TotalVotesOfZeros` | backend/src/routes/pollRoutes.js:15-19 | options that all have 0 votes sum to 0 |
| `PollModel.PollStore.FindById` | backend/src/sockets/pollSocket.js:13 | returns the stored record, or None exactly when the id is not stored |
| `PollModel.PollStore.Save` | backend/src/sockets/pollSocket.js:53 | the record under the id is replaced and every other record is kept |
| `RateLimit.RateLimiter.CheckVoteRateLimit` | backend/src/middleware/rateLimit.js:4-17 | the answer and the new map are exactly those of `Check` on the old map, the key `pollId:ip` and `now` |
| `RateLimit.FirstCallAdmitted` | backend/src/middleware/rateLimit.js:8-16 | a key with no entry is let through and gets `now` stored |
| `RateLimit.RefusedInsideWindow` | backend/src/middleware/rateLimit.js:8-12 | if `now - last < 10000`, the call is refused and the map is left exactly as it was |
| `RateLimit.AdmittedAfterWindow` | backend/src/middleware/rateLimit.js:8-16 | if `now - last >= 10000`, the call is let through and the stored time becomes `now` |
| `RateLimit.CheckFrame` | backend/src/middleware/rateLimit.js:1-16 | the key set grows by the key only when the call is let through; no other key's entry changes; after a call that is let through, the key holds `now` |
| `RateLimit.FirstColonOfKey` | backend/src/middleware/rateLimit.js:5 | when the poll id has no ':', the key's first ':' sits right after the poll id |
| `RateLimit.SplitKeyRoundTrip` | backend/src/middleware/rateLimit.js:5 | a key built from a poll id without ':' splits back into its (poll id, address) pair |
| `RateLimit.KeyInjective` | backend/src/middleware/rateLimit.js:5 | for poll ids without ':', different (poll, address) pairs give different keys |
| `RateLimit.KeyCollision` | backend/src/middleware/rateLimit.js:5 | when a poll id contains ':', two different pairs can share one key |
| `RateLimit.StoredTimesNotAhead` | backend/src/middleware/rateLimit.js:8-16 | if the clock never runs backwards, no stored time is later than the latest call's time |
| `RateLimit.AdmittedStoredNoEarlier` | backend/src/middleware/rateLimit.js:8-16 | whatever the clock does, after any run of calls each admitted call's key is stored with a time no earlier than that call's own |
| `RateLimit.MinimumSpacing` | backend/src/middleware/rateLimit.js:8-16 | whatever the clock does (a wall clock may step backwards) and from any starting map, an admitted call comes at least 10 000 ms after every earlier admitted call with the same key |
| `Transport.Rooms.Join` | backend/src/sockets/pollSocket.js:7-9 | the socket is added to the poll's room and every other room is unchanged |
| `PollSocket.HandleVote` | backend/src/sockets/pollSocket.js:11-61 | the new store, the new limiter map and the emit are exactly those `Vote` gives for the old state |
| `PollSocket.MessagesDistinct` | backend/src/sockets/pollSocket.js:16-59 | each rejection reason has its own error text |
| `PollSocket.RejectionReasons` | backend/src/sockets/pollSocket.js:13-48 | the checks run in order (load, exists, active, new voter, limiter, option); each outcome holds exactly when every earlier check passed and its own failed (both directions); acceptance needs every check to pass and the save to succeed |
| `PollSocket.EarlyRejectionChangesNothing` | backend/src/sockets/pollSocket.js:13-42 | a load failure, unknown poll, closed poll, repeat voter or limiter refusal leaves the store and the limiter map unchanged |
| `PollSocket.LateRejectionSpendsBudget` | backend/src/sockets/pollSocket.js:34-53 | an invalid option, or a failed save, leaves the store unchanged, but the limiter already holds `now` for `pollId:ip` |
| `PollSocket.AcceptedVoteEffect` | backend/src/sockets/pollSocket.js:50-53 | after acceptance: the first matching option gets +1; every other option is unchanged; voters becomes old voters plus the voter; question, isActive and createdAt are unchanged; the total grows by 1; only that poll is replaced in the store; the limiter holds `now` |
| `PollSocket.AcceptedRecordsVote` | backend/src/sockets/pollSocket.js:13-53 | an accepted vote names a stored poll, a matching option and a voter not yet in the list, and the store afterwards is the old store with exactly that poll replaced by the recorded vote |
| `PollSocket.VoteFrame` | backend/src/sockets/pollSocket.js:11-61 | a vote never adds or removes a stored poll, and leaves every poll unchanged except the voted-on one when it is accepted |
| `PollSocket.BroadcastOnlyOnAcceptance` | backend/src/sockets/pollSocket.js:16-56 | the emit goes to the room exactly when the vote is accepted, and it carries the whole updated poll; a rejection goes to the sender with its reason's message |
| `PollSocket.VoteAudience` | backend/src/sockets/pollSocket.js:7-57 | a socket receives a vote's outcome exactly when the vote was accepted and the socket joined the room named by the request's poll id, or the vote was rejected and the socket is the sender |
| `PollSocket.ClosedPollUnchanged` | backend/src/sockets/pollSocket.js:21-24 | a vote never changes a closed poll, and a vote on a closed poll leaves the limiter unchanged |
| `PollSocket.VotersStayDistinct` | backend/src/sockets/pollSocket.js:27-52 | a poll whose voters are distinct still has distinct voters after any vote |
| `PollSocket.SameAddressWithinWindow` | backend/src/sockets/pollSocket.js:26-42 | after an accepted vote from an address, a second voter's vote with the same poll id string from that address, at any clock reading less than 10 000 ms past the first (an earlier one included), is rate-limited and changes nothing; the same voter's repeat is "already voted" |
| `PollRoutes.FormatOptions` | backend/src/routes/pollRoutes.js:15-19 | one option per text, in order, with that text, the i-th fresh id and 0 votes |
| `PollRoutes.HandleCreate` | backend/src/routes/pollRoutes.js:8-28 | a missing or empty question, missing options or fewer than 2 options gives "Invalid poll data" and changes nothing; otherwise the created poll is stored under the new id and returned |
| `PollRoutes.CreatedPollShape` | backend/src/routes/pollRoutes.js:15-25 | a created poll is active with no voters; it has the question as sent and the options in order with their texts, fresh ids and 0 votes; its total is 0 and it passes schema validation |
| `PollRoutes.CreatedOptionIdsDistinct` | backend/src/routes/pollRoutes.js:15-19 | distinct fresh ids give distinct option ids |
| `PollRoutes.GetPoll` | backend/src/routes/pollRoutes.js:31-35 | returns the stored poll, or "Poll not found" exactly when the id is not stored |
| `PollRoutes.HandleClose` | backend/src/routes/pollRoutes.js:38-50 | the new store, the response and the broadcast are exactly those `Close` gives for the old store |
| `PollRoutes.CloseUnknown` | backend/src/routes/pollRoutes.js:39-40 | an unknown id gives "Poll not found", changes nothing and broadcasts nothing |
| `PollRoutes.CloseEffect` | backend/src/routes/pollRoutes.js:42-47 | the poll becomes inactive; its question, options, voters and creation time are unchanged; other polls are unchanged and none is reopened; the closed poll is broadcast to its room |
| `PollRoutes.CloseIdempotent` | backend/src/routes/pollRoutes.js:42-43 | closing twice leaves the same store as closing once |
| `PollRoutes.CloseAudience` | backend/src/routes/pollRoutes.js:38-50 | nothing is emitted for an unknown id; otherwise the closed poll reaches exactly the sockets that joined that poll's room |
| `Engine.CreatedPollWellFormed` | backend/src/routes/pollRoutes.js:15-25 | with distinct fresh ids, a created poll has distinct voters and distinct option ids, and its total equals its number of voters |
| `Engine.CreatePreservesInvariant` | backend/src/routes/pollRoutes.js:8-28 | with distinct fresh ids and an unused poll id, creating a poll keeps every stored poll consistent, adds exactly the new id and leaves every stored poll unchanged |
| `Engine.BumpKeepsIds` | backend/src/sockets/pollSocket.js:51 | raising a tally leaves every option id in place |
| `Engine.RecordVoteWellFormed` | backend/src/sockets/pollSocket.js:50-53 | recording a new voter's vote on an existing option keeps a consistent poll consistent |
| `Engine.VotePreservesInvariant` | backend/src/sockets/pollSocket.js:26-52 | every vote event keeps every stored poll consistent (distinct voters, distinct option ids, total = number of voters) |
| `Engine.ClosePreservesInvariant` | backend/src/routes/pollRoutes.js:42 | every close request keeps every stored poll consistent |
| `Engine.RunPreservesInvariant` | backend/src/sockets/pollSocket.js:11-61 | the store invariant holds after any sequence of vote and close events |
| `Engine.ClosedPollFrozen` | backend/src/sockets/pollSocket.js:21-24 | a closed poll stays stored and unchanged through any later sequence of events |
| `Engine.VoteTally` | backend/src/sockets/pollSocket.js:44-51 | one vote raises option k's tally by 1 exactly when it is accepted on that poll and names k's id; otherwise the tally stays; option ids do not change |
| `Engine.StepTally` | backend/src/sockets/pollSocket.js:44-51 | one event raises option k's tally by 1 exactly when it is an accepted vote on that poll naming k's id; otherwise the tally stays; option ids do not change |
| `Engine.TallyCountsAcceptedVotes` | backend/src/sockets/pollSocket.js:44-53 | after any run, each option's tally equals its earlier tally plus the number of accepted votes for its id |
| `Engine.TotalCountsAcceptedVotes` | backend/src/sockets/pollSocket.js:50-53 | after any run, a poll's total equals its earlier total plus the number of votes accepted on it (no lost update) |
| `CreatePollPage.TrimStart` | frontend/src/pages/CreatePoll.jsx:16 | the result is the input minus its leading run of white space |
| `CreatePollPage.TrimEnd` | frontend/src/pages/CreatePoll.jsx:16 | the result is the input minus its trailing run of white space |
| `CreatePollPage.TrimEmptyIffBlank` | frontend/src/pages/CreatePoll.jsx:16-18 | a text trims to "" exactly when every character is white space |
| `CreatePollPage.NonBlank` | frontend/src/pages/CreatePoll.jsx:16 | a text is kept exactly when it occurs in the input and does not trim to "" |
| `CreatePollPage.NonBlankAppend` | frontend/src/pages/CreatePoll.jsx:16 | the filter keeps order: filtering a concatenation gives the concatenation of the filtered parts |
| `CreatePollPage.HandleCreateDecides` | frontend/src/pages/CreatePoll.jsx:15-40 | a blank question is refused first, whatever the options; otherwise fewer than 2 non-blank options are refused; otherwise the untrimmed question is submitted with exactly the non-blank texts |
| `CreatePollPage.SubmissionAccepted` | frontend/src/pages/CreatePoll.jsx:48-52 | whatever the page submits passes the create route's guard and has no blank option; if the editor held at most 10 entries, the submission has 2 to 10 options |
| `CreatePollPage.DropIndexRemovesOne` | frontend/src/pages/CreatePoll.jsx:96 | filtering by index removes exactly the entry at an in-range index, and nothing otherwise |
| `CreatePollPage.AddOptionEffect` | frontend/src/pages/CreatePoll.jsx:79-92 | below 10 entries, one empty entry is appended; at 10, nothing changes; the 2..10 bounds are kept |
| `CreatePollPage.RemoveOptionEffect` | frontend/src/pages/CreatePoll.jsx:94-107 | above 2 entries, exactly entry i is deleted; otherwise nothing changes; the 2..10 bounds are kept |
| `CreatePollPage.EditOption` | frontend/src/pages/CreatePoll.jsx:181-185 | only entry i changes, it becomes the typed value, and the length is kept |
| `CreatePollPage.EditorStaysWithinBounds` | frontend/src/pages/CreatePoll.jsx:11-107 | from the initial two empty entries, any sequence of adds and removes keeps between 2 and 10 entries |
| `PollRoomPage.BumpMatchingAt` | frontend/src/pages/PollRoom.jsx:87-91 | every option with the chosen id gets +1 and every other option is unchanged |
| `PollRoomPage.HandleVoteEffect` | frontend/src/pages/PollRoom.jsx:78-98 | the click is a no-op when already voted or the poll is inactive; otherwise `voted` is set, the choice is remembered, the vote is sent, and the optimistic copy differs only in the chosen option's +1 |
| `PollRoomPage.BumpMatchingIsBump` | frontend/src/pages/PollRoom.jsx:87-91 | with distinct option ids, the client's map raises exactly the option the server's `find` picks |
| `PollRoomPage.OptimisticMatchesServer` | frontend/src/pages/PollRoom.jsx:85-92 | with distinct option ids, when the server accepts the vote the click sent, the page's optimistic options equal the server's broadcast options |
| `PollRoomPage.VotedNeverReset` | frontend/src/pages/PollRoom.jsx:44-58 | a snapshot makes `voted` true exactly when it was true already or the snapshot lists this voter; neither a snapshot nor a click resets it |
| `PollRoomPage.Percent` | frontend/src/pages/PollRoom.jsx:229-231 | the percent is 0 when the total is 0, at most 100 when votes do not exceed the total, and otherwise is votes/total × 100 rounded half up |

## Left out

- Concurrency. Each vote event, close request and create request is one atomic step. The handler loads the poll, checks it and saves it without any lock, so two concurrent votes can interleave between load and save. Those interleavings are not modelled.
- MongoDB and mongoose. The store is a map from poll id to record. A failing `findById` or `save` is the `Storage` parameter, and the handler's catch-all becomes the `ServerError` reason.
- Failures in the HTTP routes. In create, get and close, an exception from the database is not handled by the route. What follows depends on the Express version, which the repository does not pin. On Express 4 the async handler's rejection goes unhandled, and backend/src/server.js installs no handler for it. On Node 15 or later that ends the process, which also empties the limiter's in-memory map. On Express 5 a 500 response is sent. None of this is modelled.
- Id canonicalisation. `findById` maps differently spelled ids, such as hex digits in another case, to the same poll. The model treats the id as an opaque string, so it does not capture this. In the vote handler, the limiter key (backend/src/middleware/rateLimit.js:5) and the room emit (backend/src/sockets/pollSocket.js:56) use the raw string. A re-spelled id therefore gets a fresh 10-second window, and its broadcast goes to a room that no page joined. The close route broadcasts to `poll._id.toString()`, which is the canonical spelling.
- Socket.io delivery. Emits are returned as values; `Rooms.Recipients` says who they reach, and `VoteAudience` and `CloseAudience` relate that to the rooms joined. Leaving a room on disconnect is handled by the library, not by this code, and is not modelled.
- CreatePollPage.EditOption: accepts text of any length. The inputs' `maxLength` limits of 200 characters for the question (frontend/src/pages/CreatePoll.jsx:156) and 100 for each option (frontend/src/pages/CreatePoll.jsx:187) are browser input limits and are not modelled.
- `uuidv4`, `Date.now`, `localStorage` and the socket's handshake address. They are parameters.
- PollRoomPage.Percent: computed on exact fractions. `Math.round` on floating-point numbers can differ from that at exact halves.
- Toasts, animations, navigation, the share link, the loading and error screens, and the `creatorId` the create page sends (the create route ignores it).
- The 2..10 option limit exists only in the browser. The create route accepts any options array with at least 2 entries, including blank texts and more than 10 entries. The model follows the code here.
- The create route checks only that the question is non-empty. A question made only of spaces passes the route; the browser refuses it.
- JavaScript values of the wrong type in request bodies (a number as question, non-string option texts) are not modelled. Fields are strings or missing.
