/**
 * The socket handler for "vote" (backend/src/sockets/pollSocket.js): an
 * ordered chain of checks, each with its own error, then one update of the
 * stored poll and a broadcast of the whole updated poll to its room.
 *
 * `Vote` is the handler as a function of the store, the limiter's memory,
 * the request, the sender's address, the clock and the storage outcome;
 * `HandleVote` is the handler as the source writes it, over the store and
 * limiter objects, and is proved to do what `Vote` says.
 */
module PollSocket {
  import opened Wrappers
  import opened PollModel
  import RateLimit
  import opened Transport

  /** The payload of a "vote" event. */
  datatype VoteRequest = VoteRequest(pollId: string, optionId: string, voterId: string)

  /**
   * How the storage behaves during one event: `findById` may throw (an id it
   * cannot cast, a lost connection), or `save` may throw after the checks.
   */
  datatype Storage = Healthy | LoadFails | SaveFails

  datatype Reason = PollNotFound | PollClosed | AlreadyVoted | RateLimited | InvalidOption | ServerError

  /** The "vote_error" text sent for each reason. */
  function Message(r: Reason): string {
    match r
    case PollNotFound => "Poll not found"
    case PollClosed => "Poll is closed"
    case AlreadyVoted => "You already voted"
    case RateLimited => "Too many votes from this IP. Please wait."
    case InvalidOption => "Invalid option"
    case ServerError => "Server error"
  }

  datatype VoteOutcome = Accepted(poll: Poll) | Rejected(reason: Reason)

  /** The outcome of one vote event and the store and limiter memory after it. */
  datatype VoteStep = VoteStep(outcome: VoteOutcome, polls: map<string, Poll>, tracker: map<string, int>)

  /**
   * The poll after a vote is recorded (backend/src/sockets/pollSocket.js:51-52): the
   * option at index k gets one more vote and the voter is appended to the voters.
   */
  function RecordVote(poll: Poll, k: nat, voterId: string): Poll
    requires k < |poll.options|
  {
    poll.(options := Bump(poll.options, k), voters := poll.voters + [voterId])
  }

  /** One "vote" event, checks in the source's order. */
  function Vote(polls: map<string, Poll>, tracker: map<string, int>, req: VoteRequest,
                ip: string, now: int, storage: Storage): VoteStep
  {
    if storage == LoadFails then VoteStep(Rejected(ServerError), polls, tracker)
    else if req.pollId !in polls then VoteStep(Rejected(PollNotFound), polls, tracker)
    else
      var poll := polls[req.pollId];
      if !poll.isActive then VoteStep(Rejected(PollClosed), polls, tracker)
      else if req.voterId in poll.voters then VoteStep(Rejected(AlreadyVoted), polls, tracker)
      else
        var d := RateLimit.Check(tracker, RateLimit.Key(req.pollId, ip), now);
        if !d.allowed then VoteStep(Rejected(RateLimited), polls, tracker)
        else match FindOption(poll.options, req.optionId)
          case None => VoteStep(Rejected(InvalidOption), polls, d.tracker)
          case Some(k) =>
            var updated := RecordVote(poll, k, req.voterId);
            if storage == SaveFails then VoteStep(Rejected(ServerError), polls, d.tracker)
            else VoteStep(Accepted(updated), polls[req.pollId := updated], d.tracker)
  }

  /** The emit that ends the handler: a broadcast to the poll's room, or an error to the sender. */
  function EmissionOf(pollId: string, outcome: VoteOutcome): Emission {
    match outcome
    case Accepted(p) => ToRoom(pollId, PollUpdate(p))
    case Rejected(r) => ToSender(VoteError(Message(r)))
  }

  /** The "vote" handler over the shared store and the shared limiter. */
  method HandleVote(store: PollStore, limiter: RateLimit.RateLimiter, req: VoteRequest,
                    ip: string, now: int, storage: Storage) returns (out: Emission)
    modifies store, limiter
    ensures var step := Vote(old(store.polls), old(limiter.voteTracker), req, ip, now, storage);
      && store.polls == step.polls
      && limiter.voteTracker == step.tracker
      && out == EmissionOf(req.pollId, step.outcome)
  {
    if storage == LoadFails {
      return ToSender(VoteError(Message(ServerError)));
    }
    var found := store.FindById(req.pollId);
    if found.None? {
      return ToSender(VoteError(Message(PollNotFound)));
    }
    var poll := found.value;
    if !poll.isActive {
      return ToSender(VoteError(Message(PollClosed)));
    }
    if req.voterId in poll.voters {
      return ToSender(VoteError(Message(AlreadyVoted)));
    }
    var allowed := limiter.CheckVoteRateLimit(req.pollId, ip, now);
    if !allowed {
      return ToSender(VoteError(Message(RateLimited)));
    }
    var option := FindOption(poll.options, req.optionId);
    if option.None? {
      return ToSender(VoteError(Message(InvalidOption)));
    }
    var k := option.value;
    poll := poll.(options := poll.options[k := poll.options[k].(votes := poll.options[k].votes + 1)]);
    poll := poll.(voters := poll.voters + [req.voterId]);
    if storage == SaveFails {
      return ToSender(VoteError(Message(ServerError)));
    }
    store.Save(req.pollId, poll);
    out := ToRoom(req.pollId, PollUpdate(poll));
  }

  /** Each reason has its own message. */
  lemma MessagesDistinct(r1: Reason, r2: Reason)
    requires r1 != r2
    ensures Message(r1) != Message(r2)
  {
  }

  /**
   * The checks run in a fixed order and the first one that fails names the
   * reason: each outcome holds exactly when every earlier check passed and
   * its own failed.
   */
  lemma RejectionReasons(polls: map<string, Poll>, tracker: map<string, int>, req: VoteRequest,
                         ip: string, now: int, storage: Storage)
    ensures var o := Vote(polls, tracker, req, ip, now, storage).outcome;
      var found := storage != LoadFails && req.pollId in polls;
      var open := found && polls[req.pollId].isActive;
      var newVoter := open && req.voterId !in polls[req.pollId].voters;
      var admitted := newVoter && RateLimit.Check(tracker, RateLimit.Key(req.pollId, ip), now).allowed;
      var valid := admitted && FindOption(polls[req.pollId].options, req.optionId).Some?;
      && (o == Rejected(PollNotFound) <==> storage != LoadFails && !found)
      && (o == Rejected(PollClosed) <==> found && !open)
      && (o == Rejected(AlreadyVoted) <==> open && !newVoter)
      && (o == Rejected(RateLimited) <==> newVoter && !admitted)
      && (o == Rejected(InvalidOption) <==> admitted && !valid)
      && (o == Rejected(ServerError) <==> storage == LoadFails || (valid && storage == SaveFails))
      && (o.Accepted? <==> valid && storage == Healthy)
  {
  }

  /**
   * Every rejection before the limiter is consulted (storage failure on load,
   * unknown poll, closed poll, repeat voter) and a refusal by the limiter
   * leave both the store and the limiter's memory exactly as they were.
   */
  lemma EarlyRejectionChangesNothing(polls: map<string, Poll>, tracker: map<string, int>, req: VoteRequest,
                                     ip: string, now: int, storage: Storage)
    requires Vote(polls, tracker, req, ip, now, storage).outcome in
      {Rejected(PollNotFound), Rejected(PollClosed), Rejected(AlreadyVoted), Rejected(RateLimited)}
      || storage == LoadFails
    ensures Vote(polls, tracker, req, ip, now, storage).polls == polls
    ensures Vote(polls, tracker, req, ip, now, storage).tracker == tracker
  {
  }

  /**
   * An unknown option, and a save that fails after every check passed, leave
   * the store as it was, but the limiter has already recorded the vote: the
   * sender's budget for this poll is spent.
   */
  lemma LateRejectionSpendsBudget(polls: map<string, Poll>, tracker: map<string, int>, req: VoteRequest,
                                  ip: string, now: int, storage: Storage)
    requires storage != LoadFails
    requires Vote(polls, tracker, req, ip, now, storage).outcome in {Rejected(InvalidOption), Rejected(ServerError)}
    ensures Vote(polls, tracker, req, ip, now, storage).polls == polls
    ensures Vote(polls, tracker, req, ip, now, storage).tracker == tracker[RateLimit.Key(req.pollId, ip) := now]
  {
  }

  /**
   * An accepted vote raises the chosen option's tally by exactly one, leaves
   * every other option, the question, the open flag and the creation time as
   * they were, appends the voter, raises the poll's total by one, stores the
   * new poll under its id and nothing else, and records `now` in the limiter.
   */
  lemma AcceptedVoteEffect(polls: map<string, Poll>, tracker: map<string, int>, req: VoteRequest,
                           ip: string, now: int, storage: Storage)
    requires Vote(polls, tracker, req, ip, now, storage).outcome.Accepted?
    ensures req.pollId in polls
    ensures var old_ := polls[req.pollId];
      var step := Vote(polls, tracker, req, ip, now, storage);
      var new_ := step.outcome.poll;
      && FindOption(old_.options, req.optionId).Some?
      && var k := FindOption(old_.options, req.optionId).value;
      && |new_.options| == |old_.options|
      && new_.options[k].votes == old_.options[k].votes + 1
      && new_.options[k].optionId == old_.options[k].optionId
      && new_.options[k].text == old_.options[k].text
      && (forall j :: 0 <= j < |old_.options| && j != k ==> new_.options[j] == old_.options[j])
      && new_.voters == old_.voters + [req.voterId]
      && new_.question == old_.question
      && new_.isActive && old_.isActive
      && new_.createdAt == old_.createdAt
      && TotalVotes(new_.options) == TotalVotes(old_.options) + 1
      && step.polls == polls[req.pollId := new_]
      && step.tracker == tracker[RateLimit.Key(req.pollId, ip) := now]
  {
    var k := FindOption(polls[req.pollId].options, req.optionId).value;
    TotalVotesBump(polls[req.pollId].options, k);
  }

  /** An accepted vote found its option and stores the poll with that vote recorded. */
  lemma AcceptedRecordsVote(polls: map<string, Poll>, tracker: map<string, int>, req: VoteRequest,
                            ip: string, now: int, storage: Storage)
    requires Vote(polls, tracker, req, ip, now, storage).outcome.Accepted?
    ensures req.pollId in polls && FindOption(polls[req.pollId].options, req.optionId).Some?
    ensures req.voterId !in polls[req.pollId].voters
    ensures var k := FindOption(polls[req.pollId].options, req.optionId).value;
      var updated := RecordVote(polls[req.pollId], k, req.voterId);
      Vote(polls, tracker, req, ip, now, storage).polls == polls[req.pollId := updated]
  {
  }

  /**
   * A vote keeps the set of stored ids, and replaces at most one record:
   * the voted-on poll, and only when the vote is accepted.
   */
  lemma VoteFrame(polls: map<string, Poll>, tracker: map<string, int>, req: VoteRequest,
                  ip: string, now: int, storage: Storage)
    ensures var step := Vote(polls, tracker, req, ip, now, storage);
      && step.polls.Keys == polls.Keys
      && forall id :: id in polls && !(step.outcome.Accepted? && id == req.pollId) ==> step.polls[id] == polls[id]
  {
  }

  /**
   * Only an accepted vote is broadcast, to the room of its poll, and it
   * carries the whole updated poll; every rejection goes back to the sender
   * alone with its reason's message.
   */
  lemma BroadcastOnlyOnAcceptance(polls: map<string, Poll>, tracker: map<string, int>, req: VoteRequest,
                                  ip: string, now: int, storage: Storage)
    ensures var step := Vote(polls, tracker, req, ip, now, storage);
      var e := EmissionOf(req.pollId, step.outcome);
      && (e.ToRoom? <==> step.outcome.Accepted?)
      && (step.outcome.Accepted? ==> e == ToRoom(req.pollId, PollUpdate(step.polls[req.pollId])))
      && (step.outcome.Rejected? ==> e == ToSender(VoteError(Message(step.outcome.reason))))
  {
  }

  /**
   * Who hears the outcome of a vote sent by `sender`, given the rooms joined
   * so far (`Rooms.Join`): a socket receives it exactly when the vote was
   * accepted and the socket joined the room named by the request's poll id,
   * or the vote was rejected and the socket is the sender.
   */
  lemma VoteAudience(rooms: Rooms, sender: SocketId, socket: SocketId,
                     polls: map<string, Poll>, tracker: map<string, int>, req: VoteRequest,
                     ip: string, now: int, storage: Storage)
    ensures var outcome := Vote(polls, tracker, req, ip, now, storage).outcome;
      socket in rooms.Recipients(EmissionOf(req.pollId, outcome), sender) <==>
        (outcome.Accepted? && socket in rooms.Members(req.pollId)) || (outcome.Rejected? && socket == sender)
  {
  }

  /** A closed poll is never changed by a vote, on any poll id. */
  lemma ClosedPollUnchanged(polls: map<string, Poll>, tracker: map<string, int>, req: VoteRequest,
                            ip: string, now: int, storage: Storage, id: string)
    requires id in polls && !polls[id].isActive
    ensures var step := Vote(polls, tracker, req, ip, now, storage);
      id in step.polls && step.polls[id] == polls[id]
    ensures req.pollId == id ==> Vote(polls, tracker, req, ip, now, storage).tracker == tracker
  {
  }

  /** A vote never adds a voter id that is already listed. */
  lemma VotersStayDistinct(polls: map<string, Poll>, tracker: map<string, int>, req: VoteRequest,
                           ip: string, now: int, storage: Storage, id: string)
    requires id in polls && Distinct(polls[id].voters)
    ensures var step := Vote(polls, tracker, req, ip, now, storage);
      id in step.polls && Distinct(step.polls[id].voters)
  {
    var step := Vote(polls, tracker, req, ip, now, storage);
    if step.outcome.Accepted? && req.pollId == id {
      var vs := polls[id].voters;
      assert step.polls[id].voters == vs + [req.voterId];
      assert req.voterId !in vs;
      forall i, j | 0 <= i < j < |vs| + 1
        ensures (vs + [req.voterId])[i] != (vs + [req.voterId])[j]
      {
        if j == |vs| {
          assert vs[i] in vs;
        }
      }
    }
  }

  /**
   * The per-address limit applies across voters: once a vote from an address
   * has been accepted on a poll, a vote by a different voter from the same
   * address with the same poll id string, at any clock reading less than
   * `Window` past the first (an earlier reading included), is refused as rate
   * limited, and a repeat by the same voter is refused as a repeat.
   */
  lemma SameAddressWithinWindow(polls: map<string, Poll>, tracker: map<string, int>,
                                first: VoteRequest, second: VoteRequest, ip: string,
                                now1: int, now2: int, storage2: Storage)
    requires Vote(polls, tracker, first, ip, now1, Healthy).outcome.Accepted?
    requires second.pollId == first.pollId && storage2 != LoadFails
    requires now2 < now1 + RateLimit.Window
    ensures var step := Vote(polls, tracker, first, ip, now1, Healthy);
      var next := Vote(step.polls, step.tracker, second, ip, now2, storage2);
      && (second.voterId == first.voterId ==> next.outcome == Rejected(AlreadyVoted))
      && (second.voterId !in polls[first.pollId].voters && second.voterId != first.voterId ==>
            next.outcome == Rejected(RateLimited) && next.polls == step.polls)
  {
    var step := Vote(polls, tracker, first, ip, now1, Healthy);
    AcceptedVoteEffect(polls, tracker, first, ip, now1, Healthy);
    assert first.voterId in step.polls[first.pollId].voters;
  }
}
