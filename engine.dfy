/**
 * The backend as a whole: the store and the limiter's memory, changed by a
 * sequence of vote events and close requests. Here live the properties that
 * relate several operations: the consistency every stored poll keeps, that
 * a closed poll never changes again, and that each tally counts exactly the
 * accepted votes for its option.
 */
module Engine {
  import opened Wrappers
  import opened PollModel
  import RateLimit
  import opened PollSocket
  import opened PollRoutes

  /**
   * The consistency of a stored poll: no voter listed twice, no two options
   * sharing an id, and as many votes in the tallies as there are voters.
   */
  predicate WellFormed(p: Poll) {
    Distinct(p.voters) && DistinctOptionIds(p.options) && TotalVotes(p.options) == |p.voters|
  }

  predicate StoreInvariant(polls: map<string, Poll>) {
    forall id :: id in polls ==> WellFormed(polls[id])
  }

  /** A poll created with distinct fresh ids is consistent. */
  lemma CreatedPollWellFormed(body: CreateBody, ids: seq<string>, now: int)
    requires AcceptsCreate(body) && |ids| >= |body.options.value| && Distinct(ids)
    ensures WellFormed(CreatedPoll(body, ids, now))
  {
    CreatedPollShape(body, ids, now);
    CreatedOptionIdsDistinct(body.options.value, ids);
  }

  /**
   * The create route keeps every stored poll consistent: it adds one
   * consistent poll under an unused id and leaves the stored ones alone.
   */
  lemma CreatePreservesInvariant(polls: map<string, Poll>, body: CreateBody, ids: seq<string>,
                                 pollId: string, now: int)
    requires StoreInvariant(polls) && pollId !in polls
    requires AcceptsCreate(body) && |ids| >= |body.options.value| && Distinct(ids)
    ensures var after := polls[pollId := CreatedPoll(body, ids, now)];
      && StoreInvariant(after)
      && after.Keys == polls.Keys + {pollId}
      && forall id :: id in polls ==> after[id] == polls[id]
  {
    CreatedPollWellFormed(body, ids, now);
  }

  /** Raising a tally keeps every option id where it was. */
  lemma BumpKeepsIds(options: seq<PollOption>, k: nat)
    requires k < |options|
    ensures OptionIds(Bump(options, k)) == OptionIds(options)
  {
  }

  /** Recording a vote by a new voter keeps a poll consistent. */
  lemma RecordVoteWellFormed(p: Poll, k: nat, voterId: string)
    requires WellFormed(p) && k < |p.options| && voterId !in p.voters
    ensures WellFormed(RecordVote(p, k, voterId))
  {
    TotalVotesBump(p.options, k);
    BumpKeepsIds(p.options, k);
    var vs := p.voters + [voterId];
    forall i, j | 0 <= i < j < |vs| ensures vs[i] != vs[j] {
      if j == |p.voters| {
        assert vs[i] == p.voters[i];
      }
    }
  }

  /** A vote event keeps every stored poll consistent. */
  lemma VotePreservesInvariant(polls: map<string, Poll>, tracker: map<string, int>, req: VoteRequest,
                               ip: string, now: int, storage: Storage)
    requires StoreInvariant(polls)
    ensures StoreInvariant(Vote(polls, tracker, req, ip, now, storage).polls)
  {
    var step := Vote(polls, tracker, req, ip, now, storage);
    VoteFrame(polls, tracker, req, ip, now, storage);
    if step.outcome.Accepted? {
      AcceptedRecordsVote(polls, tracker, req, ip, now, storage);
      var k := FindOption(polls[req.pollId].options, req.optionId).value;
      RecordVoteWellFormed(polls[req.pollId], k, req.voterId);
    }
  }

  /** A close request keeps every stored poll consistent. */
  lemma ClosePreservesInvariant(polls: map<string, Poll>, id: string)
    requires StoreInvariant(polls)
    ensures StoreInvariant(Close(polls, id).polls)
  {
  }

  /** The inputs the backend reacts to once polls exist. */
  datatype Event =
    | CastVote(req: VoteRequest, ip: string, now: int, storage: Storage)
    | ClosePoll(pollId: string)

  datatype Server = Server(polls: map<string, Poll>, tracker: map<string, int>)

  function Step(s: Server, e: Event): Server {
    match e
    case CastVote(req, ip, now, storage) =>
      var v := Vote(s.polls, s.tracker, req, ip, now, storage);
      Server(v.polls, v.tracker)
    case ClosePoll(id) => Server(Close(s.polls, id).polls, s.tracker)
  }

  /** The events handled one at a time, in order. */
  function Run(s: Server, es: seq<Event>): Server {
    if es == [] then s else Step(Run(s, es[..|es| - 1]), es[|es| - 1])
  }

  /** Event e, handled in state s, is a vote accepted on poll `pollId`. */
  predicate AcceptedOn(s: Server, e: Event, pollId: string) {
    && e.CastVote? && e.req.pollId == pollId
    && Vote(s.polls, s.tracker, e.req, e.ip, e.now, e.storage).outcome.Accepted?
  }

  /** How many events of the run were accepted votes on `pollId` for option `optionId`. */
  function CountAccepted(s: Server, es: seq<Event>, pollId: string, optionId: string): nat {
    if es == [] then 0
    else
      var n := |es| - 1;
      CountAccepted(s, es[..n], pollId, optionId)
        + (if AcceptedOn(Run(s, es[..n]), es[n], pollId) && es[n].req.optionId == optionId then 1 else 0)
  }

  /** How many events of the run were accepted votes on `pollId`. */
  function CountAcceptedOn(s: Server, es: seq<Event>, pollId: string): nat {
    if es == [] then 0
    else
      var n := |es| - 1;
      CountAcceptedOn(s, es[..n], pollId) + (if AcceptedOn(Run(s, es[..n]), es[n], pollId) then 1 else 0)
  }

  /** Every stored poll stays consistent over any run. */
  lemma {:induction false} RunPreservesInvariant(s: Server, es: seq<Event>)
    requires StoreInvariant(s.polls)
    ensures StoreInvariant(Run(s, es).polls)
  {
    if es != [] {
      var n := |es| - 1;
      var mid := Run(s, es[..n]);
      RunPreservesInvariant(s, es[..n]);
      match es[n]
      case CastVote(req, ip, now, storage) =>
        VotePreservesInvariant(mid.polls, mid.tracker, req, ip, now, storage);
      case ClosePoll(id) =>
        ClosePreservesInvariant(mid.polls, id);
    }
  }

  /** A poll that is closed stays in the store, unchanged, whatever events follow. */
  lemma {:induction false} ClosedPollFrozen(s: Server, es: seq<Event>, pollId: string)
    requires pollId in s.polls && !s.polls[pollId].isActive
    ensures pollId in Run(s, es).polls && Run(s, es).polls[pollId] == s.polls[pollId]
  {
    if es != [] {
      var n := |es| - 1;
      var mid := Run(s, es[..n]);
      ClosedPollFrozen(s, es[..n], pollId);
      match es[n]
      case CastVote(req, ip, now, storage) =>
        ClosedPollUnchanged(mid.polls, mid.tracker, req, ip, now, storage, pollId);
      case ClosePoll(id) =>
    }
  }

  /**
   * One vote event, seen from one stored poll: the poll stays, its option
   * ids stay, and its tally at index k rises by one exactly when the vote is
   * accepted on that poll and names that option's id, and otherwise stays.
   */
  lemma VoteTally(polls: map<string, Poll>, tracker: map<string, int>, req: VoteRequest,
                  ip: string, now: int, storage: Storage, pollId: string, k: nat)
    requires pollId in polls && DistinctOptionIds(polls[pollId].options)
    requires k < |polls[pollId].options|
    ensures var v := Vote(polls, tracker, req, ip, now, storage);
      var before := polls[pollId].options;
      && pollId in v.polls
      && OptionIds(v.polls[pollId].options) == OptionIds(before)
      && v.polls[pollId].options[k].votes ==
           before[k].votes + (if v.outcome.Accepted? && req.pollId == pollId && req.optionId == before[k].optionId then 1 else 0)
  {
    var before := polls[pollId].options;
    var v := Vote(polls, tracker, req, ip, now, storage);
    VoteFrame(polls, tracker, req, ip, now, storage);
    if v.outcome.Accepted? && req.pollId == pollId {
      AcceptedRecordsVote(polls, tracker, req, ip, now, storage);
      var j := FindOption(before, req.optionId).value;
      assert v.polls[pollId].options == Bump(before, j);
      BumpKeepsIds(before, j);
      if req.optionId == before[k].optionId {
        assert OptionIds(before)[j] == OptionIds(before)[k];
      }
    }
  }

  /** The same for any event: a close request never changes a tally. */
  lemma StepTally(s: Server, e: Event, pollId: string, k: nat)
    requires pollId in s.polls && DistinctOptionIds(s.polls[pollId].options)
    requires k < |s.polls[pollId].options|
    ensures var t := Step(s, e);
      var before := s.polls[pollId].options;
      && pollId in t.polls
      && OptionIds(t.polls[pollId].options) == OptionIds(before)
      && t.polls[pollId].options[k].votes ==
           before[k].votes + (if AcceptedOn(s, e, pollId) && e.req.optionId == before[k].optionId then 1 else 0)
  {
    match e
    case ClosePoll(id) =>
    case CastVote(req, ip, now, storage) =>
      VoteTally(s.polls, s.tracker, req, ip, now, storage, pollId, k);
  }

  /**
   * Each tally counts exactly the accepted votes for its option: after any
   * run, the votes of option k of a poll whose option ids are distinct equal
   * its votes before plus the number of accepted votes on that poll naming
   * that option's id.
   */
  lemma {:induction false} TallyCountsAcceptedVotes(s: Server, es: seq<Event>, pollId: string, k: nat)
    requires pollId in s.polls && DistinctOptionIds(s.polls[pollId].options)
    requires k < |s.polls[pollId].options|
    ensures pollId in Run(s, es).polls
    ensures OptionIds(Run(s, es).polls[pollId].options) == OptionIds(s.polls[pollId].options)
    ensures Run(s, es).polls[pollId].options[k].votes ==
      s.polls[pollId].options[k].votes + CountAccepted(s, es, pollId, s.polls[pollId].options[k].optionId)
  {
    if es != [] {
      var n := |es| - 1;
      var mid := Run(s, es[..n]);
      TallyCountsAcceptedVotes(s, es[..n], pollId, k);
      assert OptionIds(mid.polls[pollId].options)[k] == OptionIds(s.polls[pollId].options)[k];
      StepTally(mid, es[n], pollId, k);
    }
  }

  /**
   * No vote is lost: after any run, a poll's total equals its total before
   * plus the number of votes accepted on it.
   */
  lemma {:induction false} TotalCountsAcceptedVotes(s: Server, es: seq<Event>, pollId: string)
    requires pollId in s.polls
    ensures pollId in Run(s, es).polls
    ensures TotalVotes(Run(s, es).polls[pollId].options) ==
      TotalVotes(s.polls[pollId].options) + CountAcceptedOn(s, es, pollId)
  {
    if es != [] {
      var n := |es| - 1;
      var mid := Run(s, es[..n]);
      TotalCountsAcceptedVotes(s, es[..n], pollId);
      match es[n]
      case ClosePoll(id) =>
      case CastVote(req, ip, now, storage) =>
        VoteFrame(mid.polls, mid.tracker, req, ip, now, storage);
        if AcceptedOn(mid, es[n], pollId) {
          AcceptedRecordsVote(mid.polls, mid.tracker, req, ip, now, storage);
          TotalVotesBump(mid.polls[pollId].options, FindOption(mid.polls[pollId].options, req.optionId).value);
        }
    }
  }
}
