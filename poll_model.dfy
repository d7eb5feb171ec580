/**
 * The poll record (backend/src/models/Poll.js) and the collection that holds
 * the records. A poll is a value; the collection is an object whose map of
 * records the route and socket handlers read and overwrite.
 */
module PollModel {
  import opened Wrappers

  /** One element of a poll's `options` array. */
  datatype PollOption = PollOption(optionId: string, text: string, votes: nat)

  /** A poll record as stored and as broadcast (the snapshot). */
  datatype Poll = Poll(
    question: string,
    options: seq<PollOption>,
    voters: seq<string>,
    isActive: bool,
    createdAt: int)

  /** An option record whose `votes` field takes the schema default. */
  function NewOption(optionId: string, text: string): PollOption {
    PollOption(optionId, text, 0)
  }

  /** A poll record whose `isActive` and `createdAt` fields take the schema defaults. */
  function NewPoll(question: string, options: seq<PollOption>, voters: seq<string>, now: int): Poll {
    Poll(question, options, voters, true, now)
  }

  /**
   * The schema's validation on save: `question` is required, and a required
   * string is refused when it is empty. `options` is required too; every
   * sequence value is present, so that part holds of every record here.
   */
  predicate PassesSchema(p: Poll) {
    p.question != ""
  }

  /**
   * The schema's defaults: a new option has no votes, a new poll is open and
   * stamped with the creation time, and a record passes validation exactly
   * when its question is not empty.
   */
  lemma SchemaDefaults(optionId: string, text: string, question: string,
                       options: seq<PollOption>, voters: seq<string>, now: int)
    ensures NewOption(optionId, text).votes == 0
    ensures NewPoll(question, options, voters, now).isActive
    ensures NewPoll(question, options, voters, now).createdAt == now
    ensures PassesSchema(NewPoll(question, options, voters, now)) <==> question != ""
  {
  }

  predicate Distinct<T(==)>(s: seq<T>) {
    forall i, j :: 0 <= i < j < |s| ==> s[i] != s[j]
  }

  function OptionIds(options: seq<PollOption>): (ids: seq<string>)
    ensures |ids| == |options|
    ensures forall i :: 0 <= i < |options| ==> ids[i] == options[i].optionId
  {
    if options == [] then [] else [options[0].optionId] + OptionIds(options[1..])
  }

  /** No two options of the poll share an id. */
  predicate DistinctOptionIds(options: seq<PollOption>) {
    Distinct(OptionIds(options))
  }

  /**
   * The option lookup of the vote handler (backend/src/sockets/pollSocket.js:44),
   * as an index: the FIRST option carrying the id, or None when no option does.
   */
  function FindOption(options: seq<PollOption>, id: string): (r: Option<nat>)
    ensures r.Some? ==> r.value < |options| && options[r.value].optionId == id
    ensures r.Some? ==> forall j :: 0 <= j < r.value ==> options[j].optionId != id
    ensures r.None? <==> forall j :: 0 <= j < |options| ==> options[j].optionId != id
  {
    if options == [] then None
    else if options[0].optionId == id then Some(0)
    else match FindOption(options[1..], id)
      case None => None
      case Some(k) => Some(k + 1)
  }

  /** The sum of the tallies, folded from the left as the room page does (frontend/src/pages/PollRoom.jsx:176). */
  function TotalVotes(options: seq<PollOption>): nat {
    if options == [] then 0 else TotalVotes(options[..|options| - 1]) + options[|options| - 1].votes
  }

  /** The options with the tally at index k raised by one. */
  function Bump(options: seq<PollOption>, k: nat): seq<PollOption>
    requires k < |options|
  {
    options[k := options[k].(votes := options[k].votes + 1)]
  }

  lemma {:induction false} TotalVotesAppend(a: seq<PollOption>, b: seq<PollOption>)
    ensures TotalVotes(a + b) == TotalVotes(a) + TotalVotes(b)
    decreases |b|
  {
    if b == [] {
      assert a + b == a;
    } else {
      var n := |b| - 1;
      assert (a + b)[..|a + b| - 1] == a + b[..n];
      TotalVotesAppend(a, b[..n]);
    }
  }

  /** Raising one tally by one raises the total by exactly one. */
  lemma {:induction false} TotalVotesBump(options: seq<PollOption>, k: nat)
    requires k < |options|
    ensures TotalVotes(Bump(options, k)) == TotalVotes(options) + 1
  {
    var pre, post := options[..k], options[k + 1..];
    assert options == pre + [options[k]] + post;
    assert Bump(options, k) == pre + [options[k].(votes := options[k].votes + 1)] + post;
    TotalVotesAppend(pre + [options[k]], post);
    TotalVotesAppend(pre, [options[k]]);
    TotalVotesAppend(pre + [options[k].(votes := options[k].votes + 1)], post);
    TotalVotesAppend(pre, [options[k].(votes := options[k].votes + 1)]);
    assert [options[k]][..0] == [];
    assert [options[k].(votes := options[k].votes + 1)][..0] == [];
  }

  /** A list of freshly built options (every tally 0) has total 0. */
  lemma {:induction false} TotalVotesOfZeros(options: seq<PollOption>)
    requires forall i :: 0 <= i < |options| ==> options[i].votes == 0
    ensures TotalVotes(options) == 0
  {
    if options != [] {
      TotalVotesOfZeros(options[..|options| - 1]);
    }
  }

  /**
   * The poll collection: the map from poll id to the stored record. Loading
   * and saving are a lookup and an overwrite of one entry.
   */
  class PollStore {
    var polls: map<string, Poll>

    constructor()
      ensures polls == map[]
    {
      polls := map[];
    }

    /** `Poll.findById(id)`: the stored record, or None when no record has the id. */
    function FindById(id: string): (r: Option<Poll>)
      reads this
      ensures r.Some? <==> id in polls
      ensures r.Some? ==> r.value == polls[id]
    {
      if id in polls then Some(polls[id]) else None
    }

    /** `poll.save()` / `Poll.create(...)`: the record under `id` becomes `p`. */
    method Save(id: string, p: Poll)
      modifies this
      ensures polls == old(polls)[id := p]
    {
      polls := polls[id := p];
    }
  }
}
