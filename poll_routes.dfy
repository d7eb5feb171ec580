/**
 * The poll HTTP routes (backend/src/routes/pollRoutes.js): create a poll
 * from a question and option texts, fetch a poll, and close a poll (which
 * also broadcasts the closed poll to its room).
 */
module PollRoutes {
  import opened Wrappers
  import opened PollModel
  import opened Transport

  /** The JSON body of a create request; a field the client left out is None. */
  datatype CreateBody = CreateBody(question: Option<string>, options: Option<seq<string>>)

  datatype CreateResponse =
    | BadRequest(message: string)         // 400
    | Created(pollId: string, poll: Poll) // 201, the stored poll

  /** The route's guard: a non-empty question and an options array of at least two entries. */
  predicate AcceptsCreate(body: CreateBody) {
    && body.question.Some? && body.question.value != ""
    && body.options.Some? && |body.options.value| >= 2
  }

  /**
   * The stored options built from the submitted texts (backend/src/routes/pollRoutes.js:15-19):
   * one option per text, in order, with no votes and the i-th fresh id `ids[i]`.
   */
  function FormatOptions(texts: seq<string>, ids: seq<string>): (r: seq<PollOption>)
    requires |ids| >= |texts|
    ensures |r| == |texts|
    ensures forall i :: 0 <= i < |texts| ==>
      r[i].optionId == ids[i] && r[i].text == texts[i] && r[i].votes == 0
  {
    if texts == [] then [] else [NewOption(ids[0], texts[0])] + FormatOptions(texts[1..], ids[1..])
  }

  /** The record handed to `Poll.create` for an accepted body. */
  function CreatedPoll(body: CreateBody, ids: seq<string>, now: int): Poll
    requires AcceptsCreate(body) && |ids| >= |body.options.value|
  {
    NewPoll(body.question.value, FormatOptions(body.options.value, ids), [], now)
  }

  /**
   * The create route. `ids` are the values `uuidv4` returns, `pollId` the
   * id the database assigns (not yet in use) and `now` the clock reading.
   */
  method HandleCreate(store: PollStore, body: CreateBody, ids: seq<string>, pollId: string, now: int)
    returns (resp: CreateResponse)
    requires pollId !in store.polls
    requires body.options.Some? ==> |ids| >= |body.options.value|
    modifies store
    ensures !AcceptsCreate(body) ==> resp == BadRequest("Invalid poll data") && store.polls == old(store.polls)
    ensures AcceptsCreate(body) ==>
      && resp == Created(pollId, CreatedPoll(body, ids, now))
      && store.polls == old(store.polls)[pollId := resp.poll]
  {
    if body.question.None? || body.question.value == "" || body.options.None? || |body.options.value| < 2 {
      return BadRequest("Invalid poll data");
    }
    var formattedOptions := FormatOptions(body.options.value, ids);
    var poll := NewPoll(body.question.value, formattedOptions, [], now);
    store.Save(pollId, poll);
    return Created(pollId, poll);
  }

  /**
   * A created poll is open, has no voters, carries the question as sent, has
   * one option per text in the same order with that text, the i-th fresh id
   * and no votes, totals zero votes and passes the schema's validation.
   */
  lemma CreatedPollShape(body: CreateBody, ids: seq<string>, now: int)
    requires AcceptsCreate(body) && |ids| >= |body.options.value|
    ensures var p := CreatedPoll(body, ids, now);
      var texts := body.options.value;
      && p.isActive
      && p.voters == []
      && p.question == body.question.value
      && p.createdAt == now
      && |p.options| == |texts|
      && (forall i :: 0 <= i < |texts| ==>
            p.options[i] == PollOption(ids[i], texts[i], 0))
      && TotalVotes(p.options) == 0
      && PassesSchema(p)
  {
    TotalVotesOfZeros(CreatedPoll(body, ids, now).options);
  }

  /** With distinct fresh ids, the created options have distinct ids. */
  lemma CreatedOptionIdsDistinct(texts: seq<string>, ids: seq<string>)
    requires |ids| >= |texts| && Distinct(ids)
    ensures DistinctOptionIds(FormatOptions(texts, ids))
  {
    var ois := OptionIds(FormatOptions(texts, ids));
    forall i, j | 0 <= i < j < |ois| ensures ois[i] != ois[j] {
      assert ois[i] == ids[i] && ois[j] == ids[j];
    }
  }

  datatype GetResponse =
    | Found(poll: Poll)         // 200
    | NotFound(message: string) // 404

  /** The get route: the stored poll, or "Poll not found" when the id is unknown. */
  function GetPoll(store: PollStore, id: string): (r: GetResponse)
    reads store
    ensures r.Found? <==> id in store.polls
    ensures r.Found? ==> r.poll == store.polls[id]
    ensures r.NotFound? ==> r.message == "Poll not found"
  {
    match store.FindById(id)
    case Some(p) => Found(p)
    case None => NotFound("Poll not found")
  }

  datatype CloseResponse =
    | CloseNotFound(message: string) // 404
    | Closed(message: string)        // 200

  /** The response, the store and the broadcast (if any) after a close request. */
  datatype CloseStep = CloseStep(response: CloseResponse, polls: map<string, Poll>, emission: Option<Emission>)

  /** The close route as a function of the store. */
  function Close(polls: map<string, Poll>, id: string): CloseStep {
    if id !in polls then CloseStep(CloseNotFound("Poll not found"), polls, None)
    else
      var p := polls[id].(isActive := false);
      CloseStep(Closed("Poll closed"), polls[id := p], Some(ToRoom(id, PollUpdate(p))))
  }

  /** The close route over the shared store. */
  method HandleClose(store: PollStore, id: string) returns (resp: CloseResponse, out: Option<Emission>)
    modifies store
    ensures var step := Close(old(store.polls), id);
      store.polls == step.polls && resp == step.response && out == step.emission
  {
    var found := store.FindById(id);
    if found.None? {
      return CloseNotFound("Poll not found"), None;
    }
    var poll := found.value;
    poll := poll.(isActive := false);
    store.Save(id, poll);
    return Closed("Poll closed"), Some(ToRoom(id, PollUpdate(poll)));
  }

  /** Closing an unknown id answers "Poll not found", changes nothing and broadcasts nothing. */
  lemma CloseUnknown(polls: map<string, Poll>, id: string)
    requires id !in polls
    ensures Close(polls, id) == CloseStep(CloseNotFound("Poll not found"), polls, None)
  {
  }

  /**
   * Closing a known id makes that poll inactive, keeps its question,
   * options, voters and creation time, leaves every other poll alone,
   * reopens nothing, and broadcasts the closed poll to its room.
   */
  lemma CloseEffect(polls: map<string, Poll>, id: string)
    requires id in polls
    ensures var step := Close(polls, id);
      && step.response == Closed("Poll closed")
      && step.polls.Keys == polls.Keys
      && !step.polls[id].isActive
      && step.polls[id].question == polls[id].question
      && step.polls[id].options == polls[id].options
      && step.polls[id].voters == polls[id].voters
      && step.polls[id].createdAt == polls[id].createdAt
      && (forall other :: other in polls && other != id ==> step.polls[other] == polls[other])
      && (forall other :: other in polls && step.polls[other].isActive ==> polls[other].isActive)
      && step.emission == Some(ToRoom(id, PollUpdate(step.polls[id])))
  {
  }

  /** Closing twice leaves the store as closing once does. */
  lemma CloseIdempotent(polls: map<string, Poll>, id: string)
    ensures Close(Close(polls, id).polls, id).polls == Close(polls, id).polls
  {
  }

  /**
   * Who hears a close request: nothing is emitted for an unknown id, and
   * otherwise the update reaches exactly the sockets that joined the poll's
   * room (`Rooms.Join`), whoever sent the request.
   */
  lemma CloseAudience(rooms: Rooms, sender: SocketId, socket: SocketId, polls: map<string, Poll>, id: string)
    ensures Close(polls, id).emission.Some? <==> id in polls
    ensures Close(polls, id).emission.Some? ==>
      (socket in rooms.Recipients(Close(polls, id).emission.value, sender) <==> socket in rooms.Members(id))
  {
  }
}
