/**
 * The poll page (frontend/src/pages/PollRoom.jsx): the client's copy of a
 * poll, whether this device has voted, the vote button's optimistic update,
 * and the figures shown for each option.
 */
module PollRoomPage {
  import opened Wrappers
  import opened PollModel
  import PollSocket

  /** The page's state once loading has started. */
  datatype RoomView = RoomView(poll: Option<Poll>, voted: bool, selectedOption: Option<string>)

  const InitialView: RoomView := RoomView(None, false, None)

  /**
   * A snapshot arrives, from the initial load or a "poll_update": it replaces
   * the page's copy, and the page counts as voted once this device's voter id
   * is listed. Nothing sets `voted` back to false.
   */
  function OnSnapshot(v: RoomView, snapshot: Poll, voterId: string): RoomView {
    v.(poll := Some(snapshot), voted := v.voted || voterId in snapshot.voters)
  }

  /** `!voted && poll.isActive`: whether the option buttons are enabled. */
  predicate CanVote(v: RoomView)
    requires v.poll.Some?
  {
    !v.voted && v.poll.value.isActive
  }

  /**
   * The optimistic update (frontend/src/pages/PollRoom.jsx:87-91): every option
   * whose id is the chosen one gets one more vote, the others stay as they were.
   */
  function BumpMatching(options: seq<PollOption>, optionId: string): seq<PollOption> {
    if options == [] then []
    else
      [if options[0].optionId == optionId then options[0].(votes := options[0].votes + 1) else options[0]]
        + BumpMatching(options[1..], optionId)
  }

  /** The click's result: the new page state and the "vote" event sent, if any. */
  datatype Click = Click(view: RoomView, sent: Option<PollSocket.VoteRequest>)

  /** `handleVote(optionId)` on the page for poll `pollId`, this device being `voterId`. */
  function HandleVote(v: RoomView, pollId: string, voterId: string, optionId: string): Click
    requires v.poll.Some?
  {
    if v.voted || !v.poll.value.isActive then Click(v, None)
    else
      var p := v.poll.value;
      Click(RoomView(Some(p.(options := BumpMatching(p.options, optionId))), true, Some(optionId)),
            Some(PollSocket.VoteRequest(pollId, optionId, voterId)))
  }

  /** The map raises by one every option carrying the id and leaves the others as they were. */
  lemma {:induction false} BumpMatchingAt(options: seq<PollOption>, optionId: string)
    ensures |BumpMatching(options, optionId)| == |options|
    ensures forall i :: 0 <= i < |options| ==>
      BumpMatching(options, optionId)[i] ==
        if options[i].optionId == optionId then options[i].(votes := options[i].votes + 1) else options[i]
  {
    if options != [] {
      BumpMatchingAt(options[1..], optionId);
    }
  }

  /**
   * A click does nothing unless the buttons are enabled. Otherwise the page
   * remembers the choice, counts as voted, sends the vote, and shows the
   * chosen option one vote higher, every other option and every other field
   * of the poll being left as it was.
   */
  lemma HandleVoteEffect(v: RoomView, pollId: string, voterId: string, optionId: string)
    requires v.poll.Some?
    ensures !CanVote(v) ==> HandleVote(v, pollId, voterId, optionId) == Click(v, None)
    ensures CanVote(v) ==>
      var c := HandleVote(v, pollId, voterId, optionId);
      var before := v.poll.value;
      && c.view.voted
      && c.view.selectedOption == Some(optionId)
      && c.sent == Some(PollSocket.VoteRequest(pollId, optionId, voterId))
      && c.view.poll.Some?
      && var after := c.view.poll.value;
      && after.question == before.question && after.voters == before.voters
      && after.isActive == before.isActive && after.createdAt == before.createdAt
      && |after.options| == |before.options|
      && (forall i :: 0 <= i < |before.options| ==>
            after.options[i].votes ==
              before.options[i].votes + (if before.options[i].optionId == optionId then 1 else 0))
      && (forall i :: 0 <= i < |before.options| ==>
            after.options[i].optionId == before.options[i].optionId && after.options[i].text == before.options[i].text)
  {
    BumpMatchingAt(v.poll.value.options, optionId);
  }

  /** With distinct option ids, the map raises exactly the option `find` would pick. */
  lemma BumpMatchingIsBump(options: seq<PollOption>, optionId: string)
    requires DistinctOptionIds(options)
    ensures FindOption(options, optionId).None? ==> BumpMatching(options, optionId) == options
    ensures FindOption(options, optionId).Some? ==>
      BumpMatching(options, optionId) == Bump(options, FindOption(options, optionId).value)
  {
    BumpMatchingAt(options, optionId);
    var r := BumpMatching(options, optionId);
    var ids := OptionIds(options);
    match FindOption(options, optionId)
    case None =>
      assert forall i :: 0 <= i < |options| ==> r[i] == options[i];
    case Some(k) =>
      var b := Bump(options, k);
      forall i | 0 <= i < |options| ensures r[i] == b[i] {
        if i != k {
          assert ids[i] != ids[k];
        }
      }
  }

  /**
   * The optimistic copy agrees with the server: when the page held the
   * stored poll and the server accepts the vote the click sent, the options
   * the page shows are exactly the options the server broadcasts.
   */
  lemma OptimisticMatchesServer(polls: map<string, Poll>, tracker: map<string, int>, v: RoomView,
                                pollId: string, voterId: string, optionId: string,
                                ip: string, now: int, storage: PollSocket.Storage)
    requires pollId in polls && v.poll == Some(polls[pollId]) && CanVote(v)
    requires DistinctOptionIds(polls[pollId].options)
    requires PollSocket.Vote(polls, tracker, PollSocket.VoteRequest(pollId, optionId, voterId), ip, now, storage).outcome.Accepted?
    ensures var c := HandleVote(v, pollId, voterId, optionId);
      var server := PollSocket.Vote(polls, tracker, c.sent.value, ip, now, storage).outcome.poll;
      c.view.poll.value.options == server.options
  {
    BumpMatchingIsBump(polls[pollId].options, optionId);
  }

  /**
   * Once the page counts as voted it stays so, through snapshots and clicks;
   * and a snapshot listing this device's voter id makes it voted.
   */
  lemma VotedNeverReset(v: RoomView, snapshot: Poll, voterId: string, pollId: string, optionId: string)
    ensures v.voted ==> OnSnapshot(v, snapshot, voterId).voted
    ensures voterId in snapshot.voters ==> OnSnapshot(v, snapshot, voterId).voted
    ensures !v.voted && voterId !in snapshot.voters ==> !OnSnapshot(v, snapshot, voterId).voted
    ensures OnSnapshot(v, snapshot, voterId).poll == Some(snapshot)
    ensures v.poll.Some? && v.voted ==> HandleVote(v, pollId, voterId, optionId).view.voted
  {
  }

  /**
   * An option's share of the votes as a whole percentage, rounded to the nearest
   * integer with halves going up, or 0 when nothing has been voted
   * (frontend/src/pages/PollRoom.jsx:229-231); computed on exact fractions.
   */
  function Percent(votes: nat, total: nat): (p: nat)
    ensures total == 0 ==> p == 0
    ensures votes <= total ==> p <= 100
    ensures total > 0 ==> 2 * total * p <= 200 * votes + total < 2 * total * (p + 1)
  {
    if total == 0 then 0 else
      var p := (200 * votes + total) / (2 * total);
      RoundedShare(votes, total, p);
      p
  }

  /** The quotient's bounds, stated apart so that the arithmetic stays linear in `p`. */
  lemma RoundedShare(votes: nat, total: nat, p: nat)
    requires total > 0 && p == (200 * votes + total) / (2 * total)
    ensures 2 * total * p <= 200 * votes + total < 2 * total * (p + 1)
    ensures votes <= total ==> p <= 100
  {
    var n, d := 200 * votes + total, 2 * total;
    assert n == d * p + n % d && 0 <= n % d < d;
    if votes <= total {
      if p > 100 {
        assert d * p >= d * 101 by { MulMonotone(d, 101, p); }
        assert false;
      }
    }
  }

  lemma MulMonotone(d: nat, a: nat, b: nat)
    requires a <= b
    ensures d * a <= d * b
  {
  }
}
