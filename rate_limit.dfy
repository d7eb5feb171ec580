/**
 * The per-(poll, address) vote limiter (backend/src/middleware/rateLimit.js).
 * The limiter remembers, for every key, the time of the last vote it let
 * through; a vote less than `Window` milliseconds after that is refused and
 * leaves the memory as it was. Entries are never removed. The clock is a
 * parameter.
 */
module RateLimit {

  /** The window, in milliseconds. */
  const Window: int := 10_000

  /** The limiter's key, the string `${pollId}:${ip}`. */
  function Key(pollId: string, ip: string): string {
    pollId + ":" + ip
  }

  /** Whether a call is let through, and the limiter's memory afterwards. */
  datatype Decision = Decision(allowed: bool, tracker: map<string, int>)

  /** One call of the limiter for `key` at time `now`. */
  function Check(tracker: map<string, int>, key: string, now: int): Decision {
    if key in tracker && now - tracker[key] < Window then Decision(false, tracker)
    else Decision(true, tracker[key := now])
  }

  /** The limiter as the source keeps it: one map, updated in place. */
  class RateLimiter {
    var voteTracker: map<string, int>

    constructor()
      ensures voteTracker == map[]
    {
      voteTracker := map[];
    }

    /** `checkVoteRateLimit(pollId, ip)` with the clock reading `now`. */
    method CheckVoteRateLimit(pollId: string, ip: string, now: int) returns (allowed: bool)
      modifies this
      ensures Decision(allowed, voteTracker) == Check(old(voteTracker), Key(pollId, ip), now)
    {
      var key := Key(pollId, ip);
      if key in voteTracker {
        var lastVoteTime := voteTracker[key];
        if now - lastVoteTime < Window {
          return false;
        }
      }
      voteTracker := voteTracker[key := now];
      return true;
    }
  }

  /** The first call for a key is let through and records its time. */
  lemma FirstCallAdmitted(tracker: map<string, int>, key: string, now: int)
    requires key !in tracker
    ensures Check(tracker, key, now).allowed
    ensures Check(tracker, key, now).tracker == tracker[key := now]
  {
  }

  /** Inside the window the call is refused and the memory is left exactly as it was. */
  lemma RefusedInsideWindow(tracker: map<string, int>, key: string, now: int)
    requires key in tracker && now - tracker[key] < Window
    ensures !Check(tracker, key, now).allowed
    ensures Check(tracker, key, now).tracker == tracker
  {
  }

  /** Once the window has passed the call is let through and the stored time moves to `now`. */
  lemma AdmittedAfterWindow(tracker: map<string, int>, key: string, now: int)
    requires key in tracker && now - tracker[key] >= Window
    ensures Check(tracker, key, now).allowed
    ensures Check(tracker, key, now).tracker == tracker[key := now]
  {
  }

  /**
   * Whatever the call decides: no other key's entry changes, no entry
   * disappears, and a call that is let through leaves its own time stored.
   */
  lemma CheckFrame(tracker: map<string, int>, key: string, now: int)
    ensures var d := Check(tracker, key, now);
      && d.tracker.Keys == tracker.Keys + (if d.allowed then {key} else {})
      && (forall other :: other in tracker && other != key ==> d.tracker[other] == tracker[other])
      && (d.allowed ==> d.tracker[key] == now)
  {
  }

  /** The index of the first ':' in `s`, or |s| when there is none. */
  function FirstColon(s: string): (n: nat)
    ensures n <= |s|
    ensures forall i :: 0 <= i < n ==> s[i] != ':'
    ensures n < |s| ==> s[n] == ':'
  {
    if s == [] then 0 else if s[0] == ':' then 0 else 1 + FirstColon(s[1..])
  }

  /** Reads back the poll id and the address from a key. */
  function SplitKey(key: string): (string, string) {
    var n := FirstColon(key);
    if n < |key| then (key[..n], key[n + 1..]) else (key, "")
  }

  /** In a key built from a poll id without ':', the first ':' is the separator. */
  lemma {:induction false} FirstColonOfKey(pollId: string, ip: string)
    requires ':' !in pollId
    ensures FirstColon(Key(pollId, ip)) == |pollId|
  {
    if pollId != [] {
      assert Key(pollId, ip)[1..] == Key(pollId[1..], ip);
      FirstColonOfKey(pollId[1..], ip);
    }
  }

  /** A key built from a poll id without ':' reads back as the pair it was built from. */
  lemma SplitKeyRoundTrip(pollId: string, ip: string)
    requires ':' !in pollId
    ensures SplitKey(Key(pollId, ip)) == (pollId, ip)
  {
    FirstColonOfKey(pollId, ip);
    assert Key(pollId, ip)[..|pollId|] == pollId;
    assert Key(pollId, ip)[|pollId| + 1..] == ip;
  }

  /**
   * Hence keys built from poll ids without ':' are distinct for distinct
   * (poll, address) pairs, whatever the addresses contain.
   */
  lemma KeyInjective(p1: string, ip1: string, p2: string, ip2: string)
    requires ':' !in p1 && ':' !in p2
    requires Key(p1, ip1) == Key(p2, ip2)
    ensures p1 == p2 && ip1 == ip2
  {
    SplitKeyRoundTrip(p1, ip1);
    SplitKeyRoundTrip(p2, ip2);
  }

  /** With a ':' inside a poll id, two different pairs share one limiter entry. */
  lemma KeyCollision()
    ensures Key("a:", "b") == Key("a", ":b")
    ensures "a:" != "a"
  {
  }

  /** One call of the limiter: the pair it was called for and the clock reading. */
  datatype Call = Call(pollId: string, ip: string, now: int)

  /** Which calls of a sequence were let through, and the memory after all of them. */
  datatype Trace = Trace(admitted: seq<bool>, tracker: map<string, int>)

  function Replay(tracker: map<string, int>, calls: seq<Call>): (t: Trace)
    ensures |t.admitted| == |calls|
  {
    if calls == [] then Trace([], tracker)
    else
      var prev := Replay(tracker, calls[..|calls| - 1]);
      var c := calls[|calls| - 1];
      var d := Check(prev.tracker, Key(c.pollId, c.ip), c.now);
      Trace(prev.admitted + [d.allowed], d.tracker)
  }

  predicate ClockNonDecreasing(calls: seq<Call>) {
    forall i, j :: 0 <= i < j < |calls| ==> calls[i].now <= calls[j].now
  }

  predicate NoLaterThan(tracker: map<string, int>, t: int) {
    forall k :: k in tracker ==> tracker[k] <= t
  }

  /**
   * With a clock that never runs backwards, no stored time is later than the
   * latest call's time.
   */
  lemma {:induction false} StoredTimesNotAhead(tracker: map<string, int>, calls: seq<Call>, start: int)
    requires NoLaterThan(tracker, start)
    requires ClockNonDecreasing(calls)
    requires forall i :: 0 <= i < |calls| ==> start <= calls[i].now
    ensures NoLaterThan(Replay(tracker, calls).tracker, if calls == [] then start else calls[|calls| - 1].now)
  {
    if calls != [] {
      var n := |calls| - 1;
      var pre := calls[..n];
      StoredTimesNotAhead(tracker, pre, start);
      assert (if pre == [] then start else pre[|pre| - 1].now) <= calls[n].now;
    }
  }

  /**
   * Whatever the clock does, each call that was let through leaves its key
   * stored with a time no earlier than its own: a later admission for the
   * key stores a time at least `Window` past the stored one, and nothing
   * else touches it.
   */
  lemma {:induction false} AdmittedStoredNoEarlier(tracker: map<string, int>, calls: seq<Call>)
    ensures forall i :: 0 <= i < |calls| && Replay(tracker, calls).admitted[i] ==>
      var key := Key(calls[i].pollId, calls[i].ip);
      key in Replay(tracker, calls).tracker && Replay(tracker, calls).tracker[key] >= calls[i].now
  {
    if calls != [] {
      var n := |calls| - 1;
      var pre := calls[..n];
      AdmittedStoredNoEarlier(tracker, pre);
      var prev := Replay(tracker, pre);
      var t := Replay(tracker, calls);
      forall i | 0 <= i < |calls| && t.admitted[i]
        ensures Key(calls[i].pollId, calls[i].ip) in t.tracker
        ensures t.tracker[Key(calls[i].pollId, calls[i].ip)] >= calls[i].now
      {
        if i < n {
          assert pre[i] == calls[i];
          assert prev.admitted[i];
        }
      }
    }
  }

  /**
   * The limiter's guarantee, whatever the clock does: a call that is let
   * through comes at least `Window` after every earlier call for the same
   * pair that was let through. (Any two calls of a run are the last call and
   * an earlier one of some prefix of the run.)
   */
  lemma MinimumSpacing(tracker: map<string, int>, calls: seq<Call>, i: nat)
    requires i < |calls| - 1
    requires Key(calls[i].pollId, calls[i].ip) == Key(calls[|calls| - 1].pollId, calls[|calls| - 1].ip)
    requires Replay(tracker, calls).admitted[i] && Replay(tracker, calls).admitted[|calls| - 1]
    ensures calls[|calls| - 1].now - calls[i].now >= Window
  {
    var pre := calls[..|calls| - 1];
    AdmittedStoredNoEarlier(tracker, pre);
    assert pre[i] == calls[i];
  }
}
