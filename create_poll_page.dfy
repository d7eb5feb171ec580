/**
 * The create-poll page (frontend/src/pages/CreatePoll.jsx): the editable
 * list of option texts, bounded between two and ten entries, and the
 * validation that decides what is submitted to the create route.
 */
module CreatePollPage {
  import opened Wrappers
  import PollRoutes

  /** The characters `String.prototype.trim` removes: white space and line terminators. */
  predicate IsWhitespace(c: char) {
    || c == '\t' || c == '\U{B}' || c == '\U{C}' || c == ' ' || c == '\U{A0}' || c == '\U{FEFF}'
    || c == '\U{1680}' || ('\U{2000}' <= c <= '\U{200A}') || c == '\U{202F}' || c == '\U{205F}' || c == '\U{3000}'
    || c == '\n' || c == '\r' || c == '\U{2028}' || c == '\U{2029}'
  }

  predicate IsBlank(s: string) {
    forall i :: 0 <= i < |s| ==> IsWhitespace(s[i])
  }

  /** `s` without its leading white space. */
  function TrimStart(s: string): (r: string)
    ensures |r| <= |s| && r == s[|s| - |r|..]
    ensures IsBlank(s[..|s| - |r|])
    ensures r == [] || !IsWhitespace(r[0])
  {
    if s != [] && IsWhitespace(s[0]) then TrimStart(s[1..]) else s
  }

  /** `s` without its trailing white space. */
  function TrimEnd(s: string): (r: string)
    ensures |r| <= |s| && r == s[..|r|]
    ensures IsBlank(s[|r|..])
    ensures r == [] || !IsWhitespace(r[|r| - 1])
  {
    if s != [] && IsWhitespace(s[|s| - 1]) then TrimEnd(s[..|s| - 1]) else s
  }

  /** `s.trim()`. */
  function Trim(s: string): string {
    TrimEnd(TrimStart(s))
  }

  /** A text trims to the empty string exactly when it is all white space. */
  lemma TrimEmptyIffBlank(s: string)
    ensures Trim(s) == "" <==> IsBlank(s)
  {
    var t := TrimStart(s);
    if t != [] {
      assert !IsBlank(t) by { assert !IsWhitespace(t[0]); }
      assert !IsBlank(s) by { assert t[0] == s[|s| - |t|]; }
    } else {
      assert s[..|s|] == s;
    }
  }

  /** The entries whose trimmed text is non-empty, in order (frontend/src/pages/CreatePoll.jsx:16). */
  function NonBlank(options: seq<string>): (r: seq<string>)
    ensures |r| <= |options|
    ensures forall x :: x in r <==> x in options && Trim(x) != ""
  {
    if options == [] then []
    else (if Trim(options[0]) != "" then [options[0]] else []) + NonBlank(options[1..])
  }

  /** The filter keeps order: filtering a concatenation concatenates the filtered parts. */
  lemma {:induction false} NonBlankAppend(a: seq<string>, b: seq<string>)
    ensures NonBlank(a + b) == NonBlank(a) + NonBlank(b)
  {
    if a != [] {
      assert (a + b)[0] == a[0];
      assert (a + b)[1..] == a[1..] + b;
      NonBlankAppend(a[1..], b);
      var head := if Trim(a[0]) != "" then [a[0]] else [];
      assert NonBlank(a + b) == head + NonBlank(a[1..] + b);
      assert NonBlank(a) == head + NonBlank(a[1..]);
    } else {
      assert a + b == b;
    }
  }

  /** What pressing "Create Poll" does. */
  datatype CreateAttempt =
    | MissingQuestion                                // "Please enter a poll question"
    | TooFewOptions                                  // "Add at least 2 options"
    | Submit(question: string, options: seq<string>) // the body sent to the create route

  function HandleCreate(question: string, options: seq<string>): CreateAttempt {
    var valid := NonBlank(options);
    if Trim(question) == "" then MissingQuestion
    else if |valid| < 2 then TooFewOptions
    else Submit(question, valid)
  }

  /**
   * The question is checked first: a blank question is refused whatever the
   * options; otherwise fewer than two non-blank options are refused; and
   * what is submitted is the question as typed (untrimmed) with exactly the
   * non-blank option texts, as typed and in their order.
   */
  lemma HandleCreateDecides(question: string, options: seq<string>)
    ensures HandleCreate(question, options) == MissingQuestion <==> IsBlank(question)
    ensures HandleCreate(question, options) == TooFewOptions <==>
      !IsBlank(question) && |NonBlank(options)| < 2
    ensures HandleCreate(question, options).Submit? ==>
      HandleCreate(question, options) == Submit(question, NonBlank(options))
  {
    TrimEmptyIffBlank(question);
  }

  /**
   * Whatever the page submits passes the create route's guard, and when
   * the editor held between two and ten entries the submission has between
   * two and ten options, none of them blank.
   */
  lemma SubmissionAccepted(question: string, options: seq<string>)
    requires HandleCreate(question, options).Submit?
    ensures var s := HandleCreate(question, options);
      && PollRoutes.AcceptsCreate(PollRoutes.CreateBody(Some(s.question), Some(s.options)))
      && (forall i :: 0 <= i < |s.options| ==> !IsBlank(s.options[i]))
      && (|options| <= 10 ==> 2 <= |s.options| <= 10)
  {
    TrimEmptyIffBlank(question);
    var s := HandleCreate(question, options);
    forall i | 0 <= i < |s.options| ensures !IsBlank(s.options[i]) {
      assert s.options[i] in NonBlank(options);
      TrimEmptyIffBlank(s.options[i]);
    }
  }

  const MinOptions: nat := 2
  const MaxOptions: nat := 10

  /** The editor starts with two empty entries. */
  const InitialOptions: seq<string> := ["", ""]

  predicate WithinBounds(options: seq<string>) {
    MinOptions <= |options| <= MaxOptions
  }

  /** `addOption`: one more empty entry, unless the list is full. */
  function AddOption(options: seq<string>): seq<string> {
    if |options| < MaxOptions then options + [""] else options
  }

  /** Every entry except the one at position `index`, in order (frontend/src/pages/CreatePoll.jsx:96). */
  function DropIndex(options: seq<string>, index: int): seq<string> {
    if options == [] then []
    else (if index == 0 then [] else [options[0]]) + DropIndex(options[1..], index - 1)
  }

  /** `removeOption(index)`: the entry at `index` goes, unless only two are left. */
  function RemoveOption(options: seq<string>, index: int): seq<string> {
    if |options| > MinOptions then DropIndex(options, index) else options
  }

  /** The index filter removes exactly the entry at an index in range, and nothing otherwise. */
  lemma {:induction false} DropIndexRemovesOne(options: seq<string>, index: int)
    ensures 0 <= index < |options| ==> DropIndex(options, index) == options[..index] + options[index + 1..]
    ensures !(0 <= index < |options|) ==> DropIndex(options, index) == options
  {
    if options != [] {
      DropIndexRemovesOne(options[1..], index - 1);
      if 0 < index < |options| {
        assert options[1..][..index - 1] == options[1..index];
        assert options[1..][index..] == options[index + 1..];
        assert options == [options[0]] + options[1..];
      } else if index == 0 {
        assert options[index + 1..] == options[1..];
      } else {
        assert options == [options[0]] + options[1..];
      }
    }
  }

  /**
   * Adding appends one empty entry when there are fewer than ten and
   * otherwise changes nothing; the entries already there are untouched.
   */
  lemma AddOptionEffect(options: seq<string>)
    ensures |options| < MaxOptions ==> AddOption(options) == options + [""]
    ensures |options| >= MaxOptions ==> AddOption(options) == options
    ensures WithinBounds(options) ==> WithinBounds(AddOption(options))
  {
  }

  /**
   * Removing deletes exactly the entry at the index when there are more
   * than two, and otherwise changes nothing; the bounds are kept.
   */
  lemma RemoveOptionEffect(options: seq<string>, index: nat)
    requires index < |options|
    ensures |options| > MinOptions ==> RemoveOption(options, index) == options[..index] + options[index + 1..]
    ensures |options| <= MinOptions ==> RemoveOption(options, index) == options
    ensures WithinBounds(options) ==> WithinBounds(RemoveOption(options, index))
  {
    DropIndexRemovesOne(options, index);
  }

  /**
   * The edit handler: copy the list into a fresh array, overwrite entry i,
   * and make the copy the new list. Only entry i changes.
   */
  method EditOption(options: seq<string>, i: nat, value: string) returns (r: seq<string>)
    requires i < |options|
    ensures |r| == |options| && r[i] == value
    ensures forall j :: 0 <= j < |options| && j != i ==> r[j] == options[j]
  {
    var copy := new string[|options|](k requires 0 <= k < |options| => options[k]);
    copy[i] := value;
    r := copy[..];
  }

  /** The list-changing buttons. Edits keep the length (see EditOption). */
  datatype ListAction = Add | Remove(index: int)

  function ApplyActions(options: seq<string>, actions: seq<ListAction>): seq<string> {
    if actions == [] then options
    else
      var prev := ApplyActions(options, actions[..|actions| - 1]);
      match actions[|actions| - 1]
      case Add => AddOption(prev)
      case Remove(index) => RemoveOption(prev, index)
  }

  /** From the initial two entries, no sequence of adds and removes leaves the bounds. */
  lemma {:induction false} EditorStaysWithinBounds(actions: seq<ListAction>)
    ensures WithinBounds(ApplyActions(InitialOptions, actions))
  {
    if actions != [] {
      var prev := ApplyActions(InitialOptions, actions[..|actions| - 1]);
      EditorStaysWithinBounds(actions[..|actions| - 1]);
      match actions[|actions| - 1]
      case Add =>
      case Remove(index) =>
        DropIndexRemovesOne(prev, index);
    }
  }
}
