/**
 * The records the Codeforces API returns, as the two scripts read them,
 * and the spreadsheet link both scripts build for a problem.
 */
module Codeforces {
  import opened Wrappers
  import opened Text

  /**
   * A problem object of `problemset.problems` or embedded in a submission.
   * `contestId` and `rating` may be absent from the JSON; a missing `tags`
   * field is the empty list, as `problem.get('tags', [])` reads it.
   */
  datatype Problem = Problem(
    contestId: Option<int>,
    index: string,
    rating: Option<int>,
    name: string,
    tags: seq<string>)

  /** A submission object of `user.status`; only its `problem` is read. */
  datatype Submission = Submission(problem: Problem)

  /** A contest object of `contest.list`. */
  datatype Contest = Contest(id: int, name: string)

  /** The pair `(contestId, index)` that identifies a problem. */
  datatype Key = Key(contestId: int, index: string)

  function KeyOf(p: Problem): Key
    requires p.contestId.Some?
  {
    Key(p.contestId.value, p.index)
  }

  const LinkPrefix := "=HYPERLINK(\"https://codeforces.com/contest/"
  const LinkMiddle := "/problem/"
  const LinkSuffix := "\")"

  /** The spreadsheet formula that links to a problem's statement. */
  function ProblemLink(k: Key): string
  {
    LinkPrefix + IntToString(k.contestId) + LinkMiddle + k.index + LinkSuffix
  }

  /** The length of the integer that starts `s`: an optional '-' and a run of digits. */
  function IntTokenLength(s: string): (n: nat)
    ensures n <= |s|
  {
    if |s| > 0 && s[0] == '-' then 1 + DigitRun(s[1..]) else DigitRun(s)
  }

  /** The link of a problem that has a contest: built from its `contestId` and `index`. */
  function LinkOf(p: Problem): string
    requires p.contestId.Some?
  {
    ProblemLink(KeyOf(p))
  }

  /** Recovers the key a link formula names; None for text that is not such a formula. */
  function ParseLink(s: string): Option<Key>
  {
    if |s| < |LinkPrefix| || s[..|LinkPrefix|] != LinkPrefix then None
    else ParseContestAndIndex(s[|LinkPrefix|..])
  }

  /** Reads `<contestId>/problem/<index>")`. */
  function ParseContestAndIndex(rest: string): Option<Key>
  {
    var n := IntTokenLength(rest);
    match ParseInt(rest[..n])
    case None => None
    case Some(id) => ParseIndex(id, rest[n..])
  }

  /** Reads `/problem/<index>")`. */
  function ParseIndex(id: int, tail: string): Option<Key>
  {
    if |tail| < |LinkMiddle| + |LinkSuffix|
      || tail[..|LinkMiddle|] != LinkMiddle
      || tail[|tail| - |LinkSuffix|..] != LinkSuffix
    then None
    else Some(Key(id, tail[|LinkMiddle|..|tail| - |LinkSuffix|]))
  }

  lemma ParseIndexRoundTrip(id: int, index: string)
    ensures ParseIndex(id, LinkMiddle + index + LinkSuffix) == Some(Key(id, index))
  {
    var tail := LinkMiddle + index + LinkSuffix;
    assert tail[..|LinkMiddle|] == LinkMiddle;
    assert tail[|tail| - |LinkSuffix|..] == LinkSuffix;
    assert tail[|LinkMiddle|..|tail| - |LinkSuffix|] == index;
  }

  lemma IntTokenLengthOf(i: int, tail: string)
    requires |tail| > 0 && tail[0] == '/'
    ensures IntTokenLength(IntToString(i) + tail) == |IntToString(i)|
  {
    var id := IntToString(i);
    var rest := id + tail;
    if i < 0 {
      var d := NatToDecimal(-i);
      assert id == "-" + d;
      assert rest[1..] == d + tail;
      DigitRunStopsAfterDigits(d, tail);
    } else {
      DigitRunStopsAfterDigits(id, tail);
    }
  }

  /** A link names exactly one problem: the contest and index it was built from. */
  lemma LinkRoundTrip(k: Key)
    ensures ParseLink(ProblemLink(k)) == Some(k)
  {
    var id := IntToString(k.contestId);
    var tail := LinkMiddle + k.index + LinkSuffix;
    var rest := id + tail;
    var s := ProblemLink(k);
    assert s == LinkPrefix + rest;
    assert s[..|LinkPrefix|] == LinkPrefix && s[|LinkPrefix|..] == rest;
    IntTokenLengthOf(k.contestId, tail);
    assert rest[..|id|] == id && rest[|id|..] == tail;
    IntRoundTrip(k.contestId);
    ParseIndexRoundTrip(k.contestId, k.index);
  }
}
