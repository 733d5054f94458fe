/**
 * The filtering core of search_unsolved.py: the problems of the catalog, per
 * target rating, that none of the given users has submitted to.
 *
 * The fetches are parameters: `catalog` is what `problemset.problems`
 * returned (empty when the fetch failed), and `histories[u]` is what
 * `user.status` returned for the u-th handle (empty when that fetch failed).
 */
module SearchUnsolved {
  import opened Wrappers
  import opened Codeforces

  /** Per rating, the problems keyed by `(contestId, index)`. */
  type ByRating = map<int, map<Key, Problem>>

  /** A catalog problem belongs to the bucket of `rating`: its rating is `rating` and it has a contest. */
  predicate InBucket(p: Problem, rating: int) {
    p.rating == Some(rating) && p.contestId.Some?
  }

  /**
   * The dict built for one rating, `{(contestId, index): problem ...}`,
   * filled in catalog order: a later problem with the same key replaces an
   * earlier one.
   */
  function Bucket(catalog: seq<Problem>, rating: int): (m: map<Key, Problem>)
    ensures forall k :: k in m ==> InBucket(m[k], rating) && KeyOf(m[k]) == k && m[k] in catalog
    ensures forall i :: 0 <= i < |catalog| && InBucket(catalog[i], rating) ==> KeyOf(catalog[i]) in m
    decreases |catalog|
  {
    if catalog == [] then map[]
    else
      var m := Bucket(catalog[..|catalog| - 1], rating);
      var p := catalog[|catalog| - 1];
      if InBucket(p, rating) then m[KeyOf(p) := p] else m
  }

  /** Of several catalog entries with one key, the bucket keeps the last. */
  lemma {:induction false} BucketKeepsLastEntry(catalog: seq<Problem>, rating: int, i: nat)
    requires i < |catalog| && InBucket(catalog[i], rating)
    requires forall j :: i < j < |catalog| && InBucket(catalog[j], rating) ==> KeyOf(catalog[j]) != KeyOf(catalog[i])
    ensures KeyOf(catalog[i]) in Bucket(catalog, rating)
    ensures Bucket(catalog, rating)[KeyOf(catalog[i])] == catalog[i]
    decreases |catalog|
  {
    if i < |catalog| - 1 {
      var prefix := catalog[..|catalog| - 1];
      assert prefix[i] == catalog[i];
      BucketKeepsLastEntry(prefix, rating, i);
    }
  }

  /** `problems_by_rating`: one bucket per distinct target rating. */
  function ProblemsByRating(catalog: seq<Problem>, ratings: seq<int>): (byRating: ByRating)
    ensures byRating.Keys == set r | r in ratings
  {
    map r | r in ratings :: Bucket(catalog, r)
  }

  /** `unsolved_problems_by_rating`: each bucket without the keys in `solved`. */
  function RemoveSolved(byRating: ByRating, solved: set<Key>): (result: ByRating)
    ensures result.Keys == byRating.Keys
    ensures forall r, k :: r in result ==> (k in result[r] <==> k in byRating[r] && k !in solved)
    ensures forall r, k :: r in result && k in result[r] ==> k in byRating[r] && result[r][k] == byRating[r][k]
  {
    map r | r in byRating :: map k | k in byRating[r] && k !in solved :: byRating[r][k]
  }

  /**
   * What `get_unsolved_problems` returns once the solved set is known: the
   * empty mapping for an empty catalog, otherwise one bucket per target
   * rating holding only unsolved problems of that rating.
   */
  function UnsolvedProblems(catalog: seq<Problem>, solved: set<Key>, ratings: seq<int>): (result: ByRating)
    ensures |catalog| == 0 ==> result == map[]
    ensures |catalog| > 0 ==> result.Keys == set r | r in ratings
    ensures forall r, k :: r in result && k in result[r] ==>
      InBucket(result[r][k], r) && KeyOf(result[r][k]) == k && k !in solved && result[r][k] in catalog
  {
    if |catalog| == 0 then map[]
    else RemoveSolved(ProblemsByRating(catalog, ratings), solved)
  }

  /**
   * A submission marks its problem solved whatever its verdict, but only
   * when the embedded problem carries both `contestId` and `rating`.
   */
  predicate MarksSolved(s: Submission) {
    s.problem.contestId.Some? && s.problem.rating.Some?
  }

  predicate MarksKey(s: Submission, k: Key) {
    MarksSolved(s) && KeyOf(s.problem) == k
  }

  /** The keys one user's submissions add to the solved set, in submission order. */
  function HistoryKeys(h: seq<Submission>): set<Key>
  {
    if h == [] then {}
    else
      var s := h[|h| - 1];
      HistoryKeys(h[..|h| - 1]) + (if MarksSolved(s) then {KeyOf(s.problem)} else {})
  }

  /** The solved set after processing the users in order. */
  function SolvedKeys(histories: seq<seq<Submission>>): set<Key>
  {
    if histories == [] then {}
    else SolvedKeys(histories[..|histories| - 1]) + HistoryKeys(histories[|histories| - 1])
  }

  lemma {:induction false} HistoryKeysMembership(h: seq<Submission>, k: Key)
    ensures k in HistoryKeys(h) <==> exists j :: 0 <= j < |h| && MarksKey(h[j], k)
  {
    if h != [] {
      var prefix := h[..|h| - 1];
      HistoryKeysMembership(prefix, k);
      assert forall j :: 0 <= j < |prefix| ==> prefix[j] == h[j];
      if k in HistoryKeys(h) && k !in HistoryKeys(prefix) {
        assert MarksKey(h[|h| - 1], k);
      }
    }
  }

  /** The solved set holds exactly the keys of the submissions that mark a problem solved. */
  lemma {:induction false} SolvedKeysMembership(histories: seq<seq<Submission>>, k: Key)
    ensures k in SolvedKeys(histories) <==>
      exists u, j :: 0 <= u < |histories| && 0 <= j < |histories[u]| && MarksKey(histories[u][j], k)
  {
    if histories != [] {
      var prefix := histories[..|histories| - 1];
      var last := histories[|histories| - 1];
      SolvedKeysMembership(prefix, k);
      HistoryKeysMembership(last, k);
      assert forall u :: 0 <= u < |prefix| ==> prefix[u] == histories[u];
      if k in HistoryKeys(last) {
        var j :| 0 <= j < |last| && MarksKey(last[j], k);
        assert MarksKey(histories[|histories| - 1][j], k);
      }
      if exists u, j :: 0 <= u < |histories| && 0 <= j < |histories[u]| && MarksKey(histories[u][j], k) {
        var u, j :| 0 <= u < |histories| && 0 <= j < |histories[u]| && MarksKey(histories[u][j], k);
        if u == |histories| - 1 {
          assert MarksKey(last[j], k);
        } else {
          assert MarksKey(prefix[u][j], k);
        }
      }
    }
  }

  /**
   * `get_unsolved_problems` with its fetches as parameters: an empty catalog
   * returns the empty mapping before any user is looked at; otherwise the
   * solved set is accumulated user by user, submission by submission, and
   * removed from every rating's bucket.
   */
  method GetUnsolvedProblems(catalog: seq<Problem>, histories: seq<seq<Submission>>, ratings: seq<int>)
    returns (result: ByRating)
    ensures result == UnsolvedProblems(catalog, SolvedKeys(histories), ratings)
  {
    if |catalog| == 0 {
      return map[];
    }
    var byRating := ProblemsByRating(catalog, ratings);
    var solved: set<Key> := {};
    for u := 0 to |histories|
      invariant solved == SolvedKeys(histories[..u])
    {
      var submissions := histories[u];
      ghost var before := solved;
      for v := 0 to |submissions|
        invariant solved == before + HistoryKeys(submissions[..v])
      {
        var problem := submissions[v].problem;
        if problem.contestId.Some? && problem.rating.Some? {
          solved := solved + {Key(problem.contestId.value, problem.index)};
        }
        assert submissions[..v + 1][..v] == submissions[..v];
      }
      assert submissions[..|submissions|] == submissions;
      assert histories[..u + 1][..u] == histories[..u];
    }
    assert histories[..|histories|] == histories;
    result := RemoveSolved(byRating, solved);
  }

  /**
   * Completeness and soundness together: for a non-empty catalog and a
   * target rating `r`, a key is in the result's bucket for `r` exactly when
   * some catalog problem of rating `r` with a contest has that key and the
   * key is not solved.
   */
  lemma UnsolvedMembership(catalog: seq<Problem>, solved: set<Key>, ratings: seq<int>, r: int, k: Key)
    requires |catalog| > 0 && r in ratings
    ensures r in UnsolvedProblems(catalog, solved, ratings)
    ensures k in UnsolvedProblems(catalog, solved, ratings)[r] <==>
      k !in solved && exists i :: 0 <= i < |catalog| && InBucket(catalog[i], r) && KeyOf(catalog[i]) == k
  {
    var m := Bucket(catalog, r);
    if k in m {
      var i :| 0 <= i < |catalog| && catalog[i] == m[k];
      assert InBucket(catalog[i], r) && KeyOf(catalog[i]) == k;
    }
  }

  /** A target rating that no catalog problem with a contest carries gets an empty bucket, not an error. */
  lemma EmptyRatingGivesEmptyBucket(catalog: seq<Problem>, solved: set<Key>, ratings: seq<int>, r: int)
    requires |catalog| > 0 && r in ratings
    requires forall i :: 0 <= i < |catalog| ==> !InBucket(catalog[i], r)
    ensures r in UnsolvedProblems(catalog, solved, ratings)
    ensures UnsolvedProblems(catalog, solved, ratings)[r] == map[]
  {
  }

  /** A larger solved set can only remove problems from a bucket, never add or change one. */
  lemma MoreSolvedNeverAddsProblems(catalog: seq<Problem>, solved: set<Key>, solved': set<Key>, ratings: seq<int>)
    requires solved <= solved'
    ensures var before := UnsolvedProblems(catalog, solved, ratings);
      var after := UnsolvedProblems(catalog, solved', ratings);
      after.Keys == before.Keys &&
      forall r :: r in after ==>
        after[r].Keys <= before[r].Keys && (forall k :: k in after[r] ==> after[r][k] == before[r][k])
  {
  }

  /** `histories'` has every user of `histories`, in the same place, with possibly more submissions, and maybe more users. */
  predicate Extends(histories: seq<seq<Submission>>, histories': seq<seq<Submission>>) {
    |histories| <= |histories'| && forall u :: 0 <= u < |histories| ==> histories[u] <= histories'[u]
  }

  lemma SolvedKeysGrow(histories: seq<seq<Submission>>, histories': seq<seq<Submission>>)
    requires Extends(histories, histories')
    ensures SolvedKeys(histories) <= SolvedKeys(histories')
  {
    forall k | k in SolvedKeys(histories)
      ensures k in SolvedKeys(histories')
    {
      SolvedKeysMembership(histories, k);
      var u, j :| 0 <= u < |histories| && 0 <= j < |histories[u]| && MarksKey(histories[u][j], k);
      assert histories'[u][j] == histories[u][j];
      SolvedKeysMembership(histories', k);
    }
  }

  /**
   * Monotonicity: more users, or more submissions per user, can only shrink
   * each rating's list of unsolved problems.
   */
  lemma MoreSubmissionsNeverAddProblems(
    catalog: seq<Problem>, histories: seq<seq<Submission>>, histories': seq<seq<Submission>>, ratings: seq<int>)
    requires Extends(histories, histories')
    ensures var before := UnsolvedProblems(catalog, SolvedKeys(histories), ratings);
      var after := UnsolvedProblems(catalog, SolvedKeys(histories'), ratings);
      after.Keys == before.Keys &&
      forall r :: r in after ==>
        after[r].Keys <= before[r].Keys && (forall k :: k in after[r] ==> after[r][k] == before[r][k])
  {
    SolvedKeysGrow(histories, histories');
    MoreSolvedNeverAddsProblems(catalog, SolvedKeys(histories), SolvedKeys(histories'), ratings);
  }

  /** Appending one more user's history is a special case of the above. */
  lemma AddingUserNeverAddsProblems(
    catalog: seq<Problem>, histories: seq<seq<Submission>>, history: seq<Submission>, ratings: seq<int>)
    ensures var before := UnsolvedProblems(catalog, SolvedKeys(histories), ratings);
      var after := UnsolvedProblems(catalog, SolvedKeys(histories + [history]), ratings);
      after.Keys == before.Keys &&
      forall r :: r in after ==> after[r].Keys <= before[r].Keys
  {
    assert Extends(histories, histories + [history]);
    MoreSubmissionsNeverAddProblems(catalog, histories, histories + [history], ratings);
  }

  /** A submission whose problem lacks `rating` or `contestId` changes nothing in the result. */
  lemma UnmarkedSubmissionChangesNothing(
    catalog: seq<Problem>, histories: seq<seq<Submission>>, u: nat, s: Submission, ratings: seq<int>)
    requires u < |histories| && !MarksSolved(s)
    ensures UnsolvedProblems(catalog, SolvedKeys(histories[u := histories[u] + [s]]), ratings)
         == UnsolvedProblems(catalog, SolvedKeys(histories), ratings)
  {
    var histories' := histories[u := histories[u] + [s]];
    SolvedKeysGrow(histories, histories');
    forall k | k in SolvedKeys(histories')
      ensures k in SolvedKeys(histories)
    {
      SolvedKeysMembership(histories', k);
      var u', j :| 0 <= u' < |histories'| && 0 <= j < |histories'[u']| && MarksKey(histories'[u'][j], k);
      assert histories'[u'][j] == histories[u'][j];
      SolvedKeysMembership(histories, k);
    }
    assert SolvedKeys(histories') == SolvedKeys(histories);
  }

  /** Only the set of target ratings matters: repeating a rating yields one entry with the same bucket. */
  lemma RatingsActAsSet(catalog: seq<Problem>, solved: set<Key>, ratings: seq<int>, ratings': seq<int>)
    requires forall r :: r in ratings <==> r in ratings'
    ensures UnsolvedProblems(catalog, solved, ratings) == UnsolvedProblems(catalog, solved, ratings')
  {
    assert ProblemsByRating(catalog, ratings) == ProblemsByRating(catalog, ratings');
  }

  /** Every listed problem's link names the problem under which it is listed. */
  lemma UnsolvedLinksNameTheirProblem(catalog: seq<Problem>, solved: set<Key>, ratings: seq<int>, r: int, k: Key)
    requires r in UnsolvedProblems(catalog, solved, ratings)
    requires k in UnsolvedProblems(catalog, solved, ratings)[r]
    ensures ParseLink(LinkOf(UnsolvedProblems(catalog, solved, ratings)[r][k])) == Some(k)
  {
    LinkRoundTrip(k);
  }

  /**
   * Two problems of contest 1 rated 800 and 900, problem A solved: rating
   * 800 has nothing left and rating 900 keeps problem B.
   */
  lemma TwoRatingsScenario()
    ensures var a := Problem(Some(1), "A", Some(800), "", []);
      var b := Problem(Some(1), "B", Some(900), "", []);
      UnsolvedProblems([a, b], {Key(1, "A")}, [800, 900])
        == map[800 := map[], 900 := map[Key(1, "B") := b]]
  {
    var a := Problem(Some(1), "A", Some(800), "", []);
    var b := Problem(Some(1), "B", Some(900), "", []);
    assert [a, b][..1] == [a];
    assert Bucket([a, b], 800) == map[Key(1, "A") := a];
    assert Bucket([a, b], 900) == map[Key(1, "B") := b];
    var byRating := ProblemsByRating([a, b], [800, 900]);
    assert byRating == map[800 := map[Key(1, "A") := a], 900 := map[Key(1, "B") := b]];
    var result := RemoveSolved(byRating, {Key(1, "A")});
    assert result[800] == map[];
    assert result[900] == map[Key(1, "B") := b];
  }
}
