# CF_ProblemFetcher, filtering core

Two scripts fetch data from the Codeforces API, filter it in memory and write
spreadsheets. This project models the in-memory filtering between the fetches
and the spreadsheet writes, and proves what it computes.

- `search_unsolved.py`: per target rating, the catalog problems that none of
  the given users has ever submitted to (module `SearchUnsolved`).
- `search_contest_probs.py`: contests grouped by the division named in their
  title, catalog problems grouped by those contests, and the rows of each
  division's sheet (module `SearchContestProbs`).

Supporting modules: `Codeforces` holds the API records, the problem key
`(contestId, index)` and the `=HYPERLINK(...)` formula both scripts write.
`Text` holds the Python string operations the scripts use: `str()` of an
int, `sub in s` and `", ".join(...)`. `Wrappers` holds `Option`.

Fetched data is passed in as parameters. `catalog` is what
`problemset.problems` returned, and it is empty when that fetch failed.
`histories[u]` is what `user.status` returned for the u-th handle, and it is
empty when that fetch failed. In `SearchContestProbs` a fetch is an
`Option`: `None` means the request failed or the API answered with a non-OK
status. In that case the two fetch-and-filter functions return `None` where
the script returns `[]`.

A dict built by a comprehension is modelled as a left fold over the list, so
a later entry with the same key replaces an earlier one, as in Python. The
lemmas `BucketKeepsLastEntry` and `DivisionContestsKeepLast` state this. A
bucket of unsolved problems is a `map` from key to problem, so each key
occurs in a bucket at most once.

Tags are a `seq`, because the code joins them in list order
(search_contest_probs.py:51).

## Model

| member | source | states |
|---|---|---|
| `SearchUnsolved.Bucket` | search_unsolved.py:41-45 | every problem in a rating's dict has that rating and a contest and sits under its own `(contestId, index)` key; every such catalog problem's key is present |
| `SearchUnsolved.BucketKeepsLastEntry` | search_unsolved.py:42-45 | when several catalog problems share a key, the dict keeps the last of them |
| `SearchUnsolved.ProblemsByRating` | search_unsolved.py:41-47 | one bucket per distinct target rating, so a duplicated rating gives one entry |
| `SearchUnsolved.RemoveSolved` | search_unsolved.py:57-63 | each bucket keeps exactly the keys not in the solved set, each with its original problem |
| `SearchUnsolved.UnsolvedProblems` | search_unsolved.py:35-64 | an empty catalog gives the empty mapping; otherwise the keys are the target ratings, and every listed problem has that rating and a contest, is unsolved and comes from the catalog |
| `SearchUnsolved.HistoryKeysMembership` | search_unsolved.py:52-55 | one user's submissions add exactly the keys of those submissions whose problem has both `contestId` and `rating` |
| `SearchUnsolved.SolvedKeysMembership` | search_unsolved.py:49-55 | the solved set holds exactly the keys of the submissions of all users whose problem has both `contestId` and `rating` |
| `SearchUnsolved.GetUnsolvedProblems` | search_unsolved.py:35-64 | returns early on an empty catalog; its nested loop over users and submissions builds the solved set, and the result equals `UnsolvedProblems` of that set |
| `SearchUnsolved.UnsolvedMembership` | search_unsolved.py:41-63 | soundness and completeness: a key is listed under rating r exactly when a catalog problem of rating r with a contest has it and it is unsolved |
| `SearchUnsolved.EmptyRatingGivesEmptyBucket` | search_unsolved.py:41-62 | a target rating that no catalog problem carries maps to an empty bucket |
| `SearchUnsolved.MoreSolvedNeverAddsProblems` | search_unsolved.py:57-61 | a larger solved set can only remove problems from a bucket, never add or change one |
| `SearchUnsolved.SolvedKeysGrow` | search_unsolved.py:49-55 | more users, or more submissions per user, never remove a key from the solved set |
| `SearchUnsolved.MoreSubmissionsNeverAddProblems` | search_unsolved.py:49-61 | monotonicity: more users or more submissions can only shrink each rating's unsolved list |
| `SearchUnsolved.AddingUserNeverAddsProblems` | search_unsolved.py:50-55 | appending one more user's history keeps the ratings and can only shrink each bucket |
| `SearchUnsolved.UnmarkedSubmissionChangesNothing` | search_unsolved.py:53-55 | a submission whose problem lacks `rating` or `contestId` leaves the result unchanged |
| `SearchUnsolved.RatingsActAsSet` | search_unsolved.py:41-47 | only the set of target ratings matters, so repeating or reordering ratings gives the same result |
| `SearchUnsolved.UnsolvedLinksNameTheirProblem` | search_unsolved.py:73 | the link written for a listed problem names exactly the key it is listed under (the f-string at that line nests `'` quotes, which Python accepts from version 3.12 on) |
| `SearchUnsolved.TwoRatingsScenario` | search_unsolved.py:35-64 | catalog 1A (rated 800) and 1B (rated 900), with 1A solved: rating 800 has no problems left and rating 900 keeps 1B |
| `SearchContestProbs.DivisionContests` | search_contest_probs.py:31 | a contest id is present when some contest with that id has `Div. <d>` in its name; each entry is such a contest's name |
| `SearchContestProbs.DivisionContestsKeepLast` | search_contest_probs.py:31 | when several contests of the division share an id, the last one's name is kept |
| `SearchContestProbs.GetContests` | search_contest_probs.py:22-37 | a failed fetch gives the failure value; otherwise the keys are exactly the requested divisions, and an id is under division d exactly when a contest with that id names `Div. <d>`, mapped to the name of a contest with that id in division d; each division's entry is `DivisionContests`, so `DivisionContestsKeepLast` fixes it as the last such contest |
| `SearchContestProbs.CombinedRoundInBothDivisions` | search_contest_probs.py:31 | divisions are tested independently, so a "Div. 1 + Div. 2" round appears under both |
| `SearchContestProbs.SelectByContest` | search_contest_probs.py:14 | keeps exactly the catalog problems whose contest is selected, and is never longer than the catalog |
| `SearchContestProbs.SelectByContestAppend` | search_contest_probs.py:14 | selection keeps catalog order: selecting from `a + b` gives the selection from `a` followed by the selection from `b` |
| `SearchContestProbs.SelectByContestKeepsAll` | search_contest_probs.py:14 | when every problem's contest is selected, the catalog comes back unchanged |
| `SearchContestProbs.FetchProblemsByDiv` | search_contest_probs.py:5-20 | a failed fetch gives the failure value; otherwise there is one entry per division of the contest map, holding exactly the catalog problems of that division's contests in catalog order |
| `SearchContestProbs.RowOf` | search_contest_probs.py:46-53 | a row takes the contest name or `'Unknown Contest'`, the problem name, and the rating or `'Unrated'`; no tags give the empty string |
| `SearchContestProbs.RowLinkNamesProblem` | search_contest_probs.py:52 | a row's link names exactly the problem's contest and index |
| `SearchContestProbs.RowTagsReadBack` | search_contest_probs.py:51 | the tags cell, split at `", "`, gives back the problem's tags when none holds a comma |
| `SearchContestProbs.RowsForDivision` | search_contest_probs.py:44-53 | the appending loop yields one row per problem, in the same order |
| `SearchContestProbs.BuildSheets` | search_contest_probs.py:39-55 | one sheet per division, in the dict's key order, each holding that division's rows |
| `Text.Contains` | search_contest_probs.py:31 | `sub in s` holds exactly when `sub` occurs at some position of `s` |
| `Text.IntRoundTrip` | search_contest_probs.py:52 | the decimal text written for a contest id reads back as that id |
| `Text.JoinTagsRoundTrip` | search_contest_probs.py:51 | tags joined with `", "` split back into the same list when no tag holds a comma, except for the single empty tag |
| `Codeforces.LinkRoundTrip` | search_contest_probs.py:52 | the `=HYPERLINK(...)` formula determines the contest id and index it was built from |

## Left out

- HTTP requests, `raise_for_status`, `response.json()` and the `time.sleep(0.5)` rate-limit pauses (search_unsolved.py:5-33, search_contest_probs.py:7-11, 24-28). These are network I/O. Their results are parameters, and a failure is an empty list or `None`.
- The `print` diagnostics on failure. They have no effect on the results.
- pandas `ExcelWriter`, `DataFrame`, `to_excel`, the sheet names and the `'points'` column drop (search_unsolved.py:66-74, search_contest_probs.py:41, 54-55). These are a foreign library and file output. Only the rows and links are modelled.
- `main` in both scripts. It holds only the hard-coded handles, ratings and divisions.
- The order of problems inside a bucket of `get_unsolved_problems`. Python gives dict insertion order; a bucket here is a map, so no order is promised.
- GetContests: reading `data['result']` before the status check raises `KeyError` when a non-OK answer has no result (search_contest_probs.py:29). The model treats every non-OK answer as the failure value.
- FetchProblemsByDiv: `problem['contestId']` is read unguarded (search_contest_probs.py:14). This is a precondition whenever there is a division to test, and is not modelled as an exception.
- Fields of the API records that the filtering never reads, such as `points`, `type`, verdicts and submission times. The sheet of search_unsolved.py:70 writes every problem field and drops `points` (lines 71-72); that output is not modelled. Solved means ever submitted, as in the code.
- FetchProblemsByDiv: on failure `get_contests` returns the list `[]`, not a dict (search_contest_probs.py:37). When the problemset fetch succeeds, `contests_by_div.items()` at search_contest_probs.py:14 then raises `AttributeError`, which the `except requests.RequestException` does not catch. The model takes a map here, so it cannot represent that input; the failure value `None` of `GetContests` is kept distinct instead.
- BuildSheets: on failure `fetch_problems_by_div` returns the list `[]` (search_contest_probs.py:20), and `problems_by_div.items()` at search_contest_probs.py:42 raises `AttributeError`. The model takes a map here, so it cannot represent that input.
