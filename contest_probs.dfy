/**
 * The filtering core of search_contest_probs.py: contests grouped by
 * division, catalog problems grouped by those contests, and the rows of
 * each division's sheet.
 *
 * A fetch is a parameter `fetched`: None when the request failed or the
 * API answered with a non-OK status, otherwise the payload's list. The two
 * fetch-and-filter functions then return None where the script returns its
 * empty list `[]`.
 */
module SearchContestProbs {
  import opened Wrappers
  import opened Text
  import opened Codeforces

  /** Per division, contest id to contest name. */
  type ContestsByDiv = map<int, map<int, string>>

  /** The text `f'Div. {div}'` that marks a contest's division in its name. */
  function DivLabel(div: int): string {
    "Div. " + IntToString(div)
  }

  predicate InDivision(c: Contest, div: int) {
    Contains(c.name, DivLabel(div))
  }

  /**
   * `{contest['id']: contest['name'] for contest in contests if ...}` for one
   * division, filled in list order: a later contest with the same id
   * replaces an earlier one.
   */
  function DivisionContests(contests: seq<Contest>, div: int): (names: map<int, string>)
    ensures forall id :: id in names ==> Contest(id, names[id]) in contests && InDivision(Contest(id, names[id]), div)
    ensures forall i :: 0 <= i < |contests| && InDivision(contests[i], div) ==> contests[i].id in names
    decreases |contests|
  {
    if contests == [] then map[]
    else
      var prefix := contests[..|contests| - 1];
      var names := DivisionContests(prefix, div);
      var c := contests[|contests| - 1];
      assert forall x :: x in prefix ==> x in contests;
      assert forall i :: 0 <= i < |prefix| ==> prefix[i] == contests[i];
      if InDivision(c, div) then names[c.id := c.name] else names
  }

  /** Of several contests with one id in a division, the last one's name is kept. */
  lemma {:induction false} DivisionContestsKeepLast(contests: seq<Contest>, div: int, i: nat)
    requires i < |contests| && InDivision(contests[i], div)
    requires forall j :: i < j < |contests| && InDivision(contests[j], div) ==> contests[j].id != contests[i].id
    ensures contests[i].id in DivisionContests(contests, div)
    ensures DivisionContests(contests, div)[contests[i].id] == contests[i].name
    decreases |contests|
  {
    if i < |contests| - 1 {
      var prefix := contests[..|contests| - 1];
      assert prefix[i] == contests[i];
      DivisionContestsKeepLast(prefix, div, i);
    }
  }

  /** Some contest of the list has this id and names this division. */
  predicate ListedInDivision(contests: seq<Contest>, div: int, id: int) {
    exists i :: 0 <= i < |contests| && contests[i].id == id && InDivision(contests[i], div)
  }

  /**
   * `get_contests`: one entry per requested division, each holding exactly
   * the contests whose name contains `Div. <d>`; None when the fetch failed.
   */
  function GetContests(fetched: Option<seq<Contest>>, divs: seq<int>): (r: Option<ContestsByDiv>)
    ensures r.Some? <==> fetched.Some?
    ensures r.Some? ==> r.value.Keys == set d | d in divs
    ensures r.Some? ==> forall d, id :: d in r.value ==>
      (id in r.value[d] <==> ListedInDivision(fetched.value, d, id))
    ensures r.Some? ==> forall d, id :: d in r.value && id in r.value[d] ==>
      Contest(id, r.value[d][id]) in fetched.value && InDivision(Contest(id, r.value[d][id]), d)
    ensures r.Some? ==> forall d :: d in r.value ==> r.value[d] == DivisionContests(fetched.value, d)
  {
    match fetched
    case None => None
    case Some(contests) => Some(map d | d in divs :: DivisionContests(contests, d))
  }

  /**
   * Divisions are tested one by one, so a combined round lands under both
   * divisions it names.
   */
  lemma CombinedRoundInBothDivisions()
    ensures var round := Contest(1, "Round (Div. 1 + Div. 2)");
      var r := GetContests(Some([round]), [1, 2]);
      r.Some? && 1 in r.value[1] && 1 in r.value[2]
  {
    var round := Contest(1, "Round (Div. 1 + Div. 2)");
    assert DivLabel(1) == "Div. 1";
    assert DivLabel(2) == "Div. 2";
    assert OccursAt(round.name, "Div. 1", 7);
    assert OccursAt(round.name, "Div. 2", 16);
    assert InDivision(round, 1) && InDivision(round, 2);
  }

  /** Every problem carries a `contestId`. */
  predicate AllHaveContest(problems: seq<Problem>) {
    forall p :: p in problems ==> p.contestId.Some?
  }

  /** `[problem for problem in problems if problem['contestId'] in contests]`. */
  function SelectByContest(problems: seq<Problem>, ids: set<int>): (selected: seq<Problem>)
    requires AllHaveContest(problems)
    ensures |selected| <= |problems|
    ensures forall p :: p in selected <==> p in problems && p.contestId.value in ids
  {
    if problems == [] then []
    else
      (if problems[0].contestId.value in ids then [problems[0]] else [])
      + SelectByContest(problems[1..], ids)
  }

  /** Selection keeps catalog order: selecting from a concatenation concatenates the selections. */
  lemma {:induction false} SelectByContestAppend(a: seq<Problem>, b: seq<Problem>, ids: set<int>)
    requires AllHaveContest(a) && AllHaveContest(b)
    ensures SelectByContest(a + b, ids) == SelectByContest(a, ids) + SelectByContest(b, ids)
  {
    if a == [] {
      assert a + b == b;
    } else {
      assert (a + b)[0] == a[0] && (a + b)[1..] == a[1..] + b;
      SelectByContestAppend(a[1..], b, ids);
    }
  }

  /** When every problem belongs to a selected contest, the whole catalog is kept as it is. */
  lemma {:induction false} SelectByContestKeepsAll(problems: seq<Problem>, ids: set<int>)
    requires AllHaveContest(problems)
    requires forall p :: p in problems ==> p.contestId.value in ids
    ensures SelectByContest(problems, ids) == problems
  {
    if problems != [] {
      SelectByContestKeepsAll(problems[1..], ids);
    }
  }

  /**
   * `fetch_problems_by_div`: for every division of `contestsByDiv`, the
   * catalog problems whose contest is one of that division's; None when the
   * fetch failed. Every problem must carry `contestId` as soon as there is a
   * division to look at, since the script reads it unguarded.
   */
  function FetchProblemsByDiv(fetched: Option<seq<Problem>>, contestsByDiv: ContestsByDiv): (r: Option<map<int, seq<Problem>>>)
    requires fetched.Some? && contestsByDiv.Keys != {} ==> AllHaveContest(fetched.value)
    ensures r.Some? <==> fetched.Some?
    ensures r.Some? ==> r.value.Keys == contestsByDiv.Keys
    ensures r.Some? ==> forall d, p :: d in r.value ==>
      (p in r.value[d] <==> p in fetched.value && p.contestId.Some? && p.contestId.value in contestsByDiv[d])
    ensures r.Some? ==> forall d :: d in r.value ==>
      r.value[d] == SelectByContest(fetched.value, contestsByDiv[d].Keys)
  {
    match fetched
    case None => None
    case Some(problems) =>
      Some(map d | d in contestsByDiv :: SelectByContest(problems, contestsByDiv[d].Keys))
  }

  /** A cell of the "Rating" column: the rating, or the text 'Unrated'. */
  datatype Cell = Number(n: int) | Label(s: string)

  /** One row of a division's sheet, its columns in the script's order. */
  datatype Row = Row(contestName: string, problemName: string, rating: Cell, tags: string, link: string)

  const UnknownContest := "Unknown Contest"
  const Unrated := "Unrated"
  const TagSeparator := ", "

  /** The row the script appends for one problem, with its defaults for missing data. */
  function RowOf(p: Problem, contestNames: map<int, string>): (row: Row)
    requires p.contestId.Some?
    ensures row.contestName == if p.contestId.value in contestNames then contestNames[p.contestId.value] else UnknownContest
    ensures row.problemName == p.name
    ensures row.rating == if p.rating.Some? then Number(p.rating.value) else Label(Unrated)
    ensures p.tags == [] ==> row.tags == ""
  {
    Row(
      if p.contestId.value in contestNames then contestNames[p.contestId.value] else UnknownContest,
      p.name,
      if p.rating.Some? then Number(p.rating.value) else Label(Unrated),
      Join(p.tags, TagSeparator),
      LinkOf(p))
  }

  /** The "Problem Link" cell names the problem's contest and index. */
  lemma RowLinkNamesProblem(p: Problem, contestNames: map<int, string>)
    requires p.contestId.Some?
    ensures ParseLink(RowOf(p, contestNames).link) == Some(KeyOf(p))
  {
    LinkRoundTrip(KeyOf(p));
  }

  /** The "Tags" cell gives back the problem's tags whenever they hold no comma. */
  lemma RowTagsReadBack(p: Problem, contestNames: map<int, string>)
    requires p.contestId.Some?
    requires forall t :: t in p.tags ==> ',' !in t
    requires p.tags != [""]
    ensures ParseTags(RowOf(p, contestNames).tags) == p.tags
  {
    JoinTagsRoundTrip(p.tags);
  }

  /** `rows` is the sheet for `problems`: one row per problem, in the same order. */
  predicate RowsMatch(rows: seq<Row>, problems: seq<Problem>, contestNames: map<int, string>) {
    |rows| == |problems| &&
    forall i :: 0 <= i < |rows| ==> problems[i].contestId.Some? && rows[i] == RowOf(problems[i], contestNames)
  }

  /** The loop of `save_problems_to_excel` that appends one row per problem of a division. */
  method RowsForDivision(problems: seq<Problem>, contestNames: map<int, string>) returns (rows: seq<Row>)
    requires AllHaveContest(problems)
    ensures RowsMatch(rows, problems, contestNames)
  {
    rows := [];
    for i := 0 to |problems|
      invariant |rows| == i
      invariant forall j :: 0 <= j < i ==> rows[j] == RowOf(problems[j], contestNames)
    {
      rows := rows + [RowOf(problems[i], contestNames)];
    }
  }

  /** One sheet of the workbook: its division and its rows. */
  datatype Sheet = Sheet(div: int, rows: seq<Row>)

  /**
   * `save_problems_to_excel` without the spreadsheet: one sheet per division,
   * in the order the dict `problemsByDiv` yields its keys, given as `divs`.
   * Each division must also be a key of `contestsByDiv`, which the script
   * indexes unguarded.
   */
  method BuildSheets(divs: seq<int>, problemsByDiv: map<int, seq<Problem>>, contestsByDiv: ContestsByDiv)
    returns (sheets: seq<Sheet>)
    requires forall d :: d in problemsByDiv <==> d in divs
    requires forall i, j :: 0 <= i < j < |divs| ==> divs[i] != divs[j]
    requires problemsByDiv.Keys <= contestsByDiv.Keys
    requires forall d :: d in problemsByDiv ==> AllHaveContest(problemsByDiv[d])
    ensures |sheets| == |divs|
    ensures forall i :: 0 <= i < |sheets| ==>
      sheets[i].div == divs[i] && RowsMatch(sheets[i].rows, problemsByDiv[divs[i]], contestsByDiv[divs[i]])
  {
    sheets := [];
    for i := 0 to |divs|
      invariant |sheets| == i
      invariant forall j :: 0 <= j < i ==>
        sheets[j].div == divs[j] && RowsMatch(sheets[j].rows, problemsByDiv[divs[j]], contestsByDiv[divs[j]])
    {
      var div := divs[i];
      var rows := RowsForDivision(problemsByDiv[div], contestsByDiv[div]);
      sheets := sheets + [Sheet(div, rows)];
    }
  }
}
