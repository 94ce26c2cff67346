/**
 * The arithmetic and row handling of the language portal's API router: page offsets and
 * page counts, the per-word correct/wrong review counts under SQL's three-valued logic,
 * the not-found answer of the single-word endpoint and the fixed answers of the stub
 * endpoints. Query execution is not modelled: the rows a query returns are inputs.
 */
module LangPortalApi {
  import opened Wrappers
  import opened Strings

  // ---------------------------------------------------------------------------
  // Pagination

  /** Python's `a // b`, which rounds toward negative infinity. */
  function FloorDiv(a: int, b: int): (q: int)
    requires b != 0
    ensures b > 0 ==> b * q <= a < b * q + b
    ensures b < 0 ==> b * q >= a > b * q + b
  {
    if b > 0 then a / b else (-a) / (-b)
  }

  /** `(page - 1) * items_per_page`. */
  function Offset(page: int, itemsPerPage: int): (r: int)
    ensures page == 1 ==> r == 0
    ensures r + itemsPerPage == page * itemsPerPage
  {
    (page - 1) * itemsPerPage
  }

  /** `(total_items + items_per_page - 1) // items_per_page`, raising on a zero page size. */
  function TotalPages(totalItems: int, itemsPerPage: int): (r: Result<int, string>)
    ensures r.Failure? <==> itemsPerPage == 0
    ensures r.Failure? ==> r.error == "ZeroDivisionError: integer division or modulo by zero"
  {
    if itemsPerPage == 0 then Failure("ZeroDivisionError: integer division or modulo by zero")
    else Success(FloorDiv(totalItems + itemsPerPage - 1, itemsPerPage))
  }

  /** For a positive page size the page count is the ceiling of items over page size. */
  lemma TotalPagesIsCeiling(totalItems: nat, itemsPerPage: int)
    requires itemsPerPage > 0
    ensures var r := TotalPages(totalItems, itemsPerPage);
      r.Success? && r.value >= 0 &&
      r.value * itemsPerPage >= totalItems && (r.value - 1) * itemsPerPage < totalItems + itemsPerPage
    ensures TotalPages(totalItems, itemsPerPage).value == 0 <==> totalItems == 0
  {
    var n := itemsPerPage;
    var q := FloorDiv(totalItems + n - 1, n);
    assert q == (totalItems + n - 1) / n;
    assert n * q <= totalItems + n - 1 < n * q + n;
    assert (q - 1) * n == n * q - n;
    if totalItems == 0 {
      assert q == (n - 1) / n == 0;
    }
  }

  /** Comparing multiples of the same positive number compares the factors. */
  lemma MultipleLess(a: int, b: int, n: int)
    requires n > 0 && a * n < b * n
    ensures a < b
  {
    assert (b - a) * n == b * n - a * n;
  }

  /**
   * The pages `1..total_pages` tile the item positions: item `i` lies on page
   * `i / items_per_page + 1`, which is a valid page, between its offset and the next one.
   */
  lemma EveryItemIsOnOnePage(totalItems: nat, itemsPerPage: int, i: nat)
    requires itemsPerPage > 0 && i < totalItems
    ensures var p := i / itemsPerPage + 1;
      1 <= p <= TotalPages(totalItems, itemsPerPage).value &&
      Offset(p, itemsPerPage) <= i < Offset(p + 1, itemsPerPage)
  {
    TotalPagesIsCeiling(totalItems, itemsPerPage);
    var n := itemsPerPage;
    var p := i / n + 1;
    var t := TotalPages(totalItems, n).value;
    assert (p - 1) * n == n * (i / n) <= i;
    assert Offset(p + 1, n) == n * (i / n) + n > i;
    MultipleLess(p - 1, t, n);
  }

  /** The pagination record of a list answer. */
  datatype Pagination = Pagination(currentPage: int, totalPages: int, totalItems: int, itemsPerPage: int)

  // ---------------------------------------------------------------------------
  // Review counts

  /** `COUNT(CASE WHEN cond THEN 1 END)` over one column: the rows whose condition is TRUE. */
  function CountWhen(conds: seq<Option<bool>>): (r: nat)
    ensures r <= |conds|
  {
    if conds == [] then 0
    else (if conds[0] == Some(true) then 1 else 0) + CountWhen(conds[1..])
  }

  /** SQL `NOT`: NULL stays NULL. */
  function SqlNot(c: Option<bool>): (r: Option<bool>)
    ensures r.None? <==> c.None?
    ensures c.Some? ==> r == Some(!c.value)
  {
    match c
    case None => None
    case Some(b) => Some(!b)
  }

  /**
   * The `correct` column seen by the aggregates for one word: a word without reviews
   * still yields one joined row, whose `correct` is NULL.
   */
  function JoinedColumn(reviews: seq<Option<bool>>): (r: seq<Option<bool>>)
    ensures reviews == [] ==> r == [None]
    ensures reviews != [] ==> r == reviews
  {
    if reviews == [] then [None] else reviews
  }

  /** `correct_count` for a word whose reviews carry these `correct` values. */
  function CorrectCount(reviews: seq<Option<bool>>): nat {
    CountWhen(JoinedColumn(reviews))
  }

  /** The conditions `NOT c` for each `c`. */
  function Negated(conds: seq<Option<bool>>): (r: seq<Option<bool>>)
    ensures |r| == |conds| && forall i :: 0 <= i < |conds| ==> r[i] == SqlNot(conds[i])
  {
    seq(|conds|, i requires 0 <= i < |conds| => SqlNot(conds[i]))
  }

  /** `wrong_count`: the condition is `NOT wri.correct`. */
  function WrongCount(reviews: seq<Option<bool>>): nat {
    CountWhen(Negated(JoinedColumn(reviews)))
  }

  /** Counting TRUE conditions is counting occurrences of `Some(true)`. */
  lemma {:induction false} CountWhenIsMultiplicity(conds: seq<Option<bool>>)
    ensures CountWhen(conds) == multiset(conds)[Some(true)]
  {
    if conds != [] {
      CountWhenIsMultiplicity(conds[1..]);
      assert conds == [conds[0]] + conds[1..];
      assert multiset(conds) == multiset{conds[0]} + multiset(conds[1..]);
    }
  }

  /** Negating every condition turns the `false` rows into the counted ones. */
  lemma {:induction false} CountNegated(conds: seq<Option<bool>>)
    ensures CountWhen(Negated(conds)) == multiset(conds)[Some(false)]
  {
    if conds != [] {
      var rest := conds[1..];
      var n := Negated(conds);
      CountNegated(rest);
      assert n[1..] == Negated(rest);
      assert CountWhen(n) == (if n[0] == Some(true) then 1 else 0) + CountWhen(n[1..]);
      assert n[0] == Some(true) <==> conds[0] == Some(false);
      assert conds == [conds[0]] + rest;
      assert multiset(conds) == multiset{conds[0]} + multiset(rest);
    }
  }

  /** Every value of the column is NULL, TRUE or FALSE. */
  lemma {:induction false} ThreeValues(conds: seq<Option<bool>>)
    ensures multiset(conds)[None] + multiset(conds)[Some(true)] + multiset(conds)[Some(false)] == |conds|
  {
    if conds != [] {
      var rest := conds[1..];
      ThreeValues(rest);
      assert conds == [conds[0]] + rest;
      assert multiset(conds) == multiset{conds[0]} + multiset(rest);
      match conds[0]
      case None =>
      case Some(b) =>
    }
  }

  /**
   * `correct_count` is the number of reviews marked correct and `wrong_count` the number
   * marked wrong; reviews whose `correct` is NULL count in neither, so the two add up to
   * the number of reviews exactly when none is NULL.
   */
  lemma ReviewCounts(reviews: seq<Option<bool>>)
    ensures CorrectCount(reviews) == multiset(reviews)[Some(true)]
    ensures WrongCount(reviews) == multiset(reviews)[Some(false)]
    ensures CorrectCount(reviews) + WrongCount(reviews) + multiset(reviews)[None] == |reviews|
  {
    CountWhenIsMultiplicity(JoinedColumn(reviews));
    CountNegated(JoinedColumn(reviews));
    ThreeValues(reviews);
  }

  /** A word nobody has reviewed reports zero for both counts. */
  lemma UnreviewedWordHasZeroCounts()
    ensures CorrectCount([]) == 0 && WrongCount([]) == 0
  {
  }

  // ---------------------------------------------------------------------------
  // Words

  /** One row of the word queries; the aggregates may come back NULL. */
  datatype WordRow = WordRow(id: int, spanish: string, english: string, correctCount: Option<int>, wrongCount: Option<int>)

  /** The `Word` answer. */
  datatype Word = Word(id: int, spanish: string, english: string, correctCount: int, wrongCount: int)

  /** Python's `x or 0` on an optional integer. */
  function OrZero(x: Option<int>): (r: int)
    ensures x.None? ==> r == 0
    ensures x.Some? ==> r == x.value
  {
    match x
    case None => 0
    case Some(v) => if v == 0 then 0 else v
  }

  /** Building a `Word` from a row. */
  function WordOf(row: WordRow): (w: Word)
    ensures w.id == row.id && w.spanish == row.spanish && w.english == row.english
    ensures w.correctCount == OrZero(row.correctCount) && w.wrongCount == OrZero(row.wrongCount)
  {
    Word(row.id, row.spanish, row.english, OrZero(row.correctCount), OrZero(row.wrongCount))
  }

  /** The answer of a paginated word list. */
  datatype WordsResponse = WordsResponse(items: seq<Word>, pagination: Pagination)

  /** The part common to both word lists: convert the page's rows and count the pages. */
  function WordsPage(page: int, itemsPerPage: int, rows: seq<WordRow>, totalItems: int): (r: Result<WordsResponse, string>)
    ensures r.Failure? <==> itemsPerPage == 0
    ensures r.Success? ==> |r.value.items| == |rows| && forall i :: 0 <= i < |rows| ==> r.value.items[i] == WordOf(rows[i])
    ensures r.Success? ==> r.value.pagination.currentPage == page && r.value.pagination.itemsPerPage == itemsPerPage
    ensures r.Success? ==> r.value.pagination.totalItems == totalItems
    ensures r.Success? ==> r.value.pagination.totalPages == TotalPages(totalItems, itemsPerPage).value
  {
    match TotalPages(totalItems, itemsPerPage)
    case Failure(e) => Failure(e)
    case Success(pages) =>
      Success(WordsResponse(
        seq(|rows|, i requires 0 <= i < |rows| => WordOf(rows[i])),
        Pagination(page, pages, totalItems, itemsPerPage)))
  }

  /**
   * `list_words`: `rows` are what the query returned for `Offset(page, items_per_page)`,
   * `wordCount` is `SELECT COUNT(*) FROM words`.
   */
  function ListWords(page: int, itemsPerPage: int, rows: seq<WordRow>, wordCount: nat): (r: Result<WordsResponse, string>)
    ensures r.Failure? <==> itemsPerPage == 0
    ensures r.Success? ==> r.value.pagination == Pagination(page, TotalPages(wordCount, itemsPerPage).value, wordCount, itemsPerPage)
    ensures r.Success? ==> |r.value.items| == |rows| && forall i :: 0 <= i < |rows| ==> r.value.items[i] == WordOf(rows[i])
  {
    WordsPage(page, itemsPerPage, rows, wordCount)
  }

  /** `get_words_by_group`: the total is the group's membership count. */
  function GetWordsByGroup(groupId: int, page: int, itemsPerPage: int, rows: seq<WordRow>, memberCount: nat)
    : (r: Result<WordsResponse, string>)
    ensures r.Failure? <==> itemsPerPage == 0
    ensures r.Success? ==> r.value.pagination == Pagination(page, TotalPages(memberCount, itemsPerPage).value, memberCount, itemsPerPage)
    ensures r.Success? ==> |r.value.items| == |rows| && forall i :: 0 <= i < |rows| ==> r.value.items[i] == WordOf(rows[i])
  {
    WordsPage(page, itemsPerPage, rows, memberCount)
  }

  /** An HTTP error answer. */
  datatype HttpError = HttpError(status: nat, detail: string)

  /** `get_word`: the matching row, or a 404 when there is none. */
  function GetWord(row: Option<WordRow>): (r: Result<Word, HttpError>)
    ensures r.Failure? <==> row.None?
    ensures r.Failure? ==> r.error == HttpError(404, "Word not found")
    ensures r.Success? ==> r.value == WordOf(row.value) && r.value.id == row.value.id
  {
    match row
    case None => Failure(HttpError(404, "Word not found"))
    case Some(w) => Success(WordOf(w))
  }

  // ---------------------------------------------------------------------------
  // Stub endpoints

  /**
   * The pagination of `list_study_activities`, `get_study_sessions_by_activity`,
   * `list_groups` and `get_study_sessions_by_group`: fixed totals, echoed request.
   */
  function StubPagination(page: int, itemsPerPage: int): (p: Pagination)
    ensures p.totalPages == 10 && p.totalItems == 100
    ensures p.currentPage == page && p.itemsPerPage == itemsPerPage
  {
    Pagination(page, 10, 100, itemsPerPage)
  }

  /** The stub totals ignore the request: any two requests report the same totals. */
  lemma StubTotalsIgnoreRequest(p1: int, n1: int, p2: int, n2: int)
    ensures StubPagination(p1, n1).totalPages == StubPagination(p2, n2).totalPages
    ensures StubPagination(p1, n1).totalItems == StubPagination(p2, n2).totalItems
  {
  }

  /** The answer of `create_study_activity`. */
  datatype CreatedActivity = CreatedActivity(id: int, groupId: int, studyActivityId: int, createdAt: string, launchUrl: string)

  /** The session id every creation reports. */
  const NewSessionId := 789

  /**
   * `create_study_activity`; `now` is the ISO rendering of the current UTC time, which
   * comes from the clock.
   */
  function CreateStudyActivity(groupId: int, studyActivityId: int, now: string): (r: CreatedActivity)
    ensures r.id == NewSessionId
    ensures r.groupId == groupId && r.studyActivityId == studyActivityId
    ensures r.createdAt == now + "Z"
    ensures r.launchUrl == "https://example.com/activities/vocab-quiz?session=789"
  {
    CreatedActivity(NewSessionId, groupId, studyActivityId, now + "Z",
      "https://example.com/activities/vocab-quiz?session=" + IntToString(NewSessionId))
  }

  /** The launch URL names the session the answer reports. */
  lemma LaunchUrlNamesSession(groupId: int, studyActivityId: int, now: string)
    ensures var r := CreateStudyActivity(groupId, studyActivityId, now);
      EndsWith(r.launchUrl, "?session=" + IntToString(r.id))
  {
    var r := CreateStudyActivity(groupId, studyActivityId, now);
    var tail := "?session=" + IntToString(r.id);
    assert r.launchUrl == "https://example.com/activities/vocab-quiz" + tail;
  }
}
