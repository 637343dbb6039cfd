/** `getAllCompanions`: the listing query is built from the request (a
    filter chosen four ways on whether `subject` and `topic` are given, then
    a row range for the page) and run against the `companions` table. */
module Listing {
  import opened Common
  import opened Text

  /** The request; an absent `limit` or `page` takes its default. */
  datatype ListParams = ListParams(
    limit: Option<int>,
    page: Option<int>,
    subject: Option<string>,
    topic: Option<string>)

  const DefaultLimit: int := 10
  const DefaultPage: int := 1

  datatype Column = SubjectColumn | TopicColumn | NameColumn

  /** `column ilike '%needle%'`. */
  datatype Term = ILike(column: Column, needle: string)

  /** One filter of the query builder: `.ilike(...)` or `.or(...)`. */
  datatype Filter = Where(term: Term) | AnyOf(terms: seq<Term>)

  /** The built query: filters that every row must pass, then the inclusive
      row range `[from, to]`. */
  datatype Query = Query(filters: seq<Filter>, from: int, to: int)

  function Cell(c: Companion, column: Column): string {
    match column
    case SubjectColumn => c.subject
    case TopicColumn => c.topic
    case NameColumn => c.name
  }

  predicate TermHolds(c: Companion, t: Term) {
    ContainsIgnoringCase(Cell(c, t.column), t.needle)
  }

  predicate FilterHolds(c: Companion, f: Filter) {
    match f
    case Where(t) => TermHolds(c, t)
    case AnyOf(ts) => exists i :: 0 <= i < |ts| && TermHolds(c, ts[i])
  }

  predicate AllHold(c: Companion, fs: seq<Filter>) {
    forall i :: 0 <= i < |fs| ==> FilterHolds(c, fs[i])
  }

  /** The `topic.ilike.%t%,name.ilike.%t%` alternative. */
  function TopicOrName(topic: string): Filter {
    AnyOf([ILike(TopicColumn, topic), ILike(NameColumn, topic)])
  }

  /** The first and last row index of a page, both inclusive. */
  function PageRange(limit: int, page: int): (int, int) {
    ((page - 1) * limit, page * limit - 1)
  }

  /** The query `getAllCompanions` builds for a request. */
  function BuildQuery(p: ListParams): Query {
    var limit := p.limit.GetOr(DefaultLimit);
    var page := p.page.GetOr(DefaultPage);
    var filters :=
      if Present(p.subject) && Present(p.topic) then
        [Where(ILike(SubjectColumn, p.subject.value)), TopicOrName(p.topic.value)]
      else if Present(p.subject) then
        [Where(ILike(SubjectColumn, p.subject.value))]
      else if Present(p.topic) then
        [TopicOrName(p.topic.value)]
      else
        [];
    var (from, to) := PageRange(limit, page);
    Query(filters, from, to)
  }

  /** The rows of `table` that pass every filter, in table order. */
  function Select(table: seq<Companion>, fs: seq<Filter>): (r: seq<Companion>)
    ensures |r| <= |table|
    ensures forall c :: c in r <==> c in table && AllHold(c, fs)
  {
    if table == [] then []
    else if AllHold(table[0], fs) then [table[0]] + Select(table[1..], fs)
    else Select(table[1..], fs)
  }

  function Clamp(x: int, lo: int, hi: int): int
    requires lo <= hi
  {
    if x < lo then lo else if x > hi then hi else x
  }

  /** The rows whose index lies in the inclusive range `[from, to]`; indices
      outside the table are skipped. */
  function Window<T>(rows: seq<T>, from: int, to: int): (r: seq<T>)
    ensures |r| <= |rows|
    ensures to < from ==> r == []
    ensures to >= from ==> |r| <= to - from + 1
    ensures 0 <= from <= to + 1 <= |rows| ==> r == rows[from..to + 1]
    ensures 0 <= from <= |rows| <= to + 1 ==> r == rows[from..]
  {
    var lo := Clamp(from, 0, |rows|);
    var hi := Clamp(to + 1, lo, |rows|);
    rows[lo..hi]
  }

  function Run(table: seq<Companion>, q: Query): seq<Companion> {
    var selected := Select(table, q.filters);
    Window(selected, q.from, q.to)
  }

  /** `getAllCompanions`: the page of companions the request asks for, or
      the store's error. */
  function GetAllCompanions(table: seq<Companion>, p: ListParams, fault: Option<string>): (r: Result<seq<Companion>>)
    ensures fault.Some? ==> r == Err(StoreFailed(StoreError(fault.value)))
    ensures fault.None? ==> r.Ok?
    ensures r.Ok? ==> forall c :: c in r.value ==> c in table && Matches(p, c)
    ensures r.Ok? && p.limit.GetOr(DefaultLimit) >= 0 ==> |r.value| <= p.limit.GetOr(DefaultLimit)
  {
    if fault.Some? then Err(StoreFailed(StoreError(fault.value)))
    else
      var q := BuildQuery(p);
      var rows := Run(table, q);
      BuildQueryMeaning(p);
      PageRangeSize(p.limit.GetOr(DefaultLimit), p.page.GetOr(DefaultPage));
      Ok(rows)
  }

  // ---- The listing filter as the four cases it is documented by ----

  predicate SubjectMatches(c: Companion, subject: string) {
    ContainsIgnoringCase(c.subject, subject)
  }

  predicate TopicMatches(c: Companion, topic: string) {
    ContainsIgnoringCase(c.topic, topic) || ContainsIgnoringCase(c.name, topic)
  }

  /** Whether a companion is in the listing before pagination. */
  predicate Matches(p: ListParams, c: Companion) {
    match (Present(p.subject), Present(p.topic))
    case (true, true) => SubjectMatches(c, p.subject.value) && TopicMatches(c, p.topic.value)
    case (true, false) => SubjectMatches(c, p.subject.value)
    case (false, true) => TopicMatches(c, p.topic.value)
    case (false, false) => true
  }

  /** The filters of the built query select exactly the companions the
      four-way description admits. */
  lemma BuildQueryMeaning(p: ListParams)
    ensures forall c :: AllHold(c, BuildQuery(p).filters) <==> Matches(p, c)
  {
    forall c ensures AllHold(c, BuildQuery(p).filters) <==> Matches(p, c) {
      var fs := BuildQuery(p).filters;
      if Present(p.topic) {
        var t := TopicOrName(p.topic.value);
        assert FilterHolds(c, t) <==> TopicMatches(c, p.topic.value) by {
          assert t.terms[0] == ILike(TopicColumn, p.topic.value);
          assert t.terms[1] == ILike(NameColumn, p.topic.value);
        }
        assert fs[|fs| - 1] == t;
      }
      if Present(p.subject) {
        assert fs[0] == Where(ILike(SubjectColumn, p.subject.value));
      }
    }
  }

  /** The rows of `table` the four-way description admits, in table order. */
  function MatchingRows(table: seq<Companion>, p: ListParams): seq<Companion> {
    if table == [] then []
    else if Matches(p, table[0]) then [table[0]] + MatchingRows(table[1..], p)
    else MatchingRows(table[1..], p)
  }

  /** Running the built query is paginating the matching rows. */
  lemma {:induction false} SelectIsMatchingRows(table: seq<Companion>, p: ListParams)
    ensures Select(table, BuildQuery(p).filters) == MatchingRows(table, p)
  {
    if table != [] {
      BuildQueryMeaning(p);
      SelectIsMatchingRows(table[1..], p);
    }
  }

  lemma GetAllCompanionsIsPageOfMatches(table: seq<Companion>, p: ListParams)
    ensures GetAllCompanions(table, p, None) ==
      Ok(Window(MatchingRows(table, p), BuildQuery(p).from, BuildQuery(p).to))
  {
    SelectIsMatchingRows(table, p);
  }

  /** Without `subject` or `topic` (or with both empty) the whole table is
      paginated. */
  lemma {:induction false} NoFilterKeepsAll(table: seq<Companion>, p: ListParams)
    requires !Present(p.subject) && !Present(p.topic)
    ensures MatchingRows(table, p) == table
  {
    if table != [] {
      NoFilterKeepsAll(table[1..], p);
    }
  }

  // ---- Pagination ----

  /** A page with `page >= 1` and `limit >= 1` starts at a valid index and
      covers exactly `limit` indices. */
  lemma PageRangeSize(limit: int, page: int)
    ensures limit >= 1 && page >= 1 ==> PageRange(limit, page).0 >= 0
    ensures PageRange(limit, page).1 - PageRange(limit, page).0 + 1 == limit
  {
  }

  /** Page `page + 1` starts right after page `page` ends. */
  lemma ConsecutivePagesAdjoin(limit: int, page: int)
    ensures PageRange(limit, page + 1).0 == PageRange(limit, page).1 + 1
  {
  }

  /** The first `n` pages, one after the other. */
  function FirstPages<T>(rows: seq<T>, limit: int, n: nat): seq<T> {
    if n == 0 then []
    else
      var (from, to) := PageRange(limit, n);
      FirstPages(rows, limit, n - 1) + Window(rows, from, to)
  }

  /** Reading pages 1 to `n` in turn yields the first `n * limit` rows: the
      pages are disjoint and leave no gaps. */
  lemma {:induction false} FirstPagesArePrefix<T>(rows: seq<T>, limit: int, n: nat)
    requires limit >= 1
    ensures FirstPages(rows, limit, n) == rows[..if n * limit <= |rows| then n * limit else |rows|]
  {
    if n > 0 {
      FirstPagesArePrefix(rows, limit, n - 1);
      var (from, to) := PageRange(limit, n);
      assert from == (n - 1) * limit;
      assert to + 1 == n * limit;
      assert (n - 1) * limit <= n * limit;
      var endBefore := if (n - 1) * limit <= |rows| then (n - 1) * limit else |rows|;
      var endNow := if n * limit <= |rows| then n * limit else |rows|;
      assert Window(rows, from, to) == rows[endBefore..endNow];
      assert rows[..endBefore] + rows[endBefore..endNow] == rows[..endNow];
    }
  }

  /** The default request reads rows 0 to 9; page 2 of 10 reads rows 10 to 19. */
  lemma DefaultAndSecondPage()
    ensures BuildQuery(ListParams(None, None, None, None)) == Query([], 0, 9)
    ensures BuildQuery(ListParams(Some(10), Some(2), None, None)) == Query([], 10, 19)
  {
  }

  // ---- Worked search examples ----

  const MathAlgebra: Companion := Companion("1", "Tutor", "Math", "Algebra", 15, "blue", None)
  const ScienceAlgebra: Companion := Companion("2", "Guide", "Science", "Algebra", 15, "green", None)

  lemma ScienceLacksMath()
    ensures !ContainsIgnoringCase("Science", "math")
  {
    assert Lower("Science") == "science" by {
      var l := Lower("Science");
      assert l[0] == 's' && l[1] == 'c' && l[2] == 'i' && l[3] == 'e';
      assert l[4] == 'n' && l[5] == 'c' && l[6] == 'e';
    }
    assert Lower("math") == "math";
    assert !Contains("nce", "math");
    assert "ence"[..4][0] == 'e' && "ence"[..4] != "math" && "ence"[1..] == "nce";
    assert !Contains("ence", "math");
    assert "ience"[..4][0] == 'i' && "ience"[..4] != "math" && "ience"[1..] == "ence";
    assert !Contains("ience", "math");
    assert "cience"[..4][0] == 'c' && "cience"[..4] != "math" && "cience"[1..] == "ience";
    assert !Contains("cience", "math");
    assert "science"[..4][0] == 's' && "science"[..4] != "math" && "science"[1..] == "cience";
  }

  /** Searching `subject = "math"` finds the maths companion only. */
  lemma SearchBySubject()
    ensures GetAllCompanions([MathAlgebra, ScienceAlgebra], ListParams(None, None, Some("math"), None), None)
      == Ok([MathAlgebra])
  {
    var p := ListParams(None, None, Some("math"), None);
    GetAllCompanionsIsPageOfMatches([MathAlgebra, ScienceAlgebra], p);
    assert Matches(p, MathAlgebra) by {
      assert Lower("Math") == "math" == Lower("math");
      assert Contains("math", "math");
    }
    assert !Matches(p, ScienceAlgebra) by {
      ScienceLacksMath();
    }
    assert [MathAlgebra, ScienceAlgebra][1..] == [ScienceAlgebra];
    assert MatchingRows([ScienceAlgebra], p) == [];
    assert MatchingRows([MathAlgebra, ScienceAlgebra], p) == [MathAlgebra];
  }

  /** Searching `topic = "algebra"` finds both companions, whatever their
      subject. */
  lemma SearchByTopic()
    ensures GetAllCompanions([MathAlgebra, ScienceAlgebra], ListParams(None, None, None, Some("algebra")), None)
      == Ok([MathAlgebra, ScienceAlgebra])
  {
    var p := ListParams(None, None, None, Some("algebra"));
    GetAllCompanionsIsPageOfMatches([MathAlgebra, ScienceAlgebra], p);
    assert Lower("Algebra") == "algebra" == Lower("algebra");
    assert Contains("algebra", "algebra");
    assert Matches(p, MathAlgebra) && Matches(p, ScienceAlgebra);
    assert [MathAlgebra, ScienceAlgebra][1..] == [ScienceAlgebra];
    assert MatchingRows([ScienceAlgebra], p) == [ScienceAlgebra];
    assert MatchingRows([MathAlgebra, ScienceAlgebra], p) == [MathAlgebra, ScienceAlgebra];
    assert BuildQuery(p).from == 0 && BuildQuery(p).to == 9;
  }
}
