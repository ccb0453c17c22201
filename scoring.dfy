/**
 * The arithmetic and ordering of the end-of-session report, common to
 * `closeAndReport` (index.js:172-232) and `close_and_report`
 * (main.py:133-200): each participant's score, the number of replies
 * required, the capped percentage, the ranking and the splitting of the
 * report text into chat messages.
 */
module Scoring {

  /** One participant's row before it is written into the report. */
  datatype Result<A> = Result(id: A, handle: string, score: nat)

  /** A report line: the row with its requirement, percentage and whether
      it is listed as complete (`▸`) or not (`⚠️`). */
  datatype Line<A> = Line(id: A, handle: string, score: nat, required: nat, percent: nat, complete: bool)

  // ---------------------------------------------------------------------
  // Requirement and percentage
  // ---------------------------------------------------------------------

  /** index.js: `req = targets.length - 1; if (req < 1) req = 1`. */
  function Required(targets: nat): (req: nat)
    ensures req >= 1
    ensures targets >= 2 ==> req == targets - 1
  {
    var req := targets - 1;
    if req < 1 then 1 else req
  }

  /** main.py: `len(target_ids) - 1 if len(target_ids) > 1 else 1`. */
  function PyRequired(targets: nat): (req: nat)
    ensures req >= 1
  {
    if targets > 1 then targets - 1 else 1
  }

  /** Both versions ask every participant for the same number of replies:
      `max(1, targets - 1)`. */
  lemma RequiredAgree(targets: nat)
    ensures Required(targets) == PyRequired(targets)
    ensures Required(targets) == if targets - 1 > 1 then targets - 1 else 1
  {
  }

  /** `floor(score / req * 100)` capped at 100, computed on integers. */
  function Percent(score: nat, req: nat): (pct: nat)
    requires req >= 1
    ensures pct <= 100
    ensures score == 0 ==> pct == 0
  {
    var p := score * 100 / req;
    if p > 100 then 100 else p
  }

  /** A participant is listed as complete exactly when the score reaches the
      requirement. */
  lemma CompleteIffMet(score: nat, req: nat)
    requires req >= 1
    ensures Percent(score, req) >= 100 <==> score >= req
  {
    var q := score * 100 / req;
    assert q * req <= score * 100 < q * req + req;
    if score >= req {
      assert (q + 1) * req > 100 * req;
      assert q + 1 > 100;
    } else {
      assert q * req < 100 * req;
      assert q < 100;
    }
  }

  /** The line printed for one row (index.js:211-216, main.py:184-188). */
  function LineOf<A>(r: Result<A>, req: nat): (l: Line<A>)
    requires req >= 1
    ensures l.percent <= 100
    ensures l.complete <==> r.score >= req
    ensures l.id == r.id && l.handle == r.handle && l.score == r.score && l.required == req
  {
    CompleteIffMet(r.score, req);
    var pct := Percent(r.score, req);
    Line(r.id, r.handle, r.score, req, pct, pct >= 100)
  }

  function LinesOf<A>(rs: seq<Result<A>>, req: nat): (ls: seq<Line<A>>)
    requires req >= 1
    ensures |ls| == |rs| && forall i :: 0 <= i < |rs| ==> ls[i] == LineOf(rs[i], req)
  {
    seq(|rs|, i requires 0 <= i < |rs| => LineOf(rs[i], req))
  }

  // ---------------------------------------------------------------------
  // Ranking: a stable sort by descending score
  // ---------------------------------------------------------------------

  predicate NonIncreasing<A>(rs: seq<Result<A>>) {
    forall i, j :: 0 <= i < j < |rs| ==> rs[i].score >= rs[j].score
  }

  predicate AdjacentNonIncreasing<A>(rs: seq<Result<A>>) {
    forall i :: 0 <= i < |rs| - 1 ==> rs[i].score >= rs[i + 1].score
  }

  /** Places `x` after every row scoring at least as much, so rows that tie
      keep the order in which they were produced. */
  function Insert<A>(x: Result<A>, s: seq<Result<A>>): (r: seq<Result<A>>)
    ensures multiset(r) == multiset(s) + multiset{x} && |r| == |s| + 1
    ensures r[0] == if s == [] || s[0].score < x.score then x else s[0]
    ensures AdjacentNonIncreasing(s) ==> AdjacentNonIncreasing(r)
  {
    if s == [] then [x]
    else if s[0].score >= x.score then
      assert s == [s[0]] + s[1..];
      [s[0]] + Insert(x, s[1..])
    else [x] + s
  }

  /** `results.sort((a, b) => b.score - a.score)` and
      `results.sort(key=lambda x: x['score'], reverse=True)`: both sorts are
      stable, which inserting each row in turn after its equals models. */
  function SortByScore<A>(rs: seq<Result<A>>): (r: seq<Result<A>>)
    ensures multiset(r) == multiset(rs) && |r| == |rs|
    ensures AdjacentNonIncreasing(r)
  {
    if rs == [] then []
    else
      assert rs == rs[..|rs| - 1] + [rs[|rs| - 1]];
      Insert(rs[|rs| - 1], SortByScore(rs[..|rs| - 1]))
  }

  /** The report lists rows by score, highest first, and lists every row
      exactly once. */
  lemma {:induction false} SortByScoreRanks<A>(rs: seq<Result<A>>)
    ensures NonIncreasing(SortByScore(rs))
    ensures |SortByScore(rs)| == |rs|
    ensures forall x :: x in SortByScore(rs) <==> x in rs
  {
    var r := SortByScore(rs);
    AdjacentIsSorted(r, |r|);
    assert |multiset(r)| == |multiset(rs)|;
    forall x
      ensures x in r <==> x in rs
    {
      assert x in r <==> x in multiset(r);
      assert x in rs <==> x in multiset(rs);
    }
  }

  lemma {:induction false} AdjacentIsSorted<A>(r: seq<Result<A>>, n: nat)
    requires n <= |r|
    requires AdjacentNonIncreasing(r)
    ensures forall i, j :: 0 <= i < j < n ==> r[i].score >= r[j].score
  {
    if n > 1 {
      AdjacentIsSorted(r, n - 1);
      assert r[n - 2].score >= r[n - 1].score;
    }
  }

  // ---------------------------------------------------------------------
  // Splitting the report into chat messages
  // ---------------------------------------------------------------------

  const MessageLimit: nat := 1900

  function Concat(parts: seq<string>): string {
    if parts == [] then [] else parts[0] + Concat(parts[1..])
  }

  /** `report.match(/[\s\S]{1,1900}/g) || []`: consecutive pieces of 1900
      characters, the last one shorter. */
  function Chunks(report: string): (parts: seq<string>)
    ensures Concat(parts) == report
    ensures forall i :: 0 <= i < |parts| ==> 1 <= |parts[i]| <= MessageLimit
    decreases |report|
  {
    if report == [] then []
    else if |report| <= MessageLimit then [report]
    else
      var rest := Chunks(report[MessageLimit..]);
      assert report == report[..MessageLimit] + report[MessageLimit..];
      [report[..MessageLimit]] + rest
  }

  /** The messages index.js sends for a report (index.js:226-231): the text
      itself when it fits, otherwise its chunks. */
  function ReportMessages(report: string): (msgs: seq<string>)
    ensures Concat(msgs) == report
    ensures forall i :: 0 <= i < |msgs| ==> |msgs[i]| <= MessageLimit
    ensures |report| > MessageLimit ==> |msgs| == (|report| + MessageLimit - 1) / MessageLimit
  {
    if |report| > MessageLimit then
      ChunksCount(report);
      Chunks(report)
    else [report]
  }

  lemma {:induction false} ChunksCount(report: string)
    ensures |Chunks(report)| == (|report| + MessageLimit - 1) / MessageLimit
    decreases |report|
  {
    if |report| > MessageLimit {
      ChunksCount(report[MessageLimit..]);
    }
  }

  /** The messages main.py sends for a report (main.py:196-200): the text
      itself, or `report[:1900]` and `report[1900:]`. */
  function PyReportMessages(report: string): (msgs: seq<string>)
    ensures Concat(msgs) == report
    ensures 1 <= |msgs| <= 2 && |msgs[0]| <= MessageLimit
    ensures |msgs| == 2 <==> |report| > MessageLimit
  {
    if |report| > MessageLimit then
      assert report == report[..MessageLimit] + report[MessageLimit..];
      assert Concat([report[MessageLimit..]]) == report[MessageLimit..] + Concat([]);
      [report[..MessageLimit], report[MessageLimit..]]
    else [report]
  }

  /** Unlike index.js, main.py sends whatever follows the first 1900
      characters as one message, however long. */
  lemma PySecondMessageUnbounded(report: string)
    requires |report| > 2 * MessageLimit
    ensures |PyReportMessages(report)[1]| > MessageLimit
    ensures |ReportMessages(report)| >= 3
  {
    ChunksCount(report);
  }

  // ---------------------------------------------------------------------
  // Closing a session
  // ---------------------------------------------------------------------

  /** What closing a session produces: nothing when the raid channel is
      unusable, a "no links" notice for an empty session, otherwise the
      ranked rows with the requirement they are measured against. */
  datatype CloseOutcome<A> =
    | NotReported
    | NoLinks
    | Report(required: nat, results: seq<Result<A>>, lines: seq<Line<A>>)

  /** Sorting result rows keeps exactly the rows' ids and their bound. */
  lemma RankedRows<A>(ids: seq<A>, rs: seq<Result<A>>, bound: nat)
    requires |rs| == |ids|
    requires forall i :: 0 <= i < |rs| ==> rs[i].id == ids[i] && rs[i].score <= bound
    ensures |SortByScore(rs)| == |ids|
    ensures NonIncreasing(SortByScore(rs))
    ensures forall i :: 0 <= i < |rs| ==> SortByScore(rs)[i].id in ids && SortByScore(rs)[i].score <= bound
    ensures forall a :: a in ids ==> exists i :: 0 <= i < |rs| && SortByScore(rs)[i].id == a
  {
    SortByScoreRanks(rs);
    SortedRowsFromRows(ids, rs, bound);
    RowsInSorted(ids, rs);
  }

  lemma SortedRowsFromRows<A>(ids: seq<A>, rs: seq<Result<A>>, bound: nat)
    requires |rs| == |ids| == |SortByScore(rs)|
    requires forall i :: 0 <= i < |rs| ==> rs[i].id == ids[i] && rs[i].score <= bound
    ensures forall i :: 0 <= i < |rs| ==> SortByScore(rs)[i].id in ids && SortByScore(rs)[i].score <= bound
  {
    var sorted := SortByScore(rs);
    forall i | 0 <= i < |rs| ensures sorted[i].id in ids && sorted[i].score <= bound {
      assert sorted[i] in multiset(sorted);
      assert sorted[i] in multiset(rs);
      var k :| 0 <= k < |rs| && rs[k] == sorted[i];
      assert ids[k] == sorted[i].id;
    }
  }

  lemma RowsInSorted<A>(ids: seq<A>, rs: seq<Result<A>>)
    requires |rs| == |ids| == |SortByScore(rs)|
    requires forall i :: 0 <= i < |rs| ==> rs[i].id == ids[i]
    ensures forall a :: a in ids ==> exists i :: 0 <= i < |rs| && SortByScore(rs)[i].id == a
  {
    var sorted := SortByScore(rs);
    forall a | a in ids ensures exists i :: 0 <= i < |rs| && sorted[i].id == a {
      var k :| 0 <= k < |ids| && ids[k] == a;
      assert rs[k] in multiset(rs);
      assert rs[k] in multiset(sorted);
      var i :| 0 <= i < |sorted| && sorted[i] == rs[k];
      assert sorted[i].id == a;
    }
  }
}
