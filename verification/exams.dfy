/**
 * The exam side of the bot: the row loop of `read_exams_map`, which keeps the
 * rows of tracked groups with a subject and a date the calendar can parse and
 * orders each group's exams by (date, time), and `exams_for_range`, the
 * inclusive date-window query the exam views run over one group's list.
 */
module Exams {
  import opened Wrappers
  import opened Text
  import opened Sorting
  import opened Config
  import opened Records
  import Dates

  /** An exam item: the ISO date text, time, subject and note. */
  datatype Exam = Exam(date: string, time: string, subject: string, note: string)

  /** The calendar functions the exam code relies on, left abstract:
      `datetime.strptime(s, "%Y-%m-%d").date()` and `datetime.fromisoformat(s).date()`
      (`None` where they raise), and `date.isoformat()`. */
  datatype Calendar = Calendar(
    strptime: string -> Option<Dates.Date>,
    fromIso: string -> Option<Dates.Date>,
    isoformat: Dates.Date -> string)

  /** The date parse of the row loop: `strptime` first, then `fromisoformat`. */
  function ParseDate(cal: Calendar, ds: string): (d: Option<Dates.Date>)
    ensures d.Some? <==> cal.strptime(ds).Some? || cal.fromIso(ds).Some?
    ensures cal.strptime(ds).Some? ==> d == cal.strptime(ds)
  {
    if cal.strptime(ds).Some? then cal.strptime(ds) else cal.fromIso(ds)
  }

  /** What the row loop takes from one row: the group and its exam item. */
  datatype ExamEntry = ExamEntry(group: string, exam: Exam)

  /** The filter and item builder of the row loop; `None` for a skipped row. A row is
      kept exactly when its group is tracked, its date and subject are non-empty and
      the date parses; the item carries the parsed date written back in ISO form. */
  function ParseExam(cfg: Config, cal: Calendar, r: Row): (e: Option<ExamEntry>)
    ensures e.Some? <==> (Field(r, "group") in cfg.groups && Field(r, "date") != ""
                          && Field(r, "subject") != "" && ParseDate(cal, Field(r, "date")).Some?)
    ensures e.Some? ==> e.value.group in cfg.groups
                        && e.value.exam.subject != "" && IsTrimmed(e.value.exam.subject)
                        && IsTrimmed(e.value.exam.time) && IsTrimmed(e.value.exam.note)
    ensures e.Some? ==> e.value.exam.date == cal.isoformat(ParseDate(cal, Field(r, "date")).value)
    ensures e.Some? ==> e.value.group == Field(r, "group") && e.value.exam.subject == Field(r, "subject")
                        && e.value.exam.time == Field(r, "time") && e.value.exam.note == Field(r, "note")
  {
    var g := Field(r, "group");
    var ds := Field(r, "date");
    var subj := Field(r, "subject");
    if g in cfg.groups && ds != "" && subj != "" then
      match ParseDate(cal, ds)
      case None => None
      case Some(d) => Some(ExamEntry(g, Exam(cal.isoformat(d), Field(r, "time"), subj, Field(r, "note"))))
    else None
  }

  /** Every row, parsed. */
  function ExamEntries(cfg: Config, cal: Calendar, rows: seq<Row>): (es: seq<Option<ExamEntry>>)
    ensures |es| == |rows| && forall i :: 0 <= i < |rows| ==> es[i] == ParseExam(cfg, cal, rows[i])
  {
    seq(|rows|, i requires 0 <= i < |rows| => ParseExam(cfg, cal, rows[i]))
  }

  type ExamsMap = map<string, seq<Exam>>

  /** One turn of the row loop on a parsed row: `res.setdefault(g, []).append(item)`. */
  function AddExam(m: ExamsMap, e: Option<ExamEntry>): ExamsMap {
    match e
    case None => m
    case Some(x) => m[x.group := (if x.group in m then m[x.group] else []) + [x.exam]]
  }

  /** The map the row loop has built after the given parsed rows, before sorting. */
  function GroupedExams(es: seq<Option<ExamEntry>>): ExamsMap {
    if |es| == 0 then map[] else AddExam(GroupedExams(es[..|es| - 1]), es[|es| - 1])
  }

  /** The exams of group `g`, in row order. */
  function GroupExams(es: seq<Option<ExamEntry>>, g: string): seq<Exam> {
    if |es| == 0 then []
    else
      var e := es[|es| - 1];
      GroupExams(es[..|es| - 1], g) + (if e.Some? && e.value.group == g then [e.value.exam] else [])
  }

  /** The sort key `(x["date"], x.get("time", ""))`: Python's tuple order on two strings. */
  predicate ExamLe(a: Exam, b: Exam) {
    LexLt(a.date, b.date) || (a.date == b.date && LexLe(a.time, b.time))
  }

  /** Every group's list sorted stably by (date, time). */
  function SortGroups(m: ExamsMap): ExamsMap {
    map g | g in m :: SortBy(m[g], ExamLe)
  }

  /** What `read_exams_map()` returns for the given sheet rows. */
  function ExamsOf(cfg: Config, cal: Calendar, rows: seq<Row>): ExamsMap {
    SortGroups(GroupedExams(ExamEntries(cfg, cal, rows)))
  }

  /** One turn of the row loop: strip the fields, filter, parse the date, append. */
  method AddExamRow(cfg: Config, cal: Calendar, res: ExamsMap, r: Row) returns (res': ExamsMap)
    ensures res' == AddExam(res, ParseExam(cfg, cal, r))
  {
    var g := Field(r, "group");
    var ds := Field(r, "date");
    var tm := Field(r, "time");
    var subj := Field(r, "subject");
    var note := Field(r, "note");
    res' := res;
    if g in cfg.groups && ds != "" && subj != "" {
      var d: Dates.Date;
      var parsed := cal.strptime(ds);
      if parsed.Some? {
        d := parsed.value;
      } else {
        var iso := cal.fromIso(ds);
        if iso.None? {
          assert ParseExam(cfg, cal, r) == None;
          return;
        }
        d := iso.value;
      }
      var item := Exam(cal.isoformat(d), tm, subj, note);
      assert ParseExam(cfg, cal, r) == Some(ExamEntry(g, item));
      var items := if g in res then res[g] else [];
      res' := res[g := items + [item]];
    } else {
      assert ParseExam(cfg, cal, r) == None;
    }
  }

  /** The row loop of `read_exams_map`, then the sort of every group's list. */
  method ReadExams(cfg: Config, cal: Calendar, rows: seq<Row>) returns (res: ExamsMap)
    ensures res == ExamsOf(cfg, cal, rows)
  {
    ghost var es := ExamEntries(cfg, cal, rows);
    res := map[];
    var i := 0;
    while i < |rows|
      invariant 0 <= i <= |rows|
      invariant res == GroupedExams(es[..i])
    {
      assert es[..i + 1][..i] == es[..i];
      res := AddExamRow(cfg, cal, res, rows[i]);
      i := i + 1;
    }
    assert es[..i] == es;
    var grouped := res;
    var todo := res.Keys;
    while todo != {}
      invariant todo <= grouped.Keys && res.Keys == grouped.Keys
      invariant forall g :: g in grouped && g !in todo ==> res[g] == SortBy(grouped[g], ExamLe)
      invariant forall g :: g in todo ==> res[g] == grouped[g]
      decreases todo
    {
      var g :| g in todo;
      res := res[g := SortBy(res[g], ExamLe)];
      todo := todo - {g};
    }
  }

  /** Python's tuple order on (date, time) is a total preorder on exams. */
  lemma ExamLeIsTotalPreorder()
    ensures TotalPreorder(ExamLe)
  {
    forall a: Exam, b: Exam ensures ExamLe(a, b) || ExamLe(b, a) {
      LexLeTotal(a.date, b.date);
      LexLeTotal(a.time, b.time);
    }
    forall a: Exam, b: Exam, c: Exam | ExamLe(a, b) && ExamLe(b, c) ensures ExamLe(a, c) {
      if a.date == b.date && b.date == c.date {
        LexLeTransitive(a.time, b.time, c.time);
      } else if a.date != b.date && b.date != c.date {
        LexLtLeTransitive(a.date, b.date, c.date);
      }
    }
  }

  /** The row loop's map holds, for each group, exactly that group's exams in row
      order, and has a key only for groups with at least one exam. */
  lemma {:induction false} GroupedExamsAreGroupExams(es: seq<Option<ExamEntry>>, g: string)
    ensures g in GroupedExams(es) <==> GroupExams(es, g) != []
    ensures g in GroupedExams(es) ==> GroupedExams(es)[g] == GroupExams(es, g)
  {
    if |es| > 0 {
      GroupedExamsAreGroupExams(es[..|es| - 1], g);
    }
  }

  /** The exams of a group are the items of its kept rows. */
  lemma {:induction false} GroupExamsMembers(es: seq<Option<ExamEntry>>, g: string, x: Exam)
    ensures x in GroupExams(es, g) <==> exists i :: 0 <= i < |es| && es[i] == Some(ExamEntry(g, x))
  {
    if |es| > 0 {
      var n := |es| - 1;
      var init := es[..n];
      GroupExamsMembers(init, g, x);
      assert forall i :: 0 <= i < n ==> init[i] == es[i];
      if x in GroupExams(es, g) && x !in GroupExams(init, g) {
        assert es[n] == Some(ExamEntry(g, x));
      }
      if exists i :: 0 <= i < |es| && es[i] == Some(ExamEntry(g, x)) {
        var i :| 0 <= i < |es| && es[i] == Some(ExamEntry(g, x));
        if i == n {
          assert x in GroupExams(es, g);
        }
      }
    }
  }

  /** `read_exams_map` keeps a group exactly when one of its rows is kept; its list is
      a permutation of the items of its kept rows, ordered by (date, time), and items
      with equal (date, time) keep their row order. */
  lemma ExamsOfSpec(cfg: Config, cal: Calendar, rows: seq<Row>, g: string)
    ensures var es := ExamEntries(cfg, cal, rows);
            g in ExamsOf(cfg, cal, rows) <==> GroupExams(es, g) != []
    ensures var es := ExamEntries(cfg, cal, rows);
            var res := ExamsOf(cfg, cal, rows);
            g in res ==> SortedBy(res[g], ExamLe) && multiset(res[g]) == multiset(GroupExams(es, g))
                         && forall e :: Equivalents(res[g], e, ExamLe) == Equivalents(GroupExams(es, g), e, ExamLe)
  {
    var es := ExamEntries(cfg, cal, rows);
    GroupedExamsAreGroupExams(es, g);
    ExamLeIsTotalPreorder();
    SortByIsStableSort(GroupExams(es, g), ExamLe);
  }

  /** Every exam `read_exams_map` returns for a group comes from a kept row of that
      group: a tracked group, a non-empty subject, and a date the calendar parsed,
      written back by `isoformat`. */
  lemma ExamsOfOrigin(cfg: Config, cal: Calendar, rows: seq<Row>, g: string, x: Exam)
    requires g in ExamsOf(cfg, cal, rows) && x in ExamsOf(cfg, cal, rows)[g]
    ensures g in cfg.groups && x.subject != ""
    ensures exists i :: 0 <= i < |rows| && ParseExam(cfg, cal, rows[i]) == Some(ExamEntry(g, x))
    ensures exists d :: x.date == cal.isoformat(d)
  {
    var es := ExamEntries(cfg, cal, rows);
    ExamsOfSpec(cfg, cal, rows, g);
    assert x in multiset(GroupExams(es, g));
    GroupExamsMembers(es, g, x);
    var i :| 0 <= i < |es| && es[i] == Some(ExamEntry(g, x));
    assert ParseExam(cfg, cal, rows[i]) == Some(ExamEntry(g, x));
    var d := ParseDate(cal, Field(rows[i], "date")).value;
    assert x.date == cal.isoformat(d);
  }

  /** The window test of `exams_for_range`: the date parses with `strptime` and lies in
      `[start, end]`, both ends included. */
  predicate InRange(cal: Calendar, x: Exam, start: Dates.Date, end: Dates.Date) {
    cal.strptime(x.date).Some? && start <= cal.strptime(x.date).value <= end
  }

  /** The loop of `exams_for_range`: the exams in the window, in list order. */
  function InWindow(cal: Calendar, exams: seq<Exam>, start: Dates.Date, end: Dates.Date): seq<Exam> {
    if |exams| == 0 then []
    else
      var x := exams[|exams| - 1];
      InWindow(cal, exams[..|exams| - 1], start, end) + (if InRange(cal, x, start, end) then [x] else [])
  }

  /** `exams_for_range(exams, start, end)`. */
  function ExamsForRange(cal: Calendar, exams: seq<Exam>, start: Dates.Date, end: Dates.Date): seq<Exam> {
    SortBy(InWindow(cal, exams, start, end), ExamLe)
  }

  lemma {:induction false} InWindowCounts(cal: Calendar, exams: seq<Exam>, start: Dates.Date, end: Dates.Date, x: Exam)
    ensures multiset(InWindow(cal, exams, start, end))[x]
            == if InRange(cal, x, start, end) then multiset(exams)[x] else 0
  {
    if |exams| > 0 {
      var n := |exams| - 1;
      InWindowCounts(cal, exams[..n], start, end, x);
      assert exams == exams[..n] + [exams[n]];
      assert multiset(exams) == multiset(exams[..n]) + multiset{exams[n]};
    }
  }

  /** `exams_for_range` returns each exam of the list whose date parses into
      `[start, end]` (both ends inclusive) exactly as often as the list holds it, no
      other exam, ordered by (date, time) with ties in list order. */
  lemma ExamsForRangeSpec(cal: Calendar, exams: seq<Exam>, start: Dates.Date, end: Dates.Date)
    ensures var r := ExamsForRange(cal, exams, start, end);
            forall x :: multiset(r)[x] == if InRange(cal, x, start, end) then multiset(exams)[x] else 0
    ensures var r := ExamsForRange(cal, exams, start, end);
            forall x :: x in r <==> x in exams && InRange(cal, x, start, end)
    ensures SortedBy(ExamsForRange(cal, exams, start, end), ExamLe)
    ensures forall e :: Equivalents(ExamsForRange(cal, exams, start, end), e, ExamLe)
                        == Equivalents(InWindow(cal, exams, start, end), e, ExamLe)
  {
    var w := InWindow(cal, exams, start, end);
    ExamLeIsTotalPreorder();
    SortByIsStableSort(w, ExamLe);
    forall x ensures multiset(ExamsForRange(cal, exams, start, end))[x]
                     == if InRange(cal, x, start, end) then multiset(exams)[x] else 0 {
      InWindowCounts(cal, exams, start, end, x);
    }
  }

  /** An empty window (`end < start`) returns nothing. */
  lemma ExamsForEmptyRange(cal: Calendar, exams: seq<Exam>, start: Dates.Date, end: Dates.Date)
    requires end < start
    ensures ExamsForRange(cal, exams, start, end) == []
  {
    ExamsForRangeSpec(cal, exams, start, end);
    var r := ExamsForRange(cal, exams, start, end);
    assert multiset(r) == multiset{};
    assert |r| == |multiset(r)|;
  }
}
