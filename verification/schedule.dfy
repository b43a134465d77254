/**
 * The schedule aggregator (`build_schedule_map`): raw sheet records become, for
 * every tracked group, a map from weekday to that day's lessons ordered by start time.
 */
module Schedule {
  import opened Wrappers
  import opened Text
  import opened Sorting
  import opened Config
  import opened Records
  import Dates

  /** A lesson record; `teacher` and `room` are keys present only when non-empty. */
  datatype Lesson = Lesson(time: string, subject: string, teacher: Option<string>, room: Option<string>)

  /** group -> weekday -> lessons of that day. */
  type ScheduleMap = map<string, map<string, seq<Lesson>>>

  /** What the row loop takes from one row: the bucket it goes to and its lesson item. */
  datatype Entry = Entry(group: string, weekday: string, lesson: Lesson)

  /** The lesson items the row loop builds: non-empty stripped time and subject,
      `teacher` and `room` present only when non-empty. */
  predicate WellFormedLesson(l: Lesson) {
    && l.time != "" && IsTrimmed(l.time)
    && l.subject != "" && IsTrimmed(l.subject)
    && (l.teacher.Some? ==> l.teacher.value != "" && IsTrimmed(l.teacher.value))
    && (l.room.Some? ==> l.room.value != "" && IsTrimmed(l.room.value))
  }

  /** The filter and item builder of the row loop; `None` for a skipped row. A row is
      kept exactly when its group is tracked, its weekday is a known name and its time
      and subject are non-empty. */
  function Parse(cfg: Config, r: Row): (e: Option<Entry>)
    ensures e.Some? <==> (Field(r, "group") in cfg.groups && Dates.IsWeekday(Field(r, "weekday"))
                          && Field(r, "time") != "" && Field(r, "subject") != "")
    ensures e.Some? ==> e.value.group in cfg.groups && Dates.IsWeekday(e.value.weekday)
                        && WellFormedLesson(e.value.lesson)
    ensures e.Some? ==> e.value.group == Field(r, "group") && e.value.weekday == Field(r, "weekday")
                        && e.value.lesson.time == Field(r, "time") && e.value.lesson.subject == Field(r, "subject")
    ensures e.Some? ==> e.value.lesson.teacher == OptionalField(r, "teacher")
                        && e.value.lesson.room == OptionalField(r, "room")
  {
    var g := Field(r, "group");
    var wd := Field(r, "weekday");
    var tm := Field(r, "time");
    var subj := Field(r, "subject");
    if g in cfg.groups && Dates.IsWeekday(wd) && tm != "" && subj != "" then
      Some(Entry(g, wd, Lesson(tm, subj, OptionalField(r, "teacher"), OptionalField(r, "room"))))
    else None
  }

  /** Every row, parsed. */
  function Entries(cfg: Config, rows: seq<Row>): (es: seq<Option<Entry>>)
    ensures |es| == |rows| && forall i :: 0 <= i < |rows| ==> es[i] == Parse(cfg, rows[i])
  {
    seq(|rows|, i requires 0 <= i < |rows| => Parse(cfg, rows[i]))
  }

  /** `res.setdefault(g, {}).setdefault(wd, []).append(item)`. */
  function AddLesson(m: ScheduleMap, g: string, wd: string, item: Lesson): ScheduleMap {
    var days := if g in m then m[g] else map[];
    var items := if wd in days then days[wd] else [];
    m[g := days[wd := items + [item]]]
  }

  /** One turn of the row loop on a parsed row. */
  function AddEntry(m: ScheduleMap, e: Option<Entry>): ScheduleMap {
    match e
    case None => m
    case Some(x) => AddLesson(m, x.group, x.weekday, x.lesson)
  }

  /** The map the row loop has built after the given parsed rows, before any sorting. */
  function Grouped(es: seq<Option<Entry>>): ScheduleMap {
    if |es| == 0 then map[] else AddEntry(Grouped(es[..|es| - 1]), es[|es| - 1])
  }

  /** A parsed row that goes to bucket (g, wd). */
  predicate InBucket(e: Option<Entry>, g: string, wd: string) {
    e.Some? && e.value.group == g && e.value.weekday == wd
  }

  /** The lessons of bucket (g, wd), in row order. */
  function Bucket(es: seq<Option<Entry>>, g: string, wd: string): seq<Lesson> {
    if |es| == 0 then []
    else
      var e := es[|es| - 1];
      Bucket(es[..|es| - 1], g, wd) + (if InBucket(e, g, wd) then [e.value.lesson] else [])
  }

  /** The inner `start_minutes`: `hh, mm = s.split("-")[0].split(":")`, then
      `int(hh) * 60 + int(mm)`; whatever raises gives 0. */
  function StartMinutes(time: string): int {
    var hm := Split(Split(time, '-')[0], ':');
    if |hm| != 2 then 0
    else
      var h, m := ParseInt(hm[0]), ParseInt(hm[1]);
      if h.Some? && m.Some? then h.value * 60 + m.value else 0
  }

  /** The sort key of the buckets. */
  predicate LessonLe(a: Lesson, b: Lesson) {
    StartMinutes(a.time) <= StartMinutes(b.time)
  }

  /** Each bucket sorted stably by start minute (`items.sort(key=...)`). */
  function SortBuckets(m: ScheduleMap): ScheduleMap {
    map g | g in m :: SortDays(m[g])
  }

  function SortDays(days: map<string, seq<Lesson>>): map<string, seq<Lesson>> {
    map wd | wd in days :: SortBy(days[wd], LessonLe)
  }

  /** What `build_schedule_map(rows)` returns. */
  function ScheduleOf(cfg: Config, rows: seq<Row>): ScheduleMap {
    SortBuckets(Grouped(Entries(cfg, rows)))
  }

  /** One turn of the row loop: strip the fields, filter, and append the item to its bucket. */
  method AddRow(cfg: Config, res: ScheduleMap, r: Row) returns (res': ScheduleMap)
    ensures res' == AddEntry(res, Parse(cfg, r))
  {
    var g := Field(r, "group");
    var wd := Field(r, "weekday");
    var tm := Field(r, "time");
    var subj := Field(r, "subject");
    var teacher := Field(r, "teacher");
    var room := Field(r, "room");
    res' := res;
    assert Parse(cfg, r).Some? <==> g in cfg.groups && Dates.IsWeekday(wd) && tm != "" && subj != "";
    if g in cfg.groups && Dates.IsWeekday(wd) && tm != "" && subj != "" {
      var item := Lesson(tm, subj, None, None);
      if teacher != "" {
        item := item.(teacher := Some(teacher));
      }
      if room != "" {
        item := item.(room := Some(room));
      }
      assert item == Lesson(tm, subj, OptionalField(r, "teacher"), OptionalField(r, "room"));
      assert Parse(cfg, r) == Some(Entry(g, wd, item));
      res' := AddLesson(res, g, wd, item);
    } else {
      assert Parse(cfg, r) == None;
    }
  }

  /** `build_schedule_map`: the row loop, then a stable sort of every bucket. */
  method BuildScheduleMap(cfg: Config, rows: seq<Row>) returns (res: ScheduleMap)
    ensures res == ScheduleOf(cfg, rows)
  {
    ghost var es := Entries(cfg, rows);
    res := map[];
    var i := 0;
    while i < |rows|
      invariant 0 <= i <= |rows|
      invariant res == Grouped(es[..i])
    {
      assert es[..i + 1][..i] == es[..i];
      res := AddRow(cfg, res, rows[i]);
      i := i + 1;
    }
    assert es[..i] == es;
    res := SortEveryBucket(res);
  }

  /** The sorting pass of `build_schedule_map`: every bucket of every group sorted. */
  method SortEveryBucket(grouped: ScheduleMap) returns (res: ScheduleMap)
    ensures res == SortBuckets(grouped)
  {
    res := grouped;
    var todo := res.Keys;
    while todo != {}
      invariant todo <= grouped.Keys && res.Keys == grouped.Keys
      invariant forall g :: g in grouped && g !in todo ==> res[g] == SortDays(grouped[g])
      invariant forall g :: g in todo ==> res[g] == grouped[g]
      decreases todo
    {
      var g :| g in todo;
      var days := res[g];
      var sorted := SortDaysOf(days);
      res := res[g := sorted];
      todo := todo - {g};
    }
  }

  /** The inner loop of the sorting pass: every weekday list of one group sorted. */
  method SortDaysOf(days: map<string, seq<Lesson>>) returns (res: map<string, seq<Lesson>>)
    ensures res == SortDays(days)
  {
    res := days;
    var todo := days.Keys;
    while todo != {}
      invariant todo <= days.Keys && res.Keys == days.Keys
      invariant forall wd :: wd in days && wd !in todo ==> res[wd] == SortBy(days[wd], LessonLe)
      invariant forall wd :: wd in todo ==> res[wd] == days[wd]
      decreases todo
    {
      var wd :| wd in todo;
      res := res[wd := SortBy(res[wd], LessonLe)];
      todo := todo - {wd};
    }
  }

  /** Python's numeric order on start minutes is a total preorder on lessons. */
  lemma LessonLeIsTotalPreorder()
    ensures TotalPreorder(LessonLe)
  {
  }

  /** A time `HH:MM`, optionally followed by `-...`, starts at minute `HH * 60 + MM`
      (leading zeros allowed, as `int` allows them). */
  lemma StartMinutesOfClockTime(hh: string, mm: string, tail: string)
    requires |hh| > 0 && forall i :: 0 <= i < |hh| ==> IsDigit(hh[i])
    requires |mm| > 0 && forall i :: 0 <= i < |mm| ==> IsDigit(mm[i])
    requires tail == "" || tail[0] == '-'
    ensures StartMinutes(hh + ":" + mm + tail) == DecimalValue(hh) * 60 + DecimalValue(mm)
  {
    var hm := Split(Split(hh + ":" + mm + tail, '-')[0], ':');
    ClockTimePieces(hh, mm, tail);
    ParseDigits(hh);
    ParseDigits(mm);
    assert ParseInt(hm[0]) == Some(DecimalValue(hh)) && ParseInt(hm[1]) == Some(DecimalValue(mm));
  }

  lemma ClockTimePieces(hh: string, mm: string, tail: string)
    requires forall i :: 0 <= i < |hh| ==> IsDigit(hh[i])
    requires forall i :: 0 <= i < |mm| ==> IsDigit(mm[i])
    requires tail == "" || tail[0] == '-'
    ensures Split(Split(hh + ":" + mm + tail, '-')[0], ':') == [hh, mm]
  {
    var start := hh + ":" + mm;
    assert '-' !in start by {
      assert forall i :: 0 <= i < |start| ==> IsDigit(start[i]) || start[i] == ':';
    }
    SplitHead(start, tail, '-');
    assert ':' !in hh && ':' !in mm by {
      assert forall i :: 0 <= i < |hh| ==> IsDigit(hh[i]);
      assert forall i :: 0 <= i < |mm| ==> IsDigit(mm[i]);
    }
    SplitPair(hh, mm, ':');
  }

  /** A time whose start has no colon is malformed and counts as minute 0. */
  lemma StartMinutesWithoutColon(time: string)
    requires ':' !in time
    ensures StartMinutes(time) == 0
  {
    var first := Split(time, '-')[0];
    JoinSplit(time, '-');
    assert ':' !in first by {
      var parts := Split(time, '-');
      JoinPieceIn(parts, '-');
    }
    SplitWithout(first, ':');
  }

  /** Every character of the first piece of a join occurs in the joined text. */
  lemma JoinPieceIn(parts: seq<string>, sep: char)
    requires |parts| >= 1
    ensures forall c :: c in parts[0] ==> c in Join(parts, sep)
  {
  }

  /** Every group key of the row loop's map has at least one weekday bucket. */
  lemma {:induction false} GroupedKeys(es: seq<Option<Entry>>, g: string)
    requires g in Grouped(es)
    ensures exists wd :: wd in Grouped(es)[g]
  {
    var init := es[..|es| - 1];
    var e := es[|es| - 1];
    if e.Some? && e.value.group == g {
      assert e.value.weekday in Grouped(es)[g];
    } else {
      GroupedKeys(init, g);
      var wd :| wd in Grouped(init)[g];
      assert wd in Grouped(es)[g];
    }
  }

  /** The map the row loop builds holds, at (g, wd), exactly the non-empty bucket
      of the rows for (g, wd). */
  lemma {:induction false} GroupedIsBuckets(es: seq<Option<Entry>>, g: string, wd: string)
    ensures (g in Grouped(es) && wd in Grouped(es)[g]) <==> Bucket(es, g, wd) != []
    ensures g in Grouped(es) && wd in Grouped(es)[g] ==> Grouped(es)[g][wd] == Bucket(es, g, wd)
  {
    if |es| > 0 {
      GroupedIsBuckets(es[..|es| - 1], g, wd);
    }
  }

  /** Every lesson of a bucket comes from a row in it. */
  lemma {:induction false} BucketOrigin(es: seq<Option<Entry>>, g: string, wd: string, l: Lesson)
    requires l in Bucket(es, g, wd)
    ensures exists i :: 0 <= i < |es| && es[i] == Some(Entry(g, wd, l))
  {
    var n := |es| - 1;
    var init := es[..n];
    if InBucket(es[n], g, wd) && es[n].value.lesson == l {
      assert es[n] == Some(Entry(g, wd, l));
    } else {
      BucketOrigin(init, g, wd, l);
      var i :| 0 <= i < |init| && init[i] == Some(Entry(g, wd, l));
      assert es[i] == init[i];
    }
  }

  /** Every row in a bucket contributes its lesson to it. */
  lemma {:induction false} BucketHoldsRow(es: seq<Option<Entry>>, g: string, wd: string, i: nat)
    requires i < |es| && InBucket(es[i], g, wd)
    ensures es[i].value.lesson in Bucket(es, g, wd)
  {
    var n := |es| - 1;
    var init := es[..n];
    if i < n {
      assert init[i] == es[i];
      BucketHoldsRow(init, g, wd, i);
    }
  }

  /** The indices of the rows whose parsed form is `e`. */
  function RowsGiving(cfg: Config, rows: seq<Row>, e: Entry): set<nat> {
    set i: nat | i < |rows| && Parse(cfg, rows[i]) == Some(e)
  }

  function EntriesEqual(es: seq<Option<Entry>>, e: Entry): set<nat> {
    set i: nat | i < |es| && es[i] == Some(e)
  }

  lemma EntriesEqualStep(es: seq<Option<Entry>>, e: Entry)
    requires |es| > 0
    ensures var n := |es| - 1;
            EntriesEqual(es, e) == EntriesEqual(es[..n], e) + (if es[n] == Some(e) then {n} else {})
            && n !in EntriesEqual(es[..n], e)
  {
  }

  /** A bucket holds a lesson as many times as there are rows giving it. */
  lemma {:induction false} BucketCounts(es: seq<Option<Entry>>, g: string, wd: string, l: Lesson)
    ensures multiset(Bucket(es, g, wd))[l] == |EntriesEqual(es, Entry(g, wd, l))|
  {
    if |es| > 0 {
      BucketCounts(es[..|es| - 1], g, wd, l);
      BucketCountStep(es, g, wd, l);
      EntriesEqualCountStep(es, Entry(g, wd, l));
    }
  }

  lemma BucketCountStep(es: seq<Option<Entry>>, g: string, wd: string, l: Lesson)
    requires |es| > 0
    ensures var n := |es| - 1;
            multiset(Bucket(es, g, wd))[l]
            == multiset(Bucket(es[..n], g, wd))[l] + (if es[n] == Some(Entry(g, wd, l)) then 1 else 0)
  {
    var n := |es| - 1;
    var step := if InBucket(es[n], g, wd) then [es[n].value.lesson] else [];
    assert multiset(Bucket(es, g, wd)) == multiset(Bucket(es[..n], g, wd)) + multiset(step);
    if es[n] == Some(Entry(g, wd, l)) {
      assert step == [l];
    } else {
      assert multiset(step)[l] == 0;
    }
  }

  lemma EntriesEqualCountStep(es: seq<Option<Entry>>, e: Entry)
    requires |es| > 0
    ensures var n := |es| - 1;
            |EntriesEqual(es, e)| == |EntriesEqual(es[..n], e)| + (if es[n] == Some(e) then 1 else 0)
  {
    var n := |es| - 1;
    EntriesEqualStep(es, e);
    var before := EntriesEqual(es[..n], e);
    if es[n] == Some(e) {
      assert |before + {n}| == |before| + 1;
    } else {
      assert before + {} == before;
    }
  }

  /** Every lesson of `build_schedule_map`'s result comes from a kept row of its own
      group and weekday, so it has a tracked group, a known weekday, a non-empty
      stripped time and subject, and `teacher`/`room` only when non-empty. */
  lemma ScheduleLessonsWellFormed(cfg: Config, rows: seq<Row>, g: string, wd: string, l: Lesson)
    requires var s := ScheduleOf(cfg, rows); g in s && wd in s[g] && l in s[g][wd]
    ensures g in cfg.groups && Dates.IsWeekday(wd) && WellFormedLesson(l)
    ensures exists i :: 0 <= i < |rows| && Parse(cfg, rows[i]) == Some(Entry(g, wd, l))
  {
    var es := Entries(cfg, rows);
    var grouped := Grouped(es);
    GroupedIsBuckets(es, g, wd);
    SortByPermutes(grouped[g][wd], LessonLe);
    assert l in multiset(grouped[g][wd]);
    BucketOrigin(es, g, wd, l);
    var i :| 0 <= i < |es| && es[i] == Some(Entry(g, wd, l));
    assert Parse(cfg, rows[i]) == Some(Entry(g, wd, l));
  }

  /** On parsed rows: a bucket exists exactly when some entry goes to it. */
  lemma GroupedHasBucket(es: seq<Option<Entry>>, g: string, wd: string)
    ensures (g in Grouped(es) && wd in Grouped(es)[g]) <==> exists i :: 0 <= i < |es| && InBucket(es[i], g, wd)
  {
    GroupedIsBuckets(es, g, wd);
    var b := Bucket(es, g, wd);
    if b != [] {
      BucketOrigin(es, g, wd, b[0]);
      var i :| 0 <= i < |es| && es[i] == Some(Entry(g, wd, b[0]));
      assert InBucket(es[i], g, wd);
    }
    if exists i :: 0 <= i < |es| && InBucket(es[i], g, wd) {
      var i :| 0 <= i < |es| && InBucket(es[i], g, wd);
      BucketHoldsRow(es, g, wd, i);
    }
  }

  /** A bucket (g, wd) exists exactly when some kept row goes to it, and it holds each
      lesson exactly as often as rows give it: no row is lost or doubled. */
  lemma ScheduleHoldsEveryRow(cfg: Config, rows: seq<Row>, g: string, wd: string, l: Lesson)
    ensures var s := ScheduleOf(cfg, rows);
            (g in s && wd in s[g]) <==> exists i :: 0 <= i < |rows| && InBucket(Parse(cfg, rows[i]), g, wd)
    ensures var s := ScheduleOf(cfg, rows);
            g in s && wd in s[g] ==> multiset(s[g][wd])[l] == |RowsGiving(cfg, rows, Entry(g, wd, l))|
  {
    var es := Entries(cfg, rows);
    var grouped := Grouped(es);
    GroupedHasBucket(es, g, wd);
    assert (exists i :: 0 <= i < |es| && InBucket(es[i], g, wd))
       <==> exists i :: 0 <= i < |rows| && InBucket(Parse(cfg, rows[i]), g, wd);
    if g in grouped && wd in grouped[g] {
      GroupedIsBuckets(es, g, wd);
      SortByPermutes(grouped[g][wd], LessonLe);
      BucketCounts(es, g, wd, l);
      RowsGivingOfEntries(cfg, rows, Entry(g, wd, l));
    }
  }

  lemma RowsGivingOfEntries(cfg: Config, rows: seq<Row>, e: Entry)
    ensures RowsGiving(cfg, rows, e) == EntriesEqual(Entries(cfg, rows), e)
  {
    var es := Entries(cfg, rows);
    forall i: nat ensures i in RowsGiving(cfg, rows, e) <==> i in EntriesEqual(es, e) {
      if i < |rows| {
        assert es[i] == Parse(cfg, rows[i]);
      }
    }
  }

  /** Each bucket is ordered by start minute, and lessons with the same start minute keep
      the order of their rows (the sort is stable). */
  lemma ScheduleBucketsOrdered(cfg: Config, rows: seq<Row>, g: string, wd: string)
    requires var s := ScheduleOf(cfg, rows); g in s && wd in s[g]
    ensures var b := ScheduleOf(cfg, rows)[g][wd];
            forall i, j :: 0 <= i < j < |b| ==> StartMinutes(b[i].time) <= StartMinutes(b[j].time)
    ensures forall e :: Equivalents(ScheduleOf(cfg, rows)[g][wd], e, LessonLe)
                        == Equivalents(Bucket(Entries(cfg, rows), g, wd), e, LessonLe)
  {
    var es := Entries(cfg, rows);
    GroupedIsBuckets(es, g, wd);
    LessonLeIsTotalPreorder();
    SortByIsStableSort(Bucket(es, g, wd), LessonLe);
  }

  /** The kept rows of group `g`, parsed, in sheet order. */
  function GroupEntries(es: seq<Option<Entry>>, g: string): seq<Option<Entry>> {
    if |es| == 0 then []
    else
      var e := es[|es| - 1];
      GroupEntries(es[..|es| - 1], g) + (if e.Some? && e.value.group == g then [e] else [])
  }

  lemma {:induction false} BucketOfGroupEntries(es: seq<Option<Entry>>, g: string, wd: string)
    ensures Bucket(GroupEntries(es, g), g, wd) == Bucket(es, g, wd)
  {
    if |es| > 0 {
      var init := es[..|es| - 1];
      var e := es[|es| - 1];
      BucketOfGroupEntries(init, g, wd);
      var gi := GroupEntries(init, g);
      if e.Some? && e.value.group == g {
        var ge := gi + [e];
        assert ge[..|ge| - 1] == gi;
      } else {
        assert gi + [] == gi;
      }
    }
  }

  /** On parsed rows: a group's part of the row loop's map depends only on its own entries. */
  lemma GroupedIsLocal(es1: seq<Option<Entry>>, es2: seq<Option<Entry>>, g: string)
    requires GroupEntries(es1, g) == GroupEntries(es2, g)
    ensures g in Grouped(es1) <==> g in Grouped(es2)
    ensures g in Grouped(es1) ==> Grouped(es1)[g] == Grouped(es2)[g]
  {
    var g1, g2 := Grouped(es1), Grouped(es2);
    forall wd ensures (g in g1 && wd in g1[g]) <==> (g in g2 && wd in g2[g]) {
      BucketOfGroupEntries(es1, g, wd);
      BucketOfGroupEntries(es2, g, wd);
      GroupedIsBuckets(es1, g, wd);
      GroupedIsBuckets(es2, g, wd);
    }
    if g in g1 {
      GroupedKeys(es1, g);
      var wd :| wd in g1[g];
      assert g in g2;
    }
    if g in g2 {
      GroupedKeys(es2, g);
      var wd :| wd in g2[g];
      assert g in g1;
    }
    if g in g1 {
      forall wd | wd in g1[g] ensures g1[g][wd] == g2[g][wd] {
        BucketOfGroupEntries(es1, g, wd);
        BucketOfGroupEntries(es2, g, wd);
        GroupedIsBuckets(es1, g, wd);
        GroupedIsBuckets(es2, g, wd);
      }
      assert g1[g] == g2[g];
    }
  }

  /** A group's part of the result depends only on that group's kept rows: rows of
      other groups, untracked groups or malformed rows never change it. */
  lemma ScheduleOfGroupIsLocal(cfg: Config, rows1: seq<Row>, rows2: seq<Row>, g: string)
    requires GroupEntries(Entries(cfg, rows1), g) == GroupEntries(Entries(cfg, rows2), g)
    ensures g in ScheduleOf(cfg, rows1) <==> g in ScheduleOf(cfg, rows2)
    ensures g in ScheduleOf(cfg, rows1) ==> ScheduleOf(cfg, rows1)[g] == ScheduleOf(cfg, rows2)[g]
  {
    GroupedIsLocal(Entries(cfg, rows1), Entries(cfg, rows2), g);
  }
}
