/**
 * The change watcher (`watch_changes`): a table from group to the digest of that
 * group's data, seeded silently at start-up and then, on every cycle whose sheet
 * read succeeds, compared group by group with the fresh digests. A group is
 * notified only when it already has a (non-empty) digest that differs from the
 * fresh one; a group without a digest is seeded silently. The digest
 * (`hash_group_data_for_changes`) is an arbitrary deterministic function of the
 * group's payload.
 */
module Watcher {
  import opened Wrappers
  import opened Sorting
  import opened Config
  import Schedule
  import Exams

  /** What `hash_group_data_for_changes` digests for one group: its weekday map and
      its exam list (empty when the group is missing). */
  datatype Payload = Payload(schedule: map<string, seq<Schedule.Lesson>>, exams: seq<Exams.Exam>)

  /** One successful read of both sheets: `read_schedule_map()` and `read_exams_map()`. */
  datatype Snapshot = Snapshot(schedule: Schedule.ScheduleMap, exams: Exams.ExamsMap)

  /** The `payload` dictionary built for group `g`. */
  function PayloadOf(s: Snapshot, g: string): Payload {
    Payload(if g in s.schedule then s.schedule[g] else map[], if g in s.exams then s.exams[g] else [])
  }

  type Table = map<string, string>

  /** The fresh digest of group `g`. */
  function Current(digest: Payload -> string, s: Snapshot, g: string): string {
    digest(PayloadOf(s, g))
  }

  /** `last_hash.get(g) and last_hash[g] != cur`: a stored, non-empty, different digest. */
  predicate Notifies(t: Table, g: string, cur: string) {
    g in t && t[g] != "" && t[g] != cur
  }

  /** One group of a cycle: replace a differing digest, seed a missing one, otherwise
      leave the table alone. */
  function Visit(t: Table, g: string, cur: string): Table {
    if Notifies(t, g, cur) then t[g := cur]
    else if g !in t then t[g := cur]
    else t
  }

  /** The table after a successful cycle over `groups`. */
  function CycleTable(t: Table, groups: seq<string>, digest: Payload -> string, s: Snapshot): Table {
    if |groups| == 0 then t
    else
      var g := groups[|groups| - 1];
      Visit(CycleTable(t, groups[..|groups| - 1], digest, s), g, Current(digest, s, g))
  }

  /** The groups a successful cycle over `groups` notifies, in visiting order. */
  function CycleNotified(t: Table, groups: seq<string>, digest: Payload -> string, s: Snapshot): seq<string> {
    if |groups| == 0 then []
    else
      var g := groups[|groups| - 1];
      var before := CycleTable(t, groups[..|groups| - 1], digest, s);
      CycleNotified(t, groups[..|groups| - 1], digest, s)
        + (if Notifies(before, g, Current(digest, s, g)) then [g] else [])
  }

  /** The table the start-up read seeds: every group mapped to its fresh digest. */
  function Seed(groups: seq<string>, digest: Payload -> string, s: Snapshot): Table {
    if |groups| == 0 then map[]
    else
      var g := groups[|groups| - 1];
      Seed(groups[..|groups| - 1], digest, s)[g := Current(digest, s, g)]
  }

  class ChangeWatcher {
    const cfg: Config
    const digest: Payload -> string
    /** `last_hash`. */
    var lastHash: Table

    /** The start-up part of `watch_changes`: when the initial read succeeds every
        group is seeded with its digest; when it fails the table stays empty. */
    constructor (cfg: Config, digest: Payload -> string, initial: Option<Snapshot>)
      ensures this.cfg == cfg && this.digest == digest
      ensures initial.Some? ==> lastHash == Seed(cfg.groups, digest, initial.value)
      ensures initial.None? ==> lastHash == map[]
    {
      var t: Table := map[];
      if initial.Some? {
        var i := 0;
        while i < |cfg.groups|
          invariant 0 <= i <= |cfg.groups|
          invariant t == Seed(cfg.groups[..i], digest, initial.value)
        {
          assert cfg.groups[..i + 1][..i] == cfg.groups[..i];
          var g := cfg.groups[i];
          t := t[g := digest(PayloadOf(initial.value, g))];
          i := i + 1;
        }
        assert cfg.groups[..i] == cfg.groups;
      }
      this.cfg := cfg;
      this.digest := digest;
      lastHash := t;
    }

    /** One cycle of the watch loop. `read` is the result of reading both sheets
        (`None` when it raised); the result lists the groups `notify_subscribers`
        is called for, in order. A failed read changes nothing. */
    method Step(read: Option<Snapshot>) returns (notified: seq<string>)
      modifies this
      ensures read.None? ==> lastHash == old(lastHash) && notified == []
      ensures read.Some? ==> lastHash == CycleTable(old(lastHash), cfg.groups, digest, read.value)
      ensures read.Some? ==> notified == CycleNotified(old(lastHash), cfg.groups, digest, read.value)
    {
      notified := [];
      if read.None? {
        return;
      }
      var s := read.value;
      var i := 0;
      while i < |cfg.groups|
        invariant 0 <= i <= |cfg.groups|
        invariant lastHash == CycleTable(old(lastHash), cfg.groups[..i], digest, s)
        invariant notified == CycleNotified(old(lastHash), cfg.groups[..i], digest, s)
      {
        assert cfg.groups[..i + 1][..i] == cfg.groups[..i];
        var g := cfg.groups[i];
        var cur := digest(PayloadOf(s, g));
        if g in lastHash && lastHash[g] != "" && lastHash[g] != cur {
          lastHash := lastHash[g := cur];
          notified := notified + [g];
        } else if g !in lastHash {
          lastHash := lastHash[g := cur];
        }
        i := i + 1;
      }
      assert cfg.groups[..i] == cfg.groups;
    }
  }

  /** One visit: the visited group ends with the fresh digest unless it held the
      empty digest, and no other group changes. */
  lemma VisitSpec(t: Table, g: string, cur: string)
    ensures Visit(t, g, cur).Keys == t.Keys + {g}
    ensures Visit(t, g, cur)[g] == if g in t && t[g] == "" then "" else cur
    ensures forall h :: h in t && h != g ==> Visit(t, g, cur)[h] == t[h]
    ensures g in t && t[g] == cur ==> Visit(t, g, cur) == t
  {
  }

  /** The table after a successful cycle: every visited group holds its fresh digest
      (unless it held the empty one), every other group keeps its entry. */
  lemma {:induction false} CycleTableSpec(t: Table, groups: seq<string>, digest: Payload -> string, s: Snapshot)
    ensures forall h :: h in CycleTable(t, groups, digest, s) <==> h in t || h in groups
    ensures forall h :: h in CycleTable(t, groups, digest, s) ==>
              CycleTable(t, groups, digest, s)[h]
              == if h in groups && !(h in t && t[h] == "") then Current(digest, s, h) else t[h]
  {
    if |groups| > 0 {
      var n := |groups| - 1;
      var init := groups[..n];
      var g := groups[n];
      CycleTableSpec(t, init, digest, s);
      assert groups == init + [g];
      VisitSpec(CycleTable(t, init, digest, s), g, Current(digest, s, g));
    }
  }

  /** A successful cycle notifies exactly the listed groups whose stored digest is
      non-empty and differs from the fresh one, each of them once, even when the
      group list repeats a group. */
  lemma {:induction false} CycleNotifiedSpec(t: Table, groups: seq<string>, digest: Payload -> string, s: Snapshot)
    ensures forall g :: g in CycleNotified(t, groups, digest, s)
                        <==> g in groups && Notifies(t, g, Current(digest, s, g))
    ensures Distinct(CycleNotified(t, groups, digest, s))
  {
    if |groups| > 0 {
      var n := |groups| - 1;
      var init := groups[..n];
      var g := groups[n];
      CycleNotifiedSpec(t, init, digest, s);
      CycleTableSpec(t, init, digest, s);
      assert groups == init + [g];
      var before := CycleTable(t, init, digest, s);
      var cur := Current(digest, s, g);
      if g in init {
        assert !Notifies(before, g, cur);
      } else {
        assert g in before ==> before[g] == t[g];
        assert Notifies(before, g, cur) == Notifies(t, g, cur);
      }
    }
  }

  /** The seeded table maps exactly the listed groups to their fresh digests. */
  lemma {:induction false} SeedSpec(groups: seq<string>, digest: Payload -> string, s: Snapshot)
    ensures forall g :: g in Seed(groups, digest, s) <==> g in groups
    ensures forall g :: g in Seed(groups, digest, s) ==> Seed(groups, digest, s)[g] == Current(digest, s, g)
  {
    if |groups| > 0 {
      var n := |groups| - 1;
      SeedSpec(groups[..n], digest, s);
      assert groups == groups[..n] + [groups[n]];
    }
  }

  /** When every listed group already holds its fresh digest, a cycle notifies nobody
      and writes nothing. */
  lemma {:induction false} CycleOfUpToDateTable(t: Table, groups: seq<string>, digest: Payload -> string, s: Snapshot)
    requires forall g :: g in groups ==> g in t && t[g] == Current(digest, s, g)
    ensures CycleTable(t, groups, digest, s) == t
    ensures CycleNotified(t, groups, digest, s) == []
  {
    if |groups| > 0 {
      var n := |groups| - 1;
      assert forall g :: g in groups[..n] ==> g in groups;
      CycleOfUpToDateTable(t, groups[..n], digest, s);
      assert groups[n] in groups;
    }
  }

  /** Seeding from a snapshot and then running a cycle on the same snapshot notifies
      nobody and leaves the table as seeded. */
  lemma SameSnapshotNotifiesNobody(groups: seq<string>, digest: Payload -> string, s: Snapshot)
    ensures CycleTable(Seed(groups, digest, s), groups, digest, s) == Seed(groups, digest, s)
    ensures CycleNotified(Seed(groups, digest, s), groups, digest, s) == []
  {
    SeedSpec(groups, digest, s);
    CycleOfUpToDateTable(Seed(groups, digest, s), groups, digest, s);
  }

  /** After a failed start-up read the table is empty, so the first successful cycle
      notifies nobody; it seeds the table exactly as a successful start-up would have. */
  lemma FirstCycleAfterFailedStart(groups: seq<string>, digest: Payload -> string, s: Snapshot)
    ensures CycleNotified(map[], groups, digest, s) == []
    ensures CycleTable(map[], groups, digest, s) == Seed(groups, digest, s)
  {
    NothingNotifiedFromEmpty(groups, digest, s);
    CycleTableSpec(map[], groups, digest, s);
    SeedSpec(groups, digest, s);
    var a, b := CycleTable(map[], groups, digest, s), Seed(groups, digest, s);
    assert a.Keys == b.Keys;
    assert forall g :: g in a ==> a[g] == b[g];
  }

  lemma {:induction false} NothingNotifiedFromEmpty(groups: seq<string>, digest: Payload -> string, s: Snapshot)
    ensures CycleNotified(map[], groups, digest, s) == []
  {
    if |groups| > 0 {
      var n := |groups| - 1;
      var g := groups[n];
      NothingNotifiedFromEmpty(groups[..n], digest, s);
      CycleTableSpec(map[], groups[..n], digest, s);
      assert !Notifies(CycleTable(map[], groups[..n], digest, s), g, Current(digest, s, g));
    }
  }

  /** Equal payloads give equal digests: a group whose data is the same in the
      snapshot its digest came from and in the fresh one is not notified. */
  lemma UnchangedGroupNotNotified(t: Table, groups: seq<string>, digest: Payload -> string,
                                  s0: Snapshot, s: Snapshot, g: string)
    requires g in t && t[g] == Current(digest, s0, g)
    requires PayloadOf(s0, g) == PayloadOf(s, g)
    ensures g !in CycleNotified(t, groups, digest, s)
    ensures g in CycleTable(t, groups, digest, s) && CycleTable(t, groups, digest, s)[g] == t[g]
  {
    CycleNotifiedSpec(t, groups, digest, s);
    CycleTableSpec(t, groups, digest, s);
  }
}
