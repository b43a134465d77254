/**
 * Broadcast fan-out: which subscribers a broadcast (`on_broadcast_text`) or a change
 * notification (`notify_subscribers`) goes to, and the send loop that counts the
 * deliveries. The subscription records are the data rows of the subs sheet (cell 0
 * the user id, cell 1 the group); a send outcome is an oracle, one boolean per
 * attempt.
 */
module Dispatch {
  import opened Wrappers
  import opened Text
  import opened Sorting
  import opened Config
  import opened Subscriptions

  /** Who a message is for: the subscribers of one group, or of any of a list of groups. */
  datatype Audience = OneGroup(group: string) | AnyOf(groups: seq<string>)

  predicate Reaches(a: Audience, g: string) {
    match a
    case OneGroup(x) => g == x
    case AnyOf(gs) => g in gs
  }

  /** The audience of a broadcast whose stored target is `grp`: that group when it is
      tracked, otherwise (`"both"`) every tracked group. */
  function BroadcastAudience(cfg: Config, grp: Option<string>): (a: Audience)
    ensures forall g :: Reaches(a, g) ==> g in cfg.groups
    ensures grp.Some? && grp.value in cfg.groups ==> a == OneGroup(grp.value)
    ensures !(grp.Some? && grp.value in cfg.groups) ==> forall g :: Reaches(a, g) <==> g in cfg.groups
  {
    if grp.Some? && grp.value in cfg.groups then OneGroup(grp.value) else AnyOf(cfg.groups)
  }

  /** `[int(r["user_id"]) for r in subs if <group test>]`: `None` when one of the
      selected user ids is not an integer (the comprehension raises). */
  function Ids(rows: Grid, a: Audience): Option<seq<int>> {
    if |rows| == 0 then Some([])
    else if !Reaches(a, Cell(rows[0], 1)) then Ids(rows[1..], a)
    else
      match ParseInt(Cell(rows[0], 0))
      case None => None
      case Some(id) =>
        match Ids(rows[1..], a)
        case None => None
        case Some(rest) => Some([id] + rest)
  }

  /** A record addressed to the audience, and its user id text. */
  predicate Addressed(rows: Grid, a: Audience, k: int) {
    0 <= k < |rows| && Reaches(a, Cell(rows[k], 1))
  }

  /** The targets: `sorted(set(...))` of the selected ids. */
  function Targets(rows: Grid, a: Audience): Option<seq<int>> {
    match Ids(rows, a)
    case None => None
    case Some(ids) => Some(SortedSet(ids))
  }

  /** The selection fails exactly when an addressed record's user id does not parse;
      otherwise it holds the ids of the addressed records and no others. */
  lemma {:induction false} IdsSpec(rows: Grid, a: Audience)
    ensures Ids(rows, a).None? <==> exists k :: Addressed(rows, a, k) && ParseInt(Cell(rows[k], 0)).None?
    ensures Ids(rows, a).Some? ==> |Ids(rows, a).value| <= |rows|
    ensures Ids(rows, a).Some? ==>
              forall x :: x in Ids(rows, a).value <==> exists k :: Addressed(rows, a, k) && ParseInt(Cell(rows[k], 0)) == Some(x)
  {
    IdsFailure(rows, a);
    IdsMembers(rows, a);
  }

  /** A record of `rows[1..]` is the next record of `rows`. */
  lemma AddressedInTail(rows: Grid, a: Audience, k: int)
    requires |rows| > 0
    ensures Addressed(rows[1..], a, k) <==> 1 <= k + 1 && Addressed(rows, a, k + 1)
    ensures 0 <= k < |rows| - 1 ==> rows[1..][k] == rows[k + 1]
  {
  }

  lemma {:induction false} IdsFailure(rows: Grid, a: Audience)
    ensures Ids(rows, a).None? <==> exists k :: Addressed(rows, a, k) && ParseInt(Cell(rows[k], 0)).None?
  {
    if |rows| > 0 {
      var tail := rows[1..];
      IdsFailure(tail, a);
      if exists k :: Addressed(tail, a, k) && ParseInt(Cell(tail[k], 0)).None? {
        var k :| Addressed(tail, a, k) && ParseInt(Cell(tail[k], 0)).None?;
        AddressedInTail(rows, a, k);
        assert Addressed(rows, a, k + 1) && ParseInt(Cell(rows[k + 1], 0)).None?;
      }
      if exists k :: Addressed(rows, a, k) && ParseInt(Cell(rows[k], 0)).None? {
        var k :| Addressed(rows, a, k) && ParseInt(Cell(rows[k], 0)).None?;
        if k > 0 {
          AddressedInTail(rows, a, k - 1);
          assert Addressed(tail, a, k - 1) && ParseInt(Cell(tail[k - 1], 0)).None?;
        }
      }
    }
  }

  lemma {:induction false} IdsMembers(rows: Grid, a: Audience)
    ensures Ids(rows, a).Some? ==> |Ids(rows, a).value| <= |rows|
    ensures Ids(rows, a).Some? ==>
              forall x :: x in Ids(rows, a).value <==> exists k :: Addressed(rows, a, k) && ParseInt(Cell(rows[k], 0)) == Some(x)
  {
    if |rows| > 0 && Ids(rows, a).Some? {
      var tail := rows[1..];
      IdsMembers(tail, a);
      var ids := Ids(rows, a).value;
      assert Ids(tail, a).Some?;
      var rest := Ids(tail, a).value;
      var head := Reaches(a, Cell(rows[0], 1));
      assert head ==> ids == [ParseInt(Cell(rows[0], 0)).value] + rest;
      assert !head ==> ids == rest;
      forall x | x in ids
        ensures exists k :: Addressed(rows, a, k) && ParseInt(Cell(rows[k], 0)) == Some(x)
      {
        if head && ParseInt(Cell(rows[0], 0)) == Some(x) {
          assert Addressed(rows, a, 0);
        } else {
          assert x in rest;
          var k :| Addressed(tail, a, k) && ParseInt(Cell(tail[k], 0)) == Some(x);
          AddressedInTail(rows, a, k);
          assert Addressed(rows, a, k + 1) && ParseInt(Cell(rows[k + 1], 0)) == Some(x);
        }
      }
      forall x, k | Addressed(rows, a, k) && ParseInt(Cell(rows[k], 0)) == Some(x)
        ensures x in ids
      {
        if k > 0 {
          AddressedInTail(rows, a, k - 1);
          assert Addressed(tail, a, k - 1) && ParseInt(Cell(tail[k - 1], 0)) == Some(x);
          assert x in rest;
        }
      }
    }
  }

  /** The targets are strictly increasing (so sorted and without duplicates), exactly
      the parsed ids of the addressed records, and never more than the records. */
  lemma TargetsSpec(rows: Grid, a: Audience)
    ensures Targets(rows, a).None? <==> exists k :: Addressed(rows, a, k) && ParseInt(Cell(rows[k], 0)).None?
    ensures Targets(rows, a).Some? ==>
              var t := Targets(rows, a).value;
              StrictlyIncreasing(t) && Distinct(t) && |t| <= |rows|
              && forall x :: x in t <==> exists k :: Addressed(rows, a, k) && ParseInt(Cell(rows[k], 0)) == Some(x)
  {
    IdsSpec(rows, a);
  }

  /** When nobody is addressed there are no targets, so nothing is sent. */
  lemma NobodyAddressed(rows: Grid, a: Audience)
    requires forall k :: 0 <= k < |rows| ==> !Reaches(a, Cell(rows[k], 1))
    ensures Targets(rows, a) == Some([])
  {
    IdsOfNobody(rows, a);
  }

  lemma {:induction false} IdsOfNobody(rows: Grid, a: Audience)
    requires forall k :: 0 <= k < |rows| ==> !Reaches(a, Cell(rows[k], 1))
    ensures Ids(rows, a) == Some([])
  {
    if |rows| > 0 {
      assert !Reaches(a, Cell(rows[0], 1));
      assert forall k :: 0 <= k < |rows| - 1 ==> rows[1..][k] == rows[k + 1];
      IdsOfNobody(rows[1..], a);
    }
  }

  /** `notify_subscribers` selects exactly as a broadcast to that one group does. */
  lemma NotifySelectsAsBroadcast(cfg: Config, rows: Grid, g: string)
    requires g in cfg.groups
    ensures Targets(rows, OneGroup(g)) == Targets(rows, BroadcastAudience(cfg, Some(g)))
  {
  }

  /** A `"both"` broadcast reaches the union of the tracked groups' subscribers. */
  lemma {:induction false} BothIsUnion(cfg: Config, rows: Grid, x: int)
    requires Targets(rows, BroadcastAudience(cfg, Some("both"))).Some?
    requires "both" !in cfg.groups
    ensures x in Targets(rows, BroadcastAudience(cfg, Some("both"))).value
            <==> exists g :: g in cfg.groups && Targets(rows, OneGroup(g)).Some? && x in Targets(rows, OneGroup(g)).value
  {
    var all := BroadcastAudience(cfg, Some("both"));
    TargetsSpec(rows, all);
    if x in Targets(rows, all).value {
      var k :| Addressed(rows, all, k) && ParseInt(Cell(rows[k], 0)) == Some(x);
      var g := Cell(rows[k], 1);
      TargetsSpec(rows, OneGroup(g));
      assert forall j :: Addressed(rows, OneGroup(g), j) ==> Addressed(rows, all, j);
      assert Addressed(rows, OneGroup(g), k);
    }
    if exists g :: g in cfg.groups && Targets(rows, OneGroup(g)).Some? && x in Targets(rows, OneGroup(g)).value {
      var g :| g in cfg.groups && Targets(rows, OneGroup(g)).Some? && x in Targets(rows, OneGroup(g)).value;
      TargetsSpec(rows, OneGroup(g));
      var k :| Addressed(rows, OneGroup(g), k) && ParseInt(Cell(rows[k], 0)) == Some(x);
      assert Addressed(rows, all, k);
    }
  }

  /** The number of successful sends in a run of outcomes. */
  function Delivered(outcomes: seq<bool>): nat {
    if |outcomes| == 0 then 0
    else Delivered(outcomes[..|outcomes| - 1]) + (if outcomes[|outcomes| - 1] then 1 else 0)
  }

  lemma {:induction false} DeliveredBounds(outcomes: seq<bool>)
    ensures Delivered(outcomes) <= |outcomes|
    ensures Delivered(outcomes) == |outcomes| <==> forall i :: 0 <= i < |outcomes| ==> outcomes[i]
    ensures Delivered(outcomes) == 0 <==> forall i :: 0 <= i < |outcomes| ==> !outcomes[i]
  {
    if |outcomes| > 0 {
      var n := |outcomes| - 1;
      DeliveredBounds(outcomes[..n]);
      assert forall i :: 0 <= i < n ==> outcomes[..n][i] == outcomes[i];
    }
  }

  /** The send loop of `on_broadcast_text`: every target is attempted, in order,
      whatever happened to the earlier ones; `outcomes[i]` says whether the `i`-th
      send succeeded. */
  method SendAll(targets: seq<int>, outcomes: seq<bool>) returns (ok: nat, fail: nat, attempted: seq<int>)
    requires |outcomes| >= |targets|
    ensures attempted == targets
    ensures ok == Delivered(outcomes[..|targets|])
    ensures ok + fail == |targets|
  {
    ok, fail, attempted := 0, 0, [];
    var i := 0;
    while i < |targets|
      invariant 0 <= i <= |targets|
      invariant attempted == targets[..i]
      invariant ok == Delivered(outcomes[..i])
      invariant ok + fail == i
    {
      assert outcomes[..i + 1][..i] == outcomes[..i];
      attempted := attempted + [targets[i]];
      if outcomes[i] {
        ok := ok + 1;
      } else {
        fail := fail + 1;
      }
      i := i + 1;
    }
    assert targets[..i] == targets;
  }
}
