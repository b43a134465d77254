/**
 * The subscription registry: the `subs` sheet as the grid of cell texts
 * `get_all_values` returns (row 1 the header `user_id, group, added_at`, then one
 * row per subscription), with the header repair run before every use, the
 * subscribe handler (`on_subs_add`), the row selection of the unsubscribe handler
 * (`on_subs_del`) and the deletion of the selected rows in descending index order
 * (`gs_clear_rows_by_indices`).
 */
module Subscriptions {
  import opened Text
  import opened Sorting
  import opened Config

  type Grid = seq<seq<string>>

  const Header: seq<string> := ["user_id", "group", "added_at"]

  /** Cell `i` of a row, empty when the row is shorter (`(row + [""] * k)[i]`). */
  function Cell(row: seq<string>, i: nat): string {
    if i < |row| then row[i] else ""
  }

  /** `ensure_subs_sheet_headers`: an empty sheet gets the header row; a sheet with a
      different first row has it replaced; a sheet with the right header is left alone. */
  function WithHeader(v: Grid): (w: Grid)
    ensures |w| >= 1 && w[0] == Header
    ensures |v| >= 1 ==> |w| == |v| && w[1..] == v[1..]
    ensures |v| >= 1 && v[0] == Header ==> w == v
    ensures |v| == 0 ==> w == [Header]
  {
    if |v| == 0 then [Header]
    else if v[0] != Header then [Header] + v[1..]
    else v
  }

  /** A data row (row 2 onwards) subscribing `user` to `group`. */
  predicate HasSubscription(v: Grid, user: string, group: string) {
    exists k :: 1 <= k < |v| && Cell(v[k], 0) == user && Cell(v[k], 1) == group
  }

  /** The row `on_subs_add` appends. */
  function SubscriptionRow(uid: int, group: string, now: string): seq<string> {
    [ShowInt(uid), group, now]
  }

  datatype SubscribeOutcome = InvalidGroup | AlreadySubscribed | Subscribed

  /** The sheet `on_subs_add` leaves for a tracked group, and its answer. */
  function SubscribeResult(v: Grid, uid: int, group: string, now: string): (r: (SubscribeOutcome, Grid)) {
    var w := WithHeader(v);
    if HasSubscription(w, ShowInt(uid), group) then (AlreadySubscribed, w)
    else (Subscribed, w + [SubscriptionRow(uid, group, now)])
  }

  /** The unsubscribe test of one row: its user matches and its group is the target,
      or the target is `"all"`. */
  predicate Matches(row: seq<string>, user: string, which: string) {
    Cell(row, 0) == user && (which == "all" || Cell(row, 1) == which)
  }

  /** The 1-based sheet indices `on_subs_del` collects, in increasing order: the data
      rows from `from` (0-based) on that match. */
  function SelectedFrom(v: Grid, user: string, which: string, from: nat): seq<int>
    requires from <= |v|
    decreases |v| - from
  {
    if from == |v| then []
    else (if Matches(v[from], user, which) then [from + 1] else []) + SelectedFrom(v, user, which, from + 1)
  }

  /** What `to_delete` holds at the end of the loop of `on_subs_del`. */
  function Selected(v: Grid, user: string, which: string): seq<int> {
    if |v| == 0 then [] else SelectedFrom(v, user, which, 1)
  }

  /** The rows of `v` whose 1-based index (counted from `base`) is not in `drop`. */
  function Keep<T>(v: seq<T>, drop: set<int>, base: int): seq<T> {
    if |v| == 0 then [] else (if base in drop then [] else [v[0]]) + Keep(v[1..], drop, base + 1)
  }

  /** The sheet once the rows at the given 1-based indices are gone. */
  function Without<T>(v: seq<T>, drop: set<int>): seq<T> {
    Keep(v, drop, 1)
  }

  /** The data rows that do not match, in order. */
  function Remaining(rows: Grid, user: string, which: string): Grid {
    if |rows| == 0 then []
    else (if Matches(rows[0], user, which) then [] else [rows[0]]) + Remaining(rows[1..], user, which)
  }

  /** The indices a list holds. */
  function IndexSet(s: seq<int>): set<int> {
    set k | k in s
  }

  predicate Descending(s: seq<int>) {
    forall i, j :: 0 <= i < j < |s| ==> s[i] > s[j]
  }

  /** `sorted(..., reverse=True)` on distinct integers: the key order `>=`. */
  predicate GreaterEq(a: int, b: int) {
    a >= b
  }

  /** The subs sheet. */
  class SubsSheet {
    var values: Grid

    constructor (values: Grid)
      ensures this.values == values
    {
      this.values := values;
    }

    /** `ensure_subs_sheet_headers`. */
    method EnsureHeaders()
      modifies this
      ensures values == WithHeader(old(values))
    {
      if |values| == 0 {
        values := [Header];
      } else if values[0] != Header {
        values := [Header] + values[1..];
      }
    }

    /** The duplicate check of `on_subs_add`: scans the records (the rows after the
        header) for this user and group. */
    method FindSubscription(user: string, group: string) returns (found: bool)
      ensures found == HasSubscription(values, user, group)
    {
      found := false;
      var k := 1;
      while k < |values|
        invariant 1 <= k <= |values| || (k == 1 && |values| == 0)
        invariant !exists j :: 1 <= j < k && j < |values| && Cell(values[j], 0) == user && Cell(values[j], 1) == group
      {
        if Cell(values[k], 0) == user && Cell(values[k], 1) == group {
          found := true;
          return;
        }
        k := k + 1;
      }
    }

    /** `on_subs_add`: an unknown group is refused without touching the sheet;
        otherwise the header is repaired and the row `[user, group, now]` is appended
        unless the user is already subscribed to the group. */
    method Subscribe(cfg: Config, uid: int, group: string, now: string) returns (outcome: SubscribeOutcome)
      modifies this
      ensures group !in cfg.groups ==> outcome == InvalidGroup && values == old(values)
      ensures group in cfg.groups ==> (outcome, values) == SubscribeResult(old(values), uid, group, now)
    {
      if group !in cfg.groups {
        return InvalidGroup;
      }
      EnsureHeaders();
      var found := FindSubscription(ShowInt(uid), group);
      if found {
        outcome := AlreadySubscribed;
      } else {
        values := values + [[ShowInt(uid), group, now]];
        outcome := Subscribed;
      }
    }

    /** The loop of `on_subs_del`: the 1-based indices of the data rows of this user
        for the target group (every group for `"all"`). */
    method SelectRows(user: string, which: string) returns (toDelete: seq<int>)
      ensures toDelete == Selected(values, user, which)
    {
      toDelete := [];
      if |values| == 0 {
        return;
      }
      var idx := 2;
      while idx <= |values|
        invariant 2 <= idx <= |values| + 1
        invariant toDelete + SelectedFrom(values, user, which, idx - 1) == SelectedFrom(values, user, which, 1)
      {
        var row := values[idx - 1];
        var uidCell := Cell(row, 0);
        var grp := Cell(row, 1);
        if uidCell == user && (which == "all" || grp == which) {
          toDelete := toDelete + [idx];
        }
        idx := idx + 1;
      }
    }

    /** `gs_clear_rows_by_indices`: deletes the rows one at a time, highest index
        first, so that every index still names the row it named before. */
    method ClearRows(indices: seq<int>)
      modifies this
      requires Distinct(indices)
      requires forall k :: k in indices ==> 1 <= k <= |values|
      ensures values == Without(old(values), IndexSet(indices))
    {
      var order := SortBy(indices, GreaterEq);
      SortedDescending(indices);
      ghost var v := values;
      WithoutNothing(v);
      assert IndexSet(order[..0]) == {};
      var j := 0;
      while j < |order|
        invariant 0 <= j <= |order|
        invariant values == Without(v, IndexSet(order[..j]))
        invariant forall x :: x in order ==> 1 <= x <= |v|
      {
        assert forall x :: x in IndexSet(order[..j]) ==> x > order[j];
        var idx := order[j];
        assert idx in order;
        DeleteStep(v, IndexSet(order[..j]), idx);
        assert IndexSet(order[..j + 1]) == IndexSet(order[..j]) + {idx} by {
          assert order[..j + 1] == order[..j] + [idx];
        }
        values := values[..idx - 1] + values[idx..];
        j := j + 1;
      }
      assert order[..j] == order;
      assert IndexSet(order) == IndexSet(indices);
    }

    /** `on_subs_del`: repair the header, select the rows, and delete them when there
        are any. Answers whether something was deleted. */
    method Unsubscribe(uid: int, which: string) returns (deleted: bool)
      modifies this
      ensures var w := WithHeader(old(values));
              values == Without(w, IndexSet(Selected(w, ShowInt(uid), which)))
      ensures deleted <==> Selected(WithHeader(old(values)), ShowInt(uid), which) != []
    {
      EnsureHeaders();
      var toDelete := SelectRows(ShowInt(uid), which);
      if toDelete == [] {
        WithoutNothing(values);
        assert IndexSet(toDelete) == {};
        return false;
      }
      SelectedSpec(values, ShowInt(uid), which);
      ClearRows(toDelete);
      return true;
    }
  }

  /** `sorted(indices, reverse=True)` on distinct indices is strictly decreasing and
      holds the same indices. */
  lemma SortedDescending(indices: seq<int>)
    requires Distinct(indices)
    ensures var order := SortBy(indices, GreaterEq);
            Descending(order) && Distinct(order) && (forall k :: k in order <==> k in indices)
  {
    assert TotalPreorder(GreaterEq);
    SortByIsStableSort(indices, GreaterEq);
    SortByDistinct(indices, GreaterEq);
    var order := SortBy(indices, GreaterEq);
    assert forall k :: k in order <==> k in multiset(indices);
  }

  lemma {:induction false} KeepAppend<T>(a: seq<T>, b: seq<T>, drop: set<int>, base: int)
    ensures Keep(a + b, drop, base) == Keep(a, drop, base) + Keep(b, drop, base + |a|)
  {
    if |a| > 0 {
      KeepAppend(a[1..], b, drop, base + 1);
      assert (a + b)[1..] == a[1..] + b;
    } else {
      assert a + b == b;
    }
  }

  lemma {:induction false} KeepUntouched<T>(v: seq<T>, drop: set<int>, base: int)
    requires forall k :: k in drop ==> k < base || k >= base + |v|
    ensures Keep(v, drop, base) == v
  {
    if |v| > 0 {
      KeepUntouched(v[1..], drop, base + 1);
      assert [v[0]] + v[1..] == v;
    }
  }

  lemma {:induction false} KeepIgnoresBelow<T>(v: seq<T>, drop: set<int>, x: int, base: int)
    requires x < base
    ensures Keep(v, drop + {x}, base) == Keep(v, drop, base)
  {
    if |v| > 0 {
      KeepIgnoresBelow(v[1..], drop, x, base + 1);
    }
  }

  /** Deleting row `k` (1-based) of a sheet from which only rows above `k` were
      removed removes original row `k`. */
  lemma DeleteStep<T>(v: seq<T>, drop: set<int>, k: int)
    requires 1 <= k <= |v|
    requires forall x :: x in drop ==> x > k
    ensures var c := Without(v, drop);
            k <= |c| && c[..k - 1] + c[k..] == Without(v, drop + {k})
  {
    var pre, row, post := v[..k - 1], v[k - 1], v[k..];
    assert v == pre + ([row] + post);
    KeepAppend(pre, [row] + post, drop, 1);
    KeepAppend(pre, [row] + post, drop + {k}, 1);
    KeepUntouched(pre, drop, 1);
    KeepUntouched(pre, drop + {k}, 1);
    assert Keep([row] + post, drop, k) == [row] + Keep(post, drop, k + 1);
    assert Keep([row] + post, drop + {k}, k) == Keep(post, drop + {k}, k + 1);
    KeepIgnoresBelow(post, drop, k, k + 1);
    var c := Without(v, drop);
    assert c == pre + [row] + Keep(post, drop, k + 1);
    assert c[..k - 1] == pre && c[k..] == Keep(post, drop, k + 1);
  }

  lemma WithoutNothing<T>(v: seq<T>)
    ensures Without(v, {}) == v
  {
    KeepUntouched(v, {}, 1);
  }

  /** The selection holds exactly the 1-based indices of the matching data rows, in
      increasing order. */
  lemma {:induction false} SelectedFromSpec(v: Grid, user: string, which: string, from: nat)
    requires from <= |v|
    decreases |v| - from
    ensures forall k :: k in SelectedFrom(v, user, which, from)
                        <==> from + 1 <= k <= |v| && Matches(v[k - 1], user, which)
    ensures forall i, j :: 0 <= i < j < |SelectedFrom(v, user, which, from)|
                        ==> SelectedFrom(v, user, which, from)[i] < SelectedFrom(v, user, which, from)[j]
  {
    if from < |v| {
      SelectedFromSpec(v, user, which, from + 1);
      var rest := SelectedFrom(v, user, which, from + 1);
      assert forall i :: 0 <= i < |rest| ==> rest[i] in rest;
    }
  }

  /** `on_subs_del` selects exactly the matching data rows (index 2 onwards), each once,
      in increasing order, all of them within the sheet. */
  lemma SelectedSpec(v: Grid, user: string, which: string)
    ensures forall k :: k in Selected(v, user, which) <==> 2 <= k <= |v| && Matches(v[k - 1], user, which)
    ensures forall i, j :: 0 <= i < j < |Selected(v, user, which)|
                        ==> Selected(v, user, which)[i] < Selected(v, user, which)[j]
    ensures Distinct(Selected(v, user, which))
  {
    if |v| > 0 {
      SelectedFromSpec(v, user, which, 1);
    }
  }

  lemma {:induction false} KeepSelected(rows: Grid, user: string, which: string, base: int)
    ensures Keep(rows, IndexSet(SelectedIndices(rows, user, which, base)), base) == Remaining(rows, user, which)
  {
    if |rows| > 0 {
      KeepSelected(rows[1..], user, which, base + 1);
      var all := IndexSet(SelectedIndices(rows, user, which, base));
      var rest := IndexSet(SelectedIndices(rows[1..], user, which, base + 1));
      SelectedIndicesBounds(rows[1..], user, which, base + 1);
      assert all == (if Matches(rows[0], user, which) then {base} else {}) + rest;
      if Matches(rows[0], user, which) {
        KeepIgnoresBelow(rows[1..], rest, base, base + 1);
      } else {
        assert base !in all;
      }
      assert Keep(rows[1..], all, base + 1) == Keep(rows[1..], rest, base + 1) by {
        if Matches(rows[0], user, which) {
          assert all == rest + {base};
        } else {
          assert all == rest;
        }
      }
    }
  }

  /** The matching indices of `rows`, counted from `base`. */
  function SelectedIndices(rows: Grid, user: string, which: string, base: int): seq<int> {
    if |rows| == 0 then []
    else (if Matches(rows[0], user, which) then [base] else []) + SelectedIndices(rows[1..], user, which, base + 1)
  }

  lemma {:induction false} SelectedIndicesBounds(rows: Grid, user: string, which: string, base: int)
    ensures forall k :: k in SelectedIndices(rows, user, which, base) ==> base <= k < base + |rows|
  {
    if |rows| > 0 {
      SelectedIndicesBounds(rows[1..], user, which, base + 1);
    }
  }

  lemma {:induction false} SelectedFromIsIndices(v: Grid, user: string, which: string, from: nat)
    requires from <= |v|
    ensures SelectedFrom(v, user, which, from) == SelectedIndices(v[from..], user, which, from + 1)
    decreases |v| - from
  {
    if from < |v| {
      SelectedFromIsIndices(v, user, which, from + 1);
      assert v[from..][1..] == v[from + 1..];
    }
  }

  /** Unsubscribing keeps the header and exactly the data rows that do not match, in
      their original order. */
  lemma UnsubscribeKeepsTheRest(v: Grid, user: string, which: string)
    requires |v| >= 1
    ensures Without(v, IndexSet(Selected(v, user, which))) == [v[0]] + Remaining(v[1..], user, which)
  {
    var drop := IndexSet(Selected(v, user, which));
    SelectedFromIsIndices(v, user, which, 1);
    SelectedIndicesBounds(v[1..], user, which, 2);
    assert v == [v[0]] + v[1..];
    KeepAppend([v[0]], v[1..], drop, 1);
    assert 1 !in drop;
    assert Keep([v[0]], drop, 1) == [v[0]];
    KeepSelected(v[1..], user, which, 2);
  }

  /** After subscribing, the user is subscribed to the group, and subscribing again
      (at any later time) appends nothing and answers that the subscription exists. */
  lemma SubscribeIdempotent(v: Grid, uid: int, group: string, now: string, later: string)
    ensures HasSubscription(SubscribeResult(v, uid, group, now).1, ShowInt(uid), group)
    ensures var v1 := SubscribeResult(v, uid, group, now).1;
            SubscribeResult(v1, uid, group, later) == (AlreadySubscribed, v1)
  {
    var w := WithHeader(v);
    var v1 := SubscribeResult(v, uid, group, now).1;
    if !HasSubscription(w, ShowInt(uid), group) {
      assert v1[|w|] == SubscriptionRow(uid, group, now);
      assert Cell(v1[|w|], 0) == ShowInt(uid) && Cell(v1[|w|], 1) == group;
    }
    assert v1[0] == Header;
    assert WithHeader(v1) == v1;
  }

  /** Subscribing appends at most one row and never changes the data rows already there. */
  lemma SubscribeKeepsRows(v: Grid, uid: int, group: string, now: string)
    requires |v| >= 1
    ensures var v1 := SubscribeResult(v, uid, group, now).1;
            v1[1..|v|] == v[1..]
            && (|v1| == |v| || (|v1| == |v| + 1 && v1[|v|] == SubscriptionRow(uid, group, now)))
  {
  }
}
