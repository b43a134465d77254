/**
 * The process configuration: the tracked groups (GROUPS), the administrators
 * (ADMINS) and the super-administrators (SUPERADMINS). It is read once at start-up
 * and then passed, unchanged, to every component.
 */
module Config {
  import opened Wrappers
  import opened Text

  datatype Config = Config(groups: seq<string>, admins: set<int>, superadmins: set<int>)

  /** `is_admin`: an administrator or a super-administrator. */
  predicate IsAdmin(cfg: Config, uid: int) {
    uid in cfg.admins || uid in cfg.superadmins
  }

  /** `is_superadmin`. */
  predicate IsSuperadmin(cfg: Config, uid: int) {
    uid in cfg.superadmins
  }

  /** Every super-administrator is an administrator; an id in neither set is not one. */
  lemma SuperadminIsAdmin(cfg: Config, uid: int)
    ensures IsSuperadmin(cfg, uid) ==> IsAdmin(cfg, uid)
    ensures IsAdmin(cfg, uid) <==> uid in cfg.admins + cfg.superadmins
  {
  }

  /** The id one comma-separated piece contributes: none when the stripped piece is
      empty or is not an integer. */
  function PieceId(piece: string): Option<int> {
    var p := Trim(piece);
    if p == "" then None else ParseInt(p)
  }

  /** What `parse_id_list(raw)` returns: the ids contributed by the comma-separated pieces. */
  function IdList(raw: string): set<int> {
    var pieces := Split(raw, ',');
    IdsBefore(pieces, |pieces|)
  }

  /** The ids contributed by the first `i` pieces. */
  function IdsBefore(pieces: seq<string>, i: nat): set<int>
    requires i <= |pieces|
  {
    set k | 0 <= k < i && PieceId(pieces[k]).Some? :: PieceId(pieces[k]).value
  }

  lemma IdsBeforeStep(pieces: seq<string>, i: nat)
    requires i < |pieces|
    ensures IdsBefore(pieces, i + 1)
         == IdsBefore(pieces, i) + (if PieceId(pieces[i]).Some? then {PieceId(pieces[i]).value} else {})
  {
  }

  /** `parse_id_list`: split on commas, skip blank and non-integer pieces. */
  method ParseIdList(raw: string) returns (ids: set<int>)
    ensures ids == IdList(raw)
  {
    var pieces := Split(raw, ',');
    ids := {};
    var i := 0;
    while i < |pieces|
      invariant 0 <= i <= |pieces|
      invariant ids == IdsBefore(pieces, i)
    {
      IdsBeforeStep(pieces, i);
      var p := Trim(pieces[i]);
      if p != "" {
        var v := ParseInt(p);
        if v.Some? {
          ids := ids + {v.value};
        }
      }
      i := i + 1;
    }
  }

  /** The decimal texts of a list of ids. */
  function ShowInts(xs: seq<int>): (r: seq<string>)
    ensures |r| == |xs| && forall i :: 0 <= i < |xs| ==> r[i] == ShowInt(xs[i])
  {
    seq(|xs|, i requires 0 <= i < |xs| => ShowInt(xs[i]))
  }

  lemma PieceIdOfShowInt(n: int)
    ensures PieceId(ShowInt(n)) == Some(n)
  {
    var s := ShowInt(n);
    assert IsTrimmed(s) by {
      assert !IsSpace(s[0]) && !IsSpace(s[|s| - 1]);
    }
    TrimOfTrimmed(s);
    ParseShowInt(n);
  }

  /** Writing ids out comma-separated and parsing the text back gives the same set. */
  lemma IdListRoundTrip(xs: seq<int>)
    ensures IdList(Join(ShowInts(xs), ',')) == set n | n in xs
  {
    var texts := ShowInts(xs);
    var pieces := Split(Join(texts, ','), ',');
    if |xs| == 0 {
      assert pieces == [""];
      assert PieceId("") == None;
    } else {
      forall i | 0 <= i < |texts| ensures ',' !in texts[i] {
        ShowIntHasNo(xs[i], ',');
      }
      SplitJoin(texts, ',');
      assert pieces == texts;
      IdsOfShownInts(xs);
    }
  }

  /** The ids the decimal texts of `xs` contribute are the elements of `xs`. */
  lemma IdsOfShownInts(xs: seq<int>)
    ensures IdsBefore(ShowInts(xs), |xs|) == set n | n in xs
  {
    var texts := ShowInts(xs);
    forall i | 0 <= i < |texts| ensures PieceId(texts[i]) == Some(xs[i]) {
      PieceIdOfShowInt(xs[i]);
    }
    forall n | n in xs ensures n in IdsBefore(texts, |xs|) {
      var k :| 0 <= k < |xs| && xs[k] == n;
      assert PieceId(texts[k]) == Some(n);
    }
  }
}
