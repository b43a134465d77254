/**
 * The per-user conversation state: the selected group (`on_pick_group`, read back by
 * `ensure_group`, wiped by `/start`, `/group` and the menu's change-group button)
 * and the broadcast state machine (`cmd_broadcast`, `on_broadcast_flow`,
 * `cmd_cancel`, `on_broadcast_text`). A session is the FSM state plus its data;
 * `state.clear()` wipes both, the selected group included.
 */
module Conversation {
  import opened Wrappers
  import opened Text
  import opened Config
  import opened Subscriptions
  import opened Dispatch
  import opened Sorting

  datatype Stage = Idle | WaitGroup | WaitText

  datatype Session = Session(stage: Stage, group: Option<string>, broadcastGroup: Option<string>, broadcastText: Option<string>)

  /** A session after `state.clear()`, and the session of a user never seen. */
  const Cleared: Session := Session(Idle, None, None, None)

  /** A broadcast target `on_broadcast_flow` accepts. */
  predicate ValidTarget(cfg: Config, grp: string) {
    grp in cfg.groups || grp == "both"
  }

  /** What every reachable session satisfies: a selected group is tracked, and waiting
      for the text means a valid target is recorded. */
  predicate Coherent(cfg: Config, s: Session) {
    (s.group.Some? ==> s.group.value in cfg.groups)
    && (s.stage == WaitText ==> s.broadcastGroup.Some? && ValidTarget(cfg, s.broadcastGroup.value))
  }

  /** `on_pick_group`: an unknown group is refused; a tracked one is recorded and the
      FSM state is left as it was. */
  function PickGroup(cfg: Config, s: Session, group: string): (r: Session)
    ensures r.stage == s.stage && r.broadcastGroup == s.broadcastGroup
    ensures r.group == if group in cfg.groups then Some(group) else s.group
  {
    if group in cfg.groups then s.(group := Some(group)) else s
  }

  /** `ensure_group`: the selected group, unless there is none (or it is empty), in
      which case the handler asks for one and stops. */
  function SelectedGroup(s: Session): (r: Option<string>)
    ensures r.Some? <==> s.group.Some? && s.group.value != ""
    ensures r.Some? ==> r == s.group
  {
    if s.group.Some? && s.group.value != "" then s.group else None
  }

  /** `cmd_broadcast`: refused for a non-admin; for an admin it enters `WaitGroup` and
      resets the broadcast target and text, keeping the selected group. */
  function Broadcast(cfg: Config, uid: int, s: Session): (r: Session)
    ensures !IsAdmin(cfg, uid) ==> r == s
    ensures IsAdmin(cfg, uid) ==> r == Session(WaitGroup, s.group, None, None)
  {
    if !IsAdmin(cfg, uid) then s
    else s.(stage := WaitGroup, broadcastGroup := None, broadcastText := None)
  }

  /** The broadcast button of the admin panel (`on_admin_panel`, action `broadcast`)
      as written: after checking the presser it forwards the panel message to
      `cmd_broadcast`, and the author of that message is the bot, so the admin check
      there sees `botId`. */
  function PanelBroadcastAsWritten(cfg: Config, botId: int, uid: int, s: Session): Session {
    if !IsAdmin(cfg, uid) then s else Broadcast(cfg, botId, s)
  }

  /** Unless the bot's own id is listed as an admin, an admin pressing the button is
      refused and stays where they were, while `/broadcast` would have started. */
  lemma PanelBroadcastRefusesAdmins(cfg: Config, botId: int, uid: int, s: Session)
    requires IsAdmin(cfg, uid) && !IsAdmin(cfg, botId)
    ensures PanelBroadcastAsWritten(cfg, botId, uid, s) == s
    ensures Broadcast(cfg, uid, s).stage == WaitGroup
  {
  }

  lemma PanelBroadcastCounterexample()
    ensures var cfg := Config(["10", "11"], {1}, {});
            PanelBroadcastAsWritten(cfg, 2, 1, Cleared) == Cleared
            && Broadcast(cfg, 1, Cleared) == Session(WaitGroup, None, None, None)
  {
  }

  /** The button as intended: the presser's own id is checked, so pressing it is
      `/broadcast`. */
  function PanelBroadcast(cfg: Config, uid: int, s: Session): (r: Session)
    ensures r == Broadcast(cfg, uid, s)
    ensures IsAdmin(cfg, uid) ==> r.stage == WaitGroup
  {
    if !IsAdmin(cfg, uid) then s else Broadcast(cfg, uid, s)
  }

  /** The callback data of `on_broadcast_flow`: `broadcast:cancel`,
      `broadcast:grp:<target>`, or any other action. */
  datatype FlowAction = FlowCancel | FlowTarget(grp: string) | FlowOther

  /** `on_broadcast_flow`: refused for a non-admin; cancel clears; a valid target moves
      to `WaitText` and records it; an invalid target or another action changes nothing. */
  function BroadcastFlow(cfg: Config, uid: int, s: Session, act: FlowAction): (r: Session)
    ensures r == s || r == Cleared || (r.stage == WaitText && r.group == s.group)
    ensures r.stage == WaitText && s.stage != WaitText ==>
              IsAdmin(cfg, uid) && act.FlowTarget? && ValidTarget(cfg, act.grp) && r.broadcastGroup == Some(act.grp)
    ensures act.FlowTarget? && !ValidTarget(cfg, act.grp) ==> r == s
    ensures IsAdmin(cfg, uid) && act == FlowCancel ==> r == Cleared
    ensures IsAdmin(cfg, uid) && act.FlowTarget? && ValidTarget(cfg, act.grp) ==>
              r == s.(stage := WaitText, broadcastGroup := Some(act.grp))
    ensures !IsAdmin(cfg, uid) || act == FlowOther ==> r == s
  {
    if !IsAdmin(cfg, uid) then s
    else
      match act
      case FlowCancel => Cleared
      case FlowTarget(grp) =>
        if !ValidTarget(cfg, grp) then s else s.(stage := WaitText, broadcastGroup := Some(grp))
      case FlowOther => s
  }

  /** `cmd_cancel`: clears while a broadcast is being prepared, otherwise a no-op. */
  function Cancel(s: Session): (r: Session)
    ensures s.stage == WaitGroup || s.stage == WaitText ==> r == Cleared
    ensures s.stage == Idle ==> r == s
  {
    if s.stage == WaitGroup || s.stage == WaitText then Cleared else s
  }

  /** What `on_broadcast_text` answers. `Ignored`: the session is not waiting for a
      text, so the handler is not the one the message is routed to. */
  datatype TextReply =
    | Ignored
    | NotAdmin
    | EmptyText
    | ReadError
    | NoSubscribers
    | Sent(ok: nat, fail: nat, attempted: seq<int>)

  /** An oracle long enough for every possible target: there are never more targets
      than subscription records. */
  predicate OracleCovers(records: Option<Grid>, outcomes: seq<bool>) {
    records.Some? ==> |outcomes| >= |records.value|
  }

  /** `on_broadcast_text`, with `records` the subscription records (`None` when the
      read raised) and `outcomes` the send oracle. */
  function BroadcastText(cfg: Config, uid: int, s: Session, text: string, records: Option<Grid>, outcomes: seq<bool>): (Session, TextReply)
    requires OracleCovers(records, outcomes)
  {
    if s.stage != WaitText then (s, Ignored)
    else if !IsAdmin(cfg, uid) then (Cleared, NotAdmin)
    else if Trim(text) == "" then (s, EmptyText)
    else if records.None? then (Cleared, ReadError)
    else
      var a := BroadcastAudience(cfg, s.broadcastGroup);
      TargetsSpec(records.value, a);
      match Targets(records.value, a)
      case None => (Cleared, ReadError)
      case Some(t) =>
        if t == [] then (Cleared, NoSubscribers)
        else
          var ok := Delivered(outcomes[..|t|]);
          DeliveredBounds(outcomes[..|t|]);
          (Cleared, Sent(ok, |t| - ok, t))
  }

  /** The broadcast text handler keeps the session only when it does not apply or the
      text is blank; every other exit, the errors included, clears it. A send goes to
      every target once, in increasing id order, and the tally adds up. */
  lemma BroadcastTextSpec(cfg: Config, uid: int, s: Session, text: string, records: Option<Grid>, outcomes: seq<bool>)
    requires OracleCovers(records, outcomes)
    ensures var (r, reply) := BroadcastText(cfg, uid, s, text, records, outcomes);
            (reply == Ignored <==> s.stage != WaitText)
            && (reply == Ignored || reply == EmptyText ==> r == s)
            && (reply != Ignored && reply != EmptyText ==> r == Cleared)
            && (reply == EmptyText ==> IsAdmin(cfg, uid) && Trim(text) == "")
            && (reply.NotAdmin? <==> s.stage == WaitText && !IsAdmin(cfg, uid))
    ensures var reply := BroadcastText(cfg, uid, s, text, records, outcomes).1;
            reply.Sent? ==>
              records.Some?
              && Targets(records.value, BroadcastAudience(cfg, s.broadcastGroup)) == Some(reply.attempted)
              && reply.attempted != []
              && Distinct(reply.attempted)
              && reply.ok + reply.fail == |reply.attempted|
              && |reply.attempted| <= |outcomes|
              && reply.ok == Delivered(outcomes[..|reply.attempted|])
    ensures s.stage == WaitText && IsAdmin(cfg, uid) && Trim(text) == "" ==>
              BroadcastText(cfg, uid, s, text, records, outcomes) == (s, EmptyText)
    ensures s.stage == WaitText && IsAdmin(cfg, uid) && Trim(text) != "" ==>
              var reply := BroadcastText(cfg, uid, s, text, records, outcomes).1;
              var a := BroadcastAudience(cfg, s.broadcastGroup);
              (records.None? ==> reply == ReadError)
              && (records.Some? && Targets(records.value, a).None? ==> reply == ReadError)
              && (records.Some? && Targets(records.value, a) == Some([]) ==> reply == NoSubscribers)
              && (records.Some? && Targets(records.value, a).Some? && Targets(records.value, a).value != [] ==>
                    reply.Sent? && reply.attempted == Targets(records.value, a).value)
    ensures var reply := BroadcastText(cfg, uid, s, text, records, outcomes).1;
            reply == NoSubscribers ==> records.Some? && Targets(records.value, BroadcastAudience(cfg, s.broadcastGroup)) == Some([])
  {
    if records.Some? {
      TargetsSpec(records.value, BroadcastAudience(cfg, s.broadcastGroup));
    }
  }

  /** One user's event, as the router delivers it. */
  datatype Event =
    | Start
    | ChangeGroup
    | Pick(group: string)
    | BroadcastCmd
    | PanelButton
    | Flow(act: FlowAction)
    | CancelCmd
    | Text(text: string, records: Option<Grid>, outcomes: seq<bool>)

  predicate Feasible(e: Event) {
    e.Text? ==> OracleCovers(e.records, e.outcomes)
  }

  /** The session after one event, and the user ids messaged by it. `/start`,
      `/group` and the menu's change-group button all clear the session. */
  function Apply(cfg: Config, uid: int, s: Session, e: Event): (Session, seq<int>)
    requires Feasible(e)
  {
    match e
    case Start => (Cleared, [])
    case ChangeGroup => (Cleared, [])
    case Pick(g) => (PickGroup(cfg, s, g), [])
    case BroadcastCmd => (Broadcast(cfg, uid, s), [])
    case PanelButton => (PanelBroadcast(cfg, uid, s), [])
    case Flow(act) => (BroadcastFlow(cfg, uid, s, act), [])
    case CancelCmd => (Cancel(s), [])
    case Text(text, records, outcomes) =>
      var (r, reply) := BroadcastText(cfg, uid, s, text, records, outcomes);
      (r, if reply.Sent? then reply.attempted else [])
  }

  /** The session after a run of events, and every user id messaged, in order. */
  function Run(cfg: Config, uid: int, s: Session, es: seq<Event>): (Session, seq<int>)
    requires forall i :: 0 <= i < |es| ==> Feasible(es[i])
    decreases |es|
  {
    if |es| == 0 then (s, [])
    else
      var (r, sent) := Apply(cfg, uid, s, es[0]);
      var (t, more) := Run(cfg, uid, r, es[1..]);
      (t, sent + more)
  }

  /** Every handler keeps a session coherent. */
  lemma ApplyKeepsCoherent(cfg: Config, uid: int, s: Session, e: Event)
    requires Feasible(e)
    requires Coherent(cfg, s)
    ensures Coherent(cfg, Apply(cfg, uid, s, e).0)
  {
  }

  lemma {:induction false} RunKeepsCoherent(cfg: Config, uid: int, s: Session, es: seq<Event>)
    requires forall i :: 0 <= i < |es| ==> Feasible(es[i])
    requires Coherent(cfg, s)
    ensures Coherent(cfg, Run(cfg, uid, s, es).0)
    decreases |es|
  {
    if |es| > 0 {
      ApplyKeepsCoherent(cfg, uid, s, es[0]);
      RunKeepsCoherent(cfg, uid, Apply(cfg, uid, s, es[0]).0, es[1..]);
    }
  }

  /** A user who is not an admin and holds no broadcast in progress can never start
      one: whatever they do, their session stays `Idle` and nobody is messaged. */
  lemma {:induction false} NonAdminNeverBroadcasts(cfg: Config, uid: int, s: Session, es: seq<Event>)
    requires forall i :: 0 <= i < |es| ==> Feasible(es[i])
    requires !IsAdmin(cfg, uid) && s.stage == Idle
    ensures Run(cfg, uid, s, es).0.stage == Idle
    ensures Run(cfg, uid, s, es).1 == []
    decreases |es|
  {
    if |es| > 0 {
      var r := Apply(cfg, uid, s, es[0]);
      assert r.0.stage == Idle && r.1 == [];
      NonAdminNeverBroadcasts(cfg, uid, r.0, es[1..]);
    }
  }

  /** The whole admin flow: `/broadcast`, a valid target, then a non-blank text
      messages exactly the targets of that audience and leaves the session cleared. */
  lemma CompleteBroadcast(cfg: Config, uid: int, s: Session, grp: string, text: string, records: Grid, outcomes: seq<bool>)
    requires IsAdmin(cfg, uid) && ValidTarget(cfg, grp) && Trim(text) != ""
    requires |outcomes| >= |records|
    requires Targets(records, BroadcastAudience(cfg, Some(grp))).Some?
    ensures var es := [BroadcastCmd, Flow(FlowTarget(grp)), Text(text, Some(records), outcomes)];
            Run(cfg, uid, s, es) == (Cleared, Targets(records, BroadcastAudience(cfg, Some(grp))).value)
  {
    var e0, e1, e2 := BroadcastCmd, Flow(FlowTarget(grp)), Text(text, Some(records), outcomes);
    var s1 := Broadcast(cfg, uid, s);
    var s2 := BroadcastFlow(cfg, uid, s1, FlowTarget(grp));
    assert s2.stage == WaitText && s2.broadcastGroup == Some(grp);
    calc {
      Run(cfg, uid, s, [e0, e1, e2]);
    == { SilentStep(cfg, uid, s, e0, [e1, e2]); assert [e0] + [e1, e2] == [e0, e1, e2]; }
      Run(cfg, uid, s1, [e1, e2]);
    == { SilentStep(cfg, uid, s1, e1, [e2]); assert [e1] + [e2] == [e1, e2]; }
      Run(cfg, uid, s2, [e2]);
    == { LastText(cfg, uid, s2, text, records, outcomes); }
      (Cleared, Targets(records, BroadcastAudience(cfg, Some(grp))).value);
    }
  }

  /** A non-blank text from an admin waiting for it messages the targets and clears. */
  lemma LastText(cfg: Config, uid: int, s: Session, text: string, records: Grid, outcomes: seq<bool>)
    requires s.stage == WaitText && IsAdmin(cfg, uid) && Trim(text) != ""
    requires |outcomes| >= |records|
    requires Targets(records, BroadcastAudience(cfg, s.broadcastGroup)).Some?
    ensures Run(cfg, uid, s, [Text(text, Some(records), outcomes)])
            == (Cleared, Targets(records, BroadcastAudience(cfg, s.broadcastGroup)).value)
  {
    var e := Text(text, Some(records), outcomes);
    var t := Targets(records, BroadcastAudience(cfg, s.broadcastGroup)).value;
    BroadcastTextSpec(cfg, uid, s, text, Some(records), outcomes);
    assert Apply(cfg, uid, s, e) == (Cleared, t);
    RunStep(cfg, uid, s, [e]);
    assert [e][1..] == [] && t + [] == t;
  }

  /** An event other than a text messages nobody and only moves the session on. */
  lemma SilentStep(cfg: Config, uid: int, s: Session, e: Event, rest: seq<Event>)
    requires !e.Text? && forall i :: 0 <= i < |rest| ==> Feasible(rest[i])
    ensures Run(cfg, uid, s, [e] + rest) == Run(cfg, uid, Apply(cfg, uid, s, e).0, rest)
  {
    var es := [e] + rest;
    assert Apply(cfg, uid, s, e).1 == [];
    assert es[0] == e && es[1..] == rest;
    RunStep(cfg, uid, s, es);
    assert [] + Run(cfg, uid, Apply(cfg, uid, s, e).0, rest).1 == Run(cfg, uid, Apply(cfg, uid, s, e).0, rest).1;
  }

  /** A run is its first event followed by the rest. */
  lemma RunStep(cfg: Config, uid: int, s: Session, es: seq<Event>)
    requires |es| > 0 && forall i :: 0 <= i < |es| ==> Feasible(es[i])
    ensures var (r, sent) := Apply(cfg, uid, s, es[0]);
            Run(cfg, uid, s, es) == (Run(cfg, uid, r, es[1..]).0, sent + Run(cfg, uid, r, es[1..]).1)
  {
  }

  /** Cancelling twice is cancelling once. */
  lemma CancelIdempotent(s: Session)
    ensures Cancel(Cancel(s)) == Cancel(s)
    ensures Cancel(s) == Cleared || Cancel(s) == s
  {
  }

  /** The group guard after picking: a tracked group is what `ensure_group` then
      returns, and after `/start` it asks again. */
  lemma GroupGuard(cfg: Config, s: Session, g: string)
    requires Coherent(cfg, s)
    ensures SelectedGroup(s).Some? ==> SelectedGroup(s).value in cfg.groups
    ensures g in cfg.groups && g != "" ==> SelectedGroup(PickGroup(cfg, s, g)) == Some(g)
    ensures SelectedGroup(Cleared) == None
  {
  }

  /** `sessions` with `uid`'s session replaced, written only when it changed. */
  function Stored(m: map<int, Session>, uid: int, s: Session): map<int, Session> {
    if SessionIn(m, uid) == s then m else m[uid := s]
  }

  function SessionIn(m: map<int, Session>, uid: int): Session {
    if uid in m then m[uid] else Cleared
  }

  /** The FSM storage: one session per user. */
  class Conversations {
    const cfg: Config
    var sessions: map<int, Session>

    ghost predicate Valid()
      reads this
    {
      forall u :: u in sessions ==> Coherent(cfg, sessions[u])
    }

    constructor (cfg: Config)
      ensures this.cfg == cfg && sessions == map[] && Valid()
    {
      this.cfg := cfg;
      sessions := map[];
    }

    function SessionOf(uid: int): Session
      reads this
    {
      SessionIn(sessions, uid)
    }

    method Store(uid: int, s: Session)
      modifies this
      requires Valid() && Coherent(cfg, s)
      ensures Valid()
      ensures sessions == Stored(old(sessions), uid, s)
    {
      if SessionOf(uid) != s {
        sessions := sessions[uid := s];
      }
    }

    /** `start_cmd`, `cmd_group` and the `menu:change_group` branch of `on_menu`. */
    method OnStart(uid: int)
      modifies this
      requires Valid()
      ensures Valid()
      ensures sessions == Stored(old(sessions), uid, Cleared)
    {
      Store(uid, Cleared);
    }

    /** `on_pick_group`. */
    method OnPickGroup(uid: int, group: string)
      modifies this
      requires Valid()
      ensures Valid()
      ensures sessions == Stored(old(sessions), uid, PickGroup(cfg, old(SessionOf(uid)), group))
    {
      var s := SessionOf(uid);
      if group !in cfg.groups {
        return;
      }
      Store(uid, s.(group := Some(group)));
    }

    /** `ensure_group`. */
    method EnsureGroup(uid: int) returns (group: Option<string>)
      requires Valid()
      ensures group == SelectedGroup(SessionOf(uid))
      ensures group.Some? ==> group.value in cfg.groups
    {
      var s := SessionOf(uid);
      if s.group.None? || s.group.value == "" {
        return None;
      }
      return s.group;
    }

    /** `cmd_broadcast`. */
    method OnBroadcast(uid: int)
      modifies this
      requires Valid()
      ensures Valid()
      ensures sessions == Stored(old(sessions), uid, Broadcast(cfg, uid, old(SessionOf(uid))))
    {
      if !IsAdmin(cfg, uid) {
        return;
      }
      var s := SessionOf(uid);
      Store(uid, s.(stage := WaitGroup, broadcastGroup := None, broadcastText := None));
    }

    /** `on_broadcast_flow`. */
    method OnBroadcastFlow(uid: int, act: FlowAction)
      modifies this
      requires Valid()
      ensures Valid()
      ensures sessions == Stored(old(sessions), uid, BroadcastFlow(cfg, uid, old(SessionOf(uid)), act))
    {
      if !IsAdmin(cfg, uid) {
        return;
      }
      var s := SessionOf(uid);
      match act
      case FlowCancel =>
        Store(uid, Cleared);
      case FlowTarget(grp) =>
        if grp in cfg.groups || grp == "both" {
          Store(uid, s.(stage := WaitText, broadcastGroup := Some(grp)));
        }
      case FlowOther =>
    }

    /** `cmd_cancel`. */
    method OnCancel(uid: int)
      modifies this
      requires Valid()
      ensures Valid()
      ensures sessions == Stored(old(sessions), uid, Cancel(old(SessionOf(uid))))
    {
      var s := SessionOf(uid);
      if s.stage == WaitGroup || s.stage == WaitText {
        Store(uid, Cleared);
      }
    }

    /** `on_broadcast_text`: resolves the targets, sends to each of them through the
        oracle, and clears the session on every exit but a blank text. */
    method OnBroadcastText(uid: int, text: string, records: Option<Grid>, outcomes: seq<bool>) returns (reply: TextReply)
      modifies this
      requires Valid()
      requires OracleCovers(records, outcomes)
      ensures Valid()
      ensures reply == BroadcastText(cfg, uid, old(SessionOf(uid)), text, records, outcomes).1
      ensures sessions == Stored(old(sessions), uid, BroadcastText(cfg, uid, old(SessionOf(uid)), text, records, outcomes).0)
    {
      var s := SessionOf(uid);
      if s.stage != WaitText {
        return Ignored;
      }
      if !IsAdmin(cfg, uid) {
        Store(uid, Cleared);
        return NotAdmin;
      }
      var body := Trim(text);
      if body == "" {
        return EmptyText;
      }
      if records.None? {
        Store(uid, Cleared);
        return ReadError;
      }
      var a := BroadcastAudience(cfg, s.broadcastGroup);
      TargetsSpec(records.value, a);
      var targets := Targets(records.value, a);
      if targets.None? {
        Store(uid, Cleared);
        return ReadError;
      }
      if targets.value == [] {
        Store(uid, Cleared);
        return NoSubscribers;
      }
      var ok, fail, attempted := SendAll(targets.value, outcomes);
      Store(uid, Cleared);
      reply := Sent(ok, fail, attempted);
    }
  }
}
