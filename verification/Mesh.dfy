/** Auto mesh: processes join and leave the mesh of one service. Joins and leaves are taken one after the other, but
    every API call is a step of its own, and every call may be refused, or take effect and still be reported as failed.
    */
module Mesh {
  import opened Text
  import opened Calls
  import opened RouterPod

  datatype Selector = Original | ToRouter(tag: nat)

  /** The router program's configuration; without versions the proxy has no route at all. */
  datatype Conf = Conf(header: string, versions: seq<string>)

  datatype Router = Router(tag: nat, refs: int, conf: Option<Conf>)

  datatype Mark = Mark(header: string, version: string)

  /** What the process wrote into opt.Store, for its own cleanup. */
  datatype Store = Store(router: bool, origin: bool, service: bool, shadow: bool)

  const NOTHING := Store(false, false, false, false)
  const EVERYTHING := Store(true, true, true, true)

  /** The next call of the process that is joining or leaving. */
  datatype Phase =
    // AutoMesh
    | CheckName | MakeStuntman | MakeShadowService | MakeRouter | Setup | AddVersion | Switch | MakeShadowPod
    // CleanupWorkspace
    | FindRouter | ReadCount | CountDown | Restore(last: bool) | DropStuntman(last: bool) | DropRouter | RemoveVersion
    | DropShadowService | DropShadowPod

  datatype Session = Session(id: nat, mark: Mark, store: Store, phase: Phase) {
    /** Counted in the router's reference count. */
    predicate Claims() {
      match phase
      case Setup => true
      case AddVersion => true
      case Restore(last) => store.router && last
      case DropStuntman(last) => store.router && last
      case RemoveVersion => false
      case DropShadowService => false
      case DropShadowPod => false
      case _ => store.router
    }

    /** Its version is in the router's configuration. */
    predicate Lists() {
      store.router && !phase.DropShadowService? && !phase.DropShadowPod?
    }

    predicate OwnsService() {
      store.service && !phase.DropShadowPod?
    }
  }

  datatype World = World(
    selector: Selector, saved: Option<Selector>, stuntman: Option<Selector>,
    shadowServices: set<string>, shadowPods: set<string>, router: Option<Router>,
    joined: map<nat, Mark>, failed: map<nat, (Mark, Store)>, active: Option<Session>)

  datatype Step =
    | Join(id: nat, mark: Mark)
    | Leave(id: nat)
    | Advance(outcome: Outcome, tag: nat)

  function Fail(w: World, s: Session): World {
    w.(failed := w.failed[s.id := (s.mark, s.store)], active := None)
  }

  /** On with the next call if this one was reported as done, otherwise AutoMesh returns the error. */
  function Continue(w: World, s: Session, next: Session, outcome: Outcome): World {
    if outcome.Done? then w.(active := Some(next)) else Fail(w, s)
  }

  function JoinNext(w: World, s: Session, outcome: Outcome, tag: nat): World
    requires IsJoining(s.phase)
  {
    var version := s.mark.version;
    match s.phase
    case CheckName =>
      // Refused: a pod that cannot be read counts as absent; Lost: an earlier pod of the name does not finish
      // terminating
      if outcome.Lost? || (outcome.Done? && version in w.shadowPods) then Fail(w, s)
      else w.(active := Some(s.(phase := MakeStuntman)))
    case MakeStuntman =>
      if w.stuntman.Some? then Continue(w, s, s.(phase := MakeShadowService), outcome)
      else if w.saved.Some? || w.selector != Original then Fail(w, s)
      else
        var w' := if outcome.Happened() then w.(stuntman := Some(w.selector)) else w;
        Continue(w', s, s.(phase := MakeShadowService), outcome)
    case MakeShadowService =>
      if version in w.shadowServices then Fail(w, s)
      else
        var w' := if outcome.Happened() then w.(shadowServices := w.shadowServices + {version}) else w;
        Continue(w', s, s.(phase := MakeRouter, store := s.store.(service := true)), outcome)
    case MakeRouter =>
      if w.router.None? then
        var w' := if outcome.Happened() then w.(router := Some(Router(tag, 1, None))) else w;
        Continue(w', s, s.(phase := Setup), outcome)
      else
        var r := w.router.value;
        var w' := if outcome.Happened() then w.(router := Some(r.(refs := r.refs + 1))) else w;
        Continue(w', s, s.(phase := AddVersion), outcome)
    case Setup =>
      if w.router.None? then Fail(w, s)
      else
        var r := w.router.value.(conf := Some(Conf(s.mark.header, [version])));
        var w' := if outcome.Happened() then w.(router := Some(r)) else w;
        Continue(w', s, s.(phase := Switch, store := s.store.(router := true)), outcome)
    case AddVersion =>
      if w.router.None? || Reconfigured(w.router.value, s.mark, Action.Add).None? then Fail(w, s)
      else
        var w' := if outcome.Happened() then w.(router := Reconfigured(w.router.value, s.mark, Action.Add)) else w;
        Continue(w', s, s.(phase := Switch, store := s.store.(router := true)), outcome)
    case Switch =>
      if w.router.None? || (w.saved.None? && w.selector != Original) then Fail(w, s)
      else
        var saved := if w.saved.Some? then w.saved else Some(w.selector);
        var w' := if outcome.Happened() then w.(selector := ToRouter(w.router.value.tag), saved := saved) else w;
        Continue(w', s, s.(phase := MakeShadowPod, store := s.store.(origin := true)), outcome)
    case MakeShadowPod =>
      // the name is recorded before the pod is created
      var stored := s.(store := s.store.(shadow := true));
      if version in w.shadowPods then Fail(w, stored)
      else
        var w' := if outcome.Happened() then w.(shadowPods := w.shadowPods + {version}) else w;
        if outcome.Done? then w'.(joined := w'.joined[s.id := s.mark], active := None) else Fail(w', stored)
  }

  /** The router program's add and remove; None if it fails. */
  function Reconfigured(r: Router, mark: Mark, action: Action): Option<Router> {
    if r.conf.None? then None
    else match Updated(r.conf.value.header, r.conf.value.versions, mark.header, mark.version, action)
      case None => None
      case Some(versions) => Some(r.(conf := Some(r.conf.value.(versions := versions))))
  }

  function LeaveNext(w: World, s: Session, outcome: Outcome): World
    requires !IsJoining(s.phase)
  {
    match s.phase
    case FindRouter =>
      if !s.store.router then w.(active := Some(s.(phase := DropShadowService)))
      else if outcome.Done? && w.router.Some? then w.(active := Some(s.(phase := ReadCount)))
      else if s.store.origin then w.(active := Some(s.(phase := Restore(false))))
      else w.(active := Some(s.(phase := DropShadowService)))
    case ReadCount =>
      if outcome.Done? && w.router.Some? then w.(active := Some(s.(phase := CountDown)))
      else w.(active := Some(s.(phase := DropShadowService)))
    case CountDown =>
      if w.router.None? then w.(active := Some(s.(phase := DropShadowService)))
      else if w.router.value.refs == 1 then w.(active := Some(s.(phase := Restore(true))))
      else
        // a failed update is not reported
        var r := w.router.value;
        var w' := if outcome.Happened() then w.(router := Some(r.(refs := r.refs - 1))) else w;
        w'.(active := Some(s.(phase := RemoveVersion)))
    case Restore(last) =>
      var w' := if outcome.Happened() && w.saved.Some? then w.(selector := w.saved.value, saved := None) else w;
      w'.(active := Some(s.(phase := DropStuntman(last))))
    case DropStuntman(last) =>
      var w' := if outcome.Happened() then w.(stuntman := None) else w;
      w'.(active := Some(s.(phase := if last then DropRouter else DropShadowService)))
    case DropRouter =>
      var w' := if outcome.Happened() then w.(router := None) else w;
      w'.(active := Some(s.(phase := DropShadowService)))
    case RemoveVersion =>
      var w' :=
        if outcome.Happened() && w.router.Some? && Reconfigured(w.router.value, s.mark, Action.Remove).Some?
        then w.(router := Reconfigured(w.router.value, s.mark, Action.Remove)) else w;
      w'.(active := Some(s.(phase := DropShadowService)))
    case DropShadowService =>
      var w' :=
        if outcome.Happened() && s.store.service then w.(shadowServices := w.shadowServices - {s.mark.version}) else w;
      w'.(active := Some(s.(phase := DropShadowPod)))
    case DropShadowPod =>
      var w' := if outcome.Happened() && s.store.shadow then w.(shadowPods := w.shadowPods - {s.mark.version}) else w;
      w'.(active := None)
  }

  predicate IsJoining(phase: Phase) {
    || phase.CheckName? || phase.MakeStuntman? || phase.MakeShadowService? || phase.MakeRouter? || phase.Setup?
    || phase.AddVersion? || phase.Switch? || phase.MakeShadowPod?
  }

  /** One step; None when it is not enabled. */
  function Apply(w: World, step: Step): Option<World> {
    match step
    case Join(id, mark) =>
      if w.active.Some? || id in w.joined || id in w.failed then None
      else Some(w.(active := Some(Session(id, mark, NOTHING, CheckName))))
    case Leave(id) =>
      if w.active.Some? then None
      else if id in w.joined then
        Some(w.(joined := w.joined - {id}, active := Some(Session(id, w.joined[id], EVERYTHING, FindRouter))))
      else if id in w.failed then
        Some(w.(failed := w.failed - {id}, active := Some(Session(id, w.failed[id].0, w.failed[id].1, FindRouter))))
      else None
    case Advance(outcome, tag) =>
      if w.active.None? then None
      else if IsJoining(w.active.value.phase) then Some(JoinNext(w, w.active.value, outcome, tag))
      else Some(LeaveNext(w, w.active.value, outcome))
  }

  function Run(w: World, steps: seq<Step>): Option<World> {
    if steps == [] then Some(w)
    else match Run(w, steps[..|steps| - 1])
      case None => None
      case Some(v) => Apply(v, steps[|steps| - 1])
  }

  /** A service that nobody has meshed. */
  const UNTOUCHED := World(Original, None, None, {}, {}, None, map[], map[], None)

  // ----- what a call does to the cluster -----

  /** What is stored in the cluster. */
  function Shared(w: World): World {
    w.(joined := map[], failed := map[], active := None)
  }

  function AfterCall(w: World, outcome: Outcome): World
    requires w.active.Some?
  {
    Apply(w, Advance(outcome, 0)).value
  }

  lemma RefusedJoin(w: World, s: Session, tag: nat)
    requires IsJoining(s.phase)
    ensures Shared(JoinNext(w, s, Refused, tag)) == Shared(w)
  {
    hide Reconfigured;
  }

  lemma LostJoin(w: World, s: Session, tag: nat)
    requires IsJoining(s.phase)
    ensures Shared(JoinNext(w, s, Lost, tag)) == Shared(JoinNext(w, s, Done, tag))
  {
    hide Reconfigured;
  }

  lemma RefusedLeave(w: World, s: Session)
    requires !IsJoining(s.phase)
    ensures Shared(LeaveNext(w, s, Refused)) == Shared(w)
  {
    hide Reconfigured;
  }

  lemma LostLeave(w: World, s: Session)
    requires !IsJoining(s.phase)
    ensures Shared(LeaveNext(w, s, Lost)) == Shared(LeaveNext(w, s, Done))
  {
    hide Reconfigured;
  }

  /** A refused call changes nothing in the cluster, and one whose reply is lost the same as one that is reported. */
  lemma OutcomeDecides(w: World, tag: nat)
    requires w.active.Some?
    ensures Shared(Apply(w, Advance(Refused, tag)).value) == Shared(w)
    ensures Shared(Apply(w, Advance(Lost, tag)).value) == Shared(Apply(w, Advance(Done, tag)).value)
  {
    var s := w.active.value;
    if IsJoining(s.phase) {
      RefusedJoin(w, s, tag);
      LostJoin(w, s, tag);
    } else {
      RefusedLeave(w, s);
      LostLeave(w, s);
    }
    hide JoinNext, LeaveNext, Shared, IsJoining;
  }

  /** A join whose shadow service or shadow pod is there already fails, and does not record them as its own. */
  lemma TakenNameFails(w: World, outcome: Outcome)
    requires w.active.Some?
    requires var s := w.active.value;
             || (s.phase.MakeShadowService? && s.mark.version in w.shadowServices)
             || (s.phase.MakeShadowPod? && s.mark.version in w.shadowPods)
    ensures var s, after := w.active.value, AfterCall(w, outcome);
            && Shared(after) == Shared(w) && after.active.None? && after.joined == w.joined
            && s.id in after.failed && after.failed[s.id].0 == s.mark && after.failed[s.id].1.service == s.store.service
  {
  }

  /** Without the router pod, a session that had switched the service still gives it back. */
  lemma RouterGone(w: World)
    requires w.active.Some? && w.active.value.phase.FindRouter? && w.active.value.store.router && w.router.None?
    ensures var after := AfterCall(AfterCall(AfterCall(w, Done), Done), Done);
            var origin := w.active.value.store.origin;
            && after.selector == (if origin && w.saved.Some? then w.saved.value else w.selector)
            && after.stuntman == if origin then None else w.stuntman
  {
  }

  /** A session that cannot read the count leaves the router alone. */
  lemma UnreadCountStays(w: World, outcome: Outcome)
    requires w.active.Some? && w.active.value.phase.ReadCount? && !outcome.Done?
    ensures var after := AfterCall(AfterCall(w, outcome), Done);
            after.router == w.router && after.selector == w.selector
  {
  }

  // ----- the reference count covers all sessions, whatever fails -----

  function RecordedFailures(w: World): set<nat> {
    set id | id in w.failed && w.failed[id].1.router
  }

  /** The sessions that recorded the router, or are just being counted. */
  function Claimants(w: World): nat {
    |w.joined| + |RecordedFailures(w)| + if w.active.Some? && w.active.value.Claims() then 1 else 0
  }

  /** What is known of the router while a session is at a phase. */
  predicate PhaseFits(s: Session, router: Option<Router>) {
    match s.phase
    case Setup => !s.store.router && router.Some?
    case AddVersion => !s.store.router && router.Some?
    case Switch => s.store.router && router.Some?
    case MakeShadowPod => s.store.router && router.Some?
    case ReadCount => s.store.router && router.Some?
    case CountDown => s.store.router && router.Some?
    case Restore(last) => last ==> s.store.router && router.Some? && router.value.refs == 1
    case DropStuntman(last) => last ==> s.store.router && router.Some? && router.value.refs == 1
    case DropRouter => s.store.router && router.Some? && router.value.refs == 1
    case RemoveVersion => router.Some?
    case DropShadowService => true
    case DropShadowPod => true
    case FindRouter => true
    case _ => !s.store.router
  }

  ghost predicate Counted(w: World) {
    && (w.router.None? ==> Claimants(w) == 0)
    && (w.router.Some? ==> w.router.value.refs >= 1 && w.router.value.refs >= Claimants(w))
    && w.joined.Keys !! w.failed.Keys
    && (w.active.Some? ==> w.active.value.id !in w.joined && w.active.value.id !in w.failed)
    && (w.active.Some? ==> PhaseFits(w.active.value, w.router))
  }

  lemma FailedRecord(w: World, s: Session)
    requires s.id !in w.failed
    ensures |RecordedFailures(Fail(w, s))| == |RecordedFailures(w)| + if s.store.router then 1 else 0
  {
    assert RecordedFailures(Fail(w, s)) == RecordedFailures(w) + if s.store.router then {s.id} else {};
  }

  lemma FailedForget(w: World, id: nat)
    requires id in w.failed
    ensures |RecordedFailures(w.(failed := w.failed - {id}))| ==
            |RecordedFailures(w)| - if w.failed[id].1.router then 1 else 0
  {
    assert RecordedFailures(w.(failed := w.failed - {id})) == RecordedFailures(w) - {id};
  }

  lemma FailCounts(w: World, router: Option<Router>, s: Session)
    requires Counted(w) && w.active.Some? && s.id == w.active.value.id
    requires var others := |w.joined| + |RecordedFailures(w)| + if s.store.router then 1 else 0;
             if router.None? then others == 0 else router.value.refs >= 1 && router.value.refs >= others
    ensures forall v: World :: v.failed == w.failed && v.joined == w.joined && v.router == router
                               ==> Counted(Fail(v, s))
  {
    forall v: World | v.failed == w.failed && v.joined == w.joined && v.router == router
      ensures Counted(Fail(v, s))
    {
      SameFailures(v, w);
      FailedRecord(v, s);
    }
  }

  /** The active session at another phase, over a router with room for it. */
  lemma MoveCounts(w: World, v: World, next: Session)
    requires Counted(w) && w.active.Some? && next.id == w.active.value.id
    requires v.failed == w.failed && v.joined == w.joined && v.active == Some(next)
    requires PhaseFits(next, v.router)
    requires var all := |w.joined| + |RecordedFailures(w)| + if next.Claims() then 1 else 0;
             if v.router.None? then all == 0 else v.router.value.refs >= 1 && v.router.value.refs >= all
    ensures Counted(v)
    ensures v.router.None? ==> Claimants(v) == 0
  {
    SameFailures(v, w);
  }

  lemma ContinueCounts(w: World, v: World, s: Session, next: Session, outcome: Outcome)
    requires Counted(w) && w.active.Some? && s.id == next.id == w.active.value.id
    requires v.failed == w.failed && v.joined == w.joined
    requires outcome.Done? ==> PhaseFits(next, v.router)
    requires var claims := if outcome.Done? then next.Claims() else s.store.router;
             var all := |w.joined| + |RecordedFailures(w)| + if claims then 1 else 0;
             if v.router.None? then all == 0 else v.router.value.refs >= 1 && v.router.value.refs >= all
    ensures Counted(Continue(v, s, next, outcome))
  {
    if outcome.Done? {
      MoveCounts(w, v.(active := Some(next)), next);
    } else {
      FailCounts(w, v.router, s);
    }
  }

  lemma ReconfiguredKeepsCount(r: Router, mark: Mark, action: Action)
    ensures var r' := Reconfigured(r, mark, action);
            r'.Some? ==> r'.value.refs == r.refs && r'.value.tag == r.tag && r'.value.conf.Some?
  {
    hide Updated;
  }

  lemma EarlyJoinCounts(w: World, s: Session, outcome: Outcome, tag: nat)
    requires Counted(w) && w.active == Some(s)
    requires s.phase.CheckName? || s.phase.MakeStuntman? || s.phase.MakeShadowService?
    ensures Counted(JoinNext(w, s, outcome, tag))
  {
    RouterHasRoom(w, s);
    hide Counted, RecordedFailures;
    FailCounts(w, w.router, s);
    if s.phase.CheckName? {
      ContinueCounts(w, w, s, s.(phase := MakeStuntman), Done);
    } else if s.phase.MakeStuntman? {
      var w' := if w.stuntman.None? && outcome.Happened() then w.(stuntman := Some(w.selector)) else w;
      ContinueCounts(w, w', s, s.(phase := MakeShadowService), outcome);
    } else {
      var w' := if outcome.Happened() then w.(shadowServices := w.shadowServices + {s.mark.version}) else w;
      ContinueCounts(w, w', s, s.(phase := MakeRouter, store := s.store.(service := true)), outcome);
    }
  }

  lemma RouterCounts(w: World, s: Session, outcome: Outcome, tag: nat)
    requires Counted(w) && w.active == Some(s)
    requires s.phase.MakeRouter? || s.phase.Setup? || s.phase.AddVersion?
    ensures Counted(JoinNext(w, s, outcome, tag))
  {
    RouterHasRoom(w, s);
    hide Counted, RecordedFailures, Reconfigured;
    FailCounts(w, w.router, s);
    var after := w.(router := JoinNext(w, s, outcome, tag).router);
    if s.phase.MakeRouter? {
      if after.router.Some? {
        ContinueCounts(w, after, s, s.(phase := if w.router.None? then Setup else AddVersion), outcome);
      }
    } else {
      if s.phase.AddVersion? {
        ReconfiguredKeepsCount(w.router.value, s.mark, Action.Add);
      }
      ContinueCounts(w, after, s, s.(phase := Switch, store := s.store.(router := true)), outcome);
    }
  }

  lemma SwitchCounts(w: World, s: Session, outcome: Outcome, tag: nat)
    requires Counted(w) && w.active == Some(s) && s.phase.Switch?
    ensures Counted(JoinNext(w, s, outcome, tag))
  {
    RouterHasRoom(w, s);
    hide Counted, RecordedFailures;
    FailCounts(w, w.router, s);
    var after := JoinNext(w, s, outcome, tag);
    ContinueCounts(w, w.(selector := after.selector, saved := after.saved), s,
                   s.(phase := MakeShadowPod, store := s.store.(origin := true)), outcome);
  }

  lemma JoinCounts(w: World, s: Session, outcome: Outcome, tag: nat)
    requires Counted(w) && w.active == Some(s) && IsJoining(s.phase)
    ensures Counted(JoinNext(w, s, outcome, tag))
  {
    hide Counted, JoinNext;
    if s.phase.CheckName? || s.phase.MakeStuntman? || s.phase.MakeShadowService? {
      EarlyJoinCounts(w, s, outcome, tag);
    } else if s.phase.Switch? {
      SwitchCounts(w, s, outcome, tag);
    } else if s.phase.MakeShadowPod? {
      MakeShadowPodCounts(w, s, outcome, tag);
    } else {
      RouterCounts(w, s, outcome, tag);
    }
  }

  lemma MakeShadowPodCounts(w: World, s: Session, outcome: Outcome, tag: nat)
    requires Counted(w) && w.active == Some(s) && s.phase.MakeShadowPod?
    ensures Counted(JoinNext(w, s, outcome, tag))
  {
    hide RecordedFailures;
    FailCounts(w, w.router, s.(store := s.store.(shadow := true)));
    SameFailures(w, JoinNext(w, s, outcome, tag));
  }

  lemma SameFailures(v: World, w: World)
    ensures v.failed == w.failed ==> RecordedFailures(v) == RecordedFailures(w)
  {
  }

  lemma LeaveCounts(w: World, s: Session, outcome: Outcome)
    requires Counted(w) && w.active == Some(s) && !IsJoining(s.phase)
    ensures Counted(LeaveNext(w, s, outcome))
    ensures w.router.Some? && LeaveNext(w, s, outcome).router.None? ==> Claimants(LeaveNext(w, s, outcome)) == 0
  {
    var v := LeaveNext(w, s, outcome);
    RouterHasRoom(w, s);
    LeaveMoves(w, s, outcome);
    hide Counted, RecordedFailures, LeaveNext, PhaseFits;
    if s.phase.DropShadowPod? {
      DoneCounts(w, v);
    } else {
      MoveCounts(w, v, v.active.value);
    }
  }

  /** What a leaving session's call may do to the count. */
  predicate Moves(w: World, s: Session, v: World) {
    && v.failed == w.failed && v.joined == w.joined
    && v.active.None? == s.phase.DropShadowPod?
    && (v.active.Some? ==> PhaseFits(v.active.value, v.router) && v.active.value.id == s.id)
    && (v.active.None? ==> v.router == w.router && !s.Claims())
    && var after := v.active.Some? && v.active.value.Claims();
       match (w.router, v.router)
       case (None, None) => after ==> s.Claims()
       case (None, Some(_)) => false
       case (Some(r), None) => r.refs == 1 && s.Claims() && !after
       case (Some(r), Some(r')) =>
         || (r'.refs == r.refs && (after ==> s.Claims()))
         || (r'.refs == r.refs - 1 && r.refs != 1 && s.Claims() && !after)
  }

  lemma LeaveMoves(w: World, s: Session, outcome: Outcome)
    requires w.active == Some(s) && !IsJoining(s.phase) && PhaseFits(s, w.router)
    ensures Moves(w, s, LeaveNext(w, s, outcome))
  {
    hide LeaveNext, Moves, PhaseFits;
    if s.phase.FindRouter? || s.phase.ReadCount? || s.phase.CountDown? {
      CountMoves(w, s, outcome);
    } else if s.phase.Restore? || s.phase.DropStuntman? || s.phase.DropRouter? {
      RestoreMoves(w, s, outcome);
    } else {
      DropMoves(w, s, outcome);
    }
  }

  lemma CountMoves(w: World, s: Session, outcome: Outcome)
    requires w.active == Some(s) && PhaseFits(s, w.router)
    requires s.phase.FindRouter? || s.phase.ReadCount? || s.phase.CountDown?
    ensures Moves(w, s, LeaveNext(w, s, outcome))
  {
  }

  lemma RestoreMoves(w: World, s: Session, outcome: Outcome)
    requires w.active == Some(s) && PhaseFits(s, w.router)
    requires s.phase.Restore? || s.phase.DropStuntman? || s.phase.DropRouter?
    ensures Moves(w, s, LeaveNext(w, s, outcome))
  {
  }

  lemma DropMoves(w: World, s: Session, outcome: Outcome)
    requires w.active == Some(s) && PhaseFits(s, w.router)
    requires s.phase.RemoveVersion? || s.phase.DropShadowService? || s.phase.DropShadowPod?
    ensures Moves(w, s, LeaveNext(w, s, outcome))
  {
    hide Reconfigured;
    if w.router.Some? {
      ReconfiguredKeepsCount(w.router.value, s.mark, Action.Remove);
    }
  }

  lemma RouterHasRoom(w: World, s: Session)
    requires Counted(w) && w.active == Some(s)
    ensures PhaseFits(s, w.router)
    ensures var all := |w.joined| + |RecordedFailures(w)| + if s.Claims() then 1 else 0;
            if w.router.None? then all == 0 else w.router.value.refs >= 1 && w.router.value.refs >= all
  {
  }

  lemma DoneCounts(w: World, v: World)
    requires Counted(w) && w.active.Some? && !w.active.value.Claims()
    requires v.failed == w.failed && v.joined == w.joined && v.router == w.router && v.active.None?
    ensures Counted(v)
  {
    SameFailures(v, w);
  }

  lemma StartedCounts(w: World, v: World, s: Session, claims: bool)
    requires Counted(w) && w.active.None? && v.router == w.router && v.active == Some(s)
    requires v.joined.Keys <= w.joined.Keys && v.failed.Keys <= w.failed.Keys && s.id !in v.joined && s.id !in v.failed
    requires |v.joined| + |RecordedFailures(v)| + (if claims then 1 else 0) == |w.joined| + |RecordedFailures(w)|
    requires s.Claims() ==> claims
    requires PhaseFits(s, w.router)
    ensures Counted(v)
  {
    hide RecordedFailures, PhaseFits;
  }

  lemma StartCounts(w: World, step: Step)
    requires Counted(w) && !step.Advance? && Apply(w, step).Some?
    ensures Counted(Apply(w, step).value) && Apply(w, step).value.router == w.router
  {
    var v := Apply(w, step).value;
    SameFailures(w, v);
    if step.Join? {
      StartedCounts(w, v, v.active.value, false);
    } else if step.id in w.joined {
      assert v.joined.Keys == w.joined.Keys - {step.id} && |v.joined| == |v.joined.Keys|;
      StartedCounts(w, v, v.active.value, true);
    } else {
      FailedForget(w, step.id);
      SameFailures(w.(failed := w.failed - {step.id}), v);
      StartedCounts(w, v, v.active.value, w.failed[step.id].1.router);
    }
    hide Counted, RecordedFailures;
  }

  lemma StepCounts(w: World, step: Step)
    requires Counted(w) && Apply(w, step).Some?
    ensures Counted(Apply(w, step).value)
    ensures w.router.Some? && Apply(w, step).value.router.None? ==> Claimants(Apply(w, step).value) == 0
  {
    hide RecordedFailures, JoinNext, LeaveNext;
    if !step.Advance? {
      StartCounts(w, step);
    } else if IsJoining(w.active.value.phase) {
      JoinCounts(w, w.active.value, step.outcome, step.tag);
    } else {
      LeaveCounts(w, w.active.value, step.outcome);
    }
  }

  /** In every reachable state, failed calls included, a live router counts at least the sessions that recorded it; so
      it is removed only when the leaver is the last of them. */
  lemma {:induction false} CountCoversSessions(steps: seq<Step>)
    requires Run(UNTOUCHED, steps).Some?
    ensures Counted(Run(UNTOUCHED, steps).value)
  {
    if steps != [] {
      CountCoversSessions(steps[..|steps| - 1]);
      StepCounts(Run(UNTOUCHED, steps[..|steps| - 1]).value, steps[|steps| - 1]);
    }
  }
}
