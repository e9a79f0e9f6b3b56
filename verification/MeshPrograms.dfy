/** AutoMesh and the cleanup after it, as procedures that change the cluster and opt.Store call by call: every execution
    is a run of the state machine of module Mesh, so its laws hold for them. */
module MeshPrograms {
  import opened Text
  import opened Calls
  import opened RouterPod
  import opened Mesh
  import opened MeshTraffic

  predicate AllDone(steps: seq<Step>) {
    forall step | step in steps :: step.Advance? ==> step.outcome.Done?
  }

  /** Nobody joins with another header than that of the router that is there. */
  predicate JoinsFit(steps: seq<Step>) {
    steps != [] ==>
      && JoinsFit(steps[..|steps| - 1])
      && var before, last := Run(UNTOUCHED, steps[..|steps| - 1]), steps[|steps| - 1];
         before.Some? && last.Join? ==> HeaderFits(before.value, last.mark.header)
  }

  /** Unmarked requests are served between any two calls, also in the middle of the procedures. */
  ghost predicate ServedThroughout(steps: seq<Step>) {
    forall k | 0 <= k <= |steps| :: Run(UNTOUCHED, steps[..k]).Some? && Served(Run(UNTOUCHED, steps[..k]).value)
  }

  lemma {:induction false} DoneRunIsSmooth(steps: seq<Step>)
    requires AllDone(steps) && JoinsFit(steps)
    ensures SmoothRun(steps)
  {
    if steps != [] {
      DoneRunIsSmooth(steps[..|steps| - 1]);
    }
  }

  lemma {:induction false} DoneRunIsServed(steps: seq<Step>)
    requires Run(UNTOUCHED, steps).Some? && SmoothRun(steps)
    ensures ServedThroughout(steps)
  {
    hide Served, Apply;
    TrafficIsServed(steps);
    assert steps[..|steps|] == steps;
    if steps != [] {
      var front := steps[..|steps| - 1];
      DoneRunIsServed(front);
      assert forall k | 0 <= k <= |front| :: front[..k] == steps[..k];
    }
  }

  /** What the router program makes of the router for a session that joins; None if it fails. */
  function Configured(w: World, s: Session): Option<Router> {
    if w.router.None? then None
    else if s.phase.Setup? then Some(w.router.value.(conf := Some(Conf(s.mark.header, [s.mark.version]))))
    else Reconfigured(w.router.value, s.mark, Action.Add)
  }

  lemma ConfigureNext(w: World, s: Session, outcome: Outcome, tag: nat)
    requires s.phase.Setup? || s.phase.AddVersion?
    ensures var configured := Configured(w, s);
            var changed := if configured.Some? && outcome.Happened() then w.(router := configured) else w;
            JoinNext(w, s, outcome, tag) ==
            if configured.Some? && outcome.Done?
            then changed.(active := Some(s.(phase := Switch, store := s.store.(router := true)))) else Fail(changed, s)
  {
    hide Reconfigured;
  }

  lemma SwitchNext(w: World, s: Session, outcome: Outcome, tag: nat)
    requires s.phase.Switch?
    ensures var switched := w.router.Some? && (w.saved.Some? || w.selector == Original);
            var changed := if switched && outcome.Happened()
                           then w.(selector := ToRouter(w.router.value.tag),
                                   saved := if w.saved.Some? then w.saved else Some(w.selector)) else w;
            JoinNext(w, s, outcome, tag) ==
            if switched && outcome.Done?
            then changed.(active := Some(s.(phase := MakeShadowPod, store := s.store.(origin := true))))
            else Fail(changed, s)
  {
  }

  lemma RestoreNext(w: World, s: Session, outcome: Outcome)
    requires s.phase.Restore?
    ensures var changed :=
              if outcome.Happened() && w.saved.Some? then w.(selector := w.saved.value, saved := None) else w;
            LeaveNext(w, s, outcome) == changed.(active := Some(s.(phase := DropStuntman(s.phase.last))))
  {
  }

  class Cluster {
    var selector: Selector
    var saved: Option<Selector>
    var stuntman: Option<Selector>
    var shadowServices: set<string>
    var shadowPods: set<string>
    var router: Option<Router>
    ghost var joined: map<nat, Mark>
    ghost var failed: map<nat, (Mark, Store)>
    ghost var trace: seq<Step>
    ghost var joinsFit: bool
    const outcomes: seq<Outcome>
    /** A service that kt did not make has the stuntman's name. */
    const foreignStuntman: bool
    var calls: nat

    constructor (outcomes: seq<Outcome>, foreignStuntman: bool)
      ensures Seen(None) == UNTOUCHED && Follows(UNTOUCHED) && joinsFit
    {
      selector, saved, stuntman, shadowServices, shadowPods, router := Original, None, None, {}, {}, None;
      joined, failed, trace, joinsFit := map[], map[], [], true;
      this.outcomes, this.foreignStuntman := outcomes, foreignStuntman;
      calls := 0;
    }

    ghost function Seen(active: Option<Session>): World
      reads this
    {
      World(selector, saved, stuntman, shadowServices, shadowPods, router, joined, failed, active)
    }

    ghost predicate Follows(w: World)
      reads this`trace, this`joinsFit
    {
      Run(UNTOUCHED, trace) == Some(w) && (Reliable() ==> AllDone(trace)) && (joinsFit ==> JoinsFit(trace))
    }

    /** All calls succeed. */
    ghost predicate Reliable() {
      !foreignStuntman && forall outcome | outcome in outcomes :: outcome.Done?
    }

    /** What becomes of the next call. */
    method Call() returns (outcome: Outcome)
      modifies this`calls
      ensures Reliable() ==> outcome.Done?
    {
      outcome := if calls < |outcomes| then outcomes[calls] else Done;
      calls := calls + 1;
    }

    ghost method Log(before: World, step: Step, after: World)
      requires Follows(before) && Apply(before, step) == Some(after)
      requires !step.Join? && (Reliable() && step.Advance? ==> step.outcome.Done?)
      modifies this`trace
      ensures Follows(after)
    {
      hide Apply;
      assert (trace + [step])[..|trace|] == trace;
      trace := trace + [step];
    }

    ghost method LogJoin(before: World, id: nat, mark: Mark, after: World)
      requires Follows(before) && Apply(before, Join(id, mark)) == Some(after)
      modifies this`trace, this`joinsFit
      ensures Follows(after) && joinsFit == (old(joinsFit) && HeaderFits(before, mark.header))
    {
      hide Apply;
      assert (trace + [Join(id, mark)])[..|trace|] == trace;
      trace := trace + [Join(id, mark)];
      joinsFit := joinsFit && HeaderFits(before, mark.header);
    }

    /** What the laws of module MeshTraffic give for the execution so far. */
    ghost method Conclude()
      requires Follows(Seen(None)) && Reliable() && joinsFit
      ensures ServedThroughout(trace)
      ensures router.Some? ==> router.value.refs == |joined|
      ensures joined == map[] ==> Seen(None) == UNTOUCHED.(failed := failed)
    {
      hide Run;
      DoneRunIsSmooth(trace);
      DoneRunIsServed(trace);
      EverythingIsAccounted(trace);
    }

    /** Traffic and count, if all calls succeed and all joins fit. */
    ghost predicate Sound()
      reads this
    {
      Reliable() && joinsFit ==>
        && ServedThroughout(trace)
        && (router.Some? ==> router.value.refs == |joined|)
        && (joined == map[] ==> Seen(None) == UNTOUCHED.(failed := failed))
    }
  }

  /** One ktctl process. `tag` is the random label by which the service would select a new router. */
  class Process {
    const id: nat
    const mark: Mark
    const tag: nat
    const cluster: Cluster
    var store: Store

    constructor (id: nat, mark: Mark, tag: nat, cluster: Cluster)
      ensures this.id == id && this.mark == mark && this.cluster == cluster && store == NOTHING
    {
      this.id, this.mark, this.tag, this.cluster := id, mark, tag, cluster;
      store := NOTHING;
    }

    ghost function Now(phase: Phase): World
      reads this, cluster
    {
      cluster.Seen(Some(Session(id, mark, store, phase)))
    }

    /** The process is in the middle of its work, about to make the call of the phase. */
    ghost predicate At(phase: Phase)
      reads this, cluster
    {
      cluster.Follows(Now(phase))
    }

    ghost predicate Out()
      reads this, cluster
    {
      cluster.Follows(cluster.Seen(None))
    }

    /** The command returns its error; what the process has stored is left for its cleanup. */
    ghost predicate Failed()
      reads this, cluster
    {
      Out() && id in cluster.failed && cluster.failed[id] == (mark, store)
    }

    /** Asks again, up to ten times, while an earlier pod of the name is terminating: the Lost outcome of this call. */
    method IsNameUsable() returns (ok: bool)
      requires At(CheckName)
      modifies cluster`calls, cluster`failed, cluster`trace
      ensures if ok then At(MakeStuntman) else Failed()
    {
      ghost var before := Now(CheckName);
      hide Run, AllDone, JoinsFit;
      var outcome := cluster.Call();
      var times := 0;
      while outcome.Lost? && times < 10
        invariant cluster.Reliable() ==> outcome.Done?
        modifies cluster`calls
      {
        outcome := cluster.Call();
        times := times + 1;
      }
      ok := !outcome.Lost? && !(outcome.Done? && mark.version in cluster.shadowPods);
      if ok {
        cluster.Log(before, Advance(outcome, tag), Now(MakeStuntman));
      } else {
        cluster.failed := cluster.failed[id := (mark, store)];
        cluster.Log(before, Advance(outcome, tag), cluster.Seen(None));
      }
    }

    method CreateStuntmanService() returns (ok: bool)
      requires At(MakeStuntman)
      modifies cluster`calls, cluster`failed, cluster`trace, cluster`stuntman
      ensures if ok then At(MakeShadowService) else Failed()
    {
      ghost var before := Now(MakeStuntman);
      hide Run, AllDone, JoinsFit;
      var outcome := cluster.Call();
      if cluster.foreignStuntman {
        outcome := Refused;
        ok := false;
      } else if cluster.stuntman.Some? {
        ok := outcome.Done?;
      } else if cluster.saved.Some? || cluster.selector != Original {
        ok := false;
      } else {
        if outcome.Happened() {
          cluster.stuntman := Some(cluster.selector);
        }
        ok := outcome.Done?;
      }
      if ok {
        cluster.Log(before, Advance(outcome, tag), Now(MakeShadowService));
      } else {
        cluster.failed := cluster.failed[id := (mark, store)];
        cluster.Log(before, Advance(outcome, tag), cluster.Seen(None));
      }
    }

    method CreateShadowService() returns (ok: bool)
      requires At(MakeShadowService)
      modifies this`store, cluster`calls, cluster`failed, cluster`trace, cluster`shadowServices
      ensures if ok then At(MakeRouter) else Failed()
      ensures ok ==> store == old(store).(service := true)
    {
      ghost var before := Now(MakeShadowService);
      hide Run, AllDone, JoinsFit;
      var outcome := cluster.Call();
      if mark.version in cluster.shadowServices {
        ok := false;
      } else {
        if outcome.Happened() {
          cluster.shadowServices := cluster.shadowServices + {mark.version};
        }
        ok := outcome.Done?;
      }
      if ok {
        store := store.(service := true);
        cluster.Log(before, Advance(outcome, tag), Now(MakeRouter));
      } else {
        cluster.failed := cluster.failed[id := (mark, store)];
        cluster.Log(before, Advance(outcome, tag), cluster.Seen(None));
      }
    }

    /** The router pod exists with a reference for this session; `isNew`: and it has to be set up. */
    method ObtainRouter() returns (ok: bool, isNew: bool)
      requires At(MakeRouter)
      modifies cluster`calls, cluster`failed, cluster`trace, cluster`router
      ensures if !ok then Failed() else if isNew then At(Setup) else At(AddVersion)
    {
      ghost var before := Now(MakeRouter);
      hide Run, AllDone, JoinsFit;
      var outcome := cluster.Call();
      isNew := cluster.router.None?;
      if outcome.Happened() {
        if cluster.router.None? {
          cluster.router := Some(Router(tag, 1, None));
        } else {
          cluster.router := Some(cluster.router.value.(refs := cluster.router.value.refs + 1));
        }
      }
      ok := outcome.Done?;
      if ok {
        cluster.Log(before, Advance(outcome, tag), Now(if isNew then Setup else AddVersion));
      } else {
        cluster.failed := cluster.failed[id := (mark, store)];
        cluster.Log(before, Advance(outcome, tag), cluster.Seen(None));
      }
    }

    /** The router program inside the pod: setup for a new one, add for one that others use. */
    method ConfigureRouter(isNew: bool) returns (ok: bool)
      requires At(if isNew then Setup else AddVersion)
      modifies this`store, cluster`calls, cluster`failed, cluster`trace, cluster`router
      ensures if ok then At(Switch) else Failed()
      ensures ok ==> store == old(store).(router := true)
    {
      ghost var session := Session(id, mark, store, if isNew then Setup else AddVersion);
      ghost var before := cluster.Seen(Some(session));
      var outcome := cluster.Call();
      ConfigureNext(before, session, outcome, tag);
      hide Run, AllDone, JoinsFit, JoinNext, Reconfigured;
      var configured := cluster.router;
      if cluster.router.Some? {
        configured := if isNew then Some(cluster.router.value.(conf := Some(Conf(mark.header, [mark.version]))))
                      else Reconfigured(cluster.router.value, mark, Action.Add);
      }
      ok := configured.Some? && outcome.Done?;
      if configured.Some? && outcome.Happened() {
        cluster.router := configured;
      }
      if ok {
        store := store.(router := true);
        cluster.Log(before, Advance(outcome, tag), Now(Switch));
      } else {
        cluster.failed := cluster.failed[id := (mark, store)];
        cluster.Log(before, Advance(outcome, tag), cluster.Seen(None));
      }
    }

    method CreateRouter() returns (ok: bool)
      requires At(MakeRouter)
      modifies this`store, cluster`calls, cluster`failed, cluster`trace, cluster`router
      ensures if ok then At(Switch) else Failed()
      ensures ok ==> store == old(store).(router := true)
    {
      var isNew;
      ok, isNew := ObtainRouter();
      if ok {
        ok := ConfigureRouter(isNew);
      }
    }

    method UpdateServiceSelector() returns (ok: bool)
      requires At(Switch)
      modifies this`store, cluster`calls, cluster`failed, cluster`trace, cluster`selector, cluster`saved
      ensures if ok then At(MakeShadowPod) else Failed()
      ensures ok ==> store == old(store).(origin := true)
    {
      ghost var before := Now(Switch);
      var outcome := cluster.Call();
      SwitchNext(before, Session(id, mark, store, Switch), outcome, tag);
      hide Run, AllDone, JoinsFit, JoinNext;
      var allowed := cluster.router.Some? && (cluster.saved.Some? || cluster.selector == Original);
      if allowed && outcome.Happened() {
        cluster.selector, cluster.saved :=
          ToRouter(cluster.router.value.tag), if cluster.saved.Some? then cluster.saved else Some(cluster.selector);
      }
      ok := allowed && outcome.Done?;
      if ok {
        store := store.(origin := true);
        cluster.Log(before, Advance(outcome, tag), Now(MakeShadowPod));
      } else {
        cluster.failed := cluster.failed[id := (mark, store)];
        cluster.Log(before, Advance(outcome, tag), cluster.Seen(None));
      }
    }

    method CreateShadow() returns (ok: bool)
      requires At(MakeShadowPod)
      modifies this`store, cluster`calls, cluster`failed, cluster`joined, cluster`trace, cluster`shadowPods
      ensures if ok then Out() && id in cluster.joined && cluster.joined[id] == mark else Failed()
      ensures store == old(store).(shadow := true)
    {
      ghost var before := Now(MakeShadowPod);
      hide Run, AllDone, JoinsFit;
      var outcome := cluster.Call();
      store := store.(shadow := true);
      if mark.version in cluster.shadowPods {
        ok := false;
      } else {
        if outcome.Happened() {
          cluster.shadowPods := cluster.shadowPods + {mark.version};
        }
        ok := outcome.Done?;
      }
      if ok {
        cluster.joined := cluster.joined[id := mark];
      } else {
        cluster.failed := cluster.failed[id := (mark, store)];
      }
      cluster.Log(before, Advance(outcome, tag), cluster.Seen(None));
    }

    /** `admitted`: the lock was obtained, nobody exchanges the service, and all its ports are found. */
    method AutoMesh(admitted: bool) returns (ok: bool)
      requires Out() && id !in cluster.joined && id !in cluster.failed && store == NOTHING
      modifies this`store, cluster
      ensures if ok then Out() && id in cluster.joined && cluster.joined[id] == mark && store == EVERYTHING
              else if admitted then Failed()
              else Out() && cluster.Seen(None) == old(cluster.Seen(None)) && store == NOTHING
      ensures cluster.joinsFit ==
              (old(cluster.joinsFit) && (admitted ==> HeaderFits(old(cluster.Seen(None)), mark.header)))
      ensures Counted(cluster.Seen(None)) && cluster.Sound()
    {
      ok := false;
      if admitted {
        ok := MeshSteps();
      }
      CountCoversSessions(cluster.trace);
      if cluster.Reliable() && cluster.joinsFit {
        cluster.Conclude();
      }
    }

    method MeshSteps() returns (ok: bool)
      requires Out() && id !in cluster.joined && id !in cluster.failed && store == NOTHING
      modifies this`store, cluster
      ensures if ok then Out() && id in cluster.joined && cluster.joined[id] == mark && store == EVERYTHING
              else Failed()
      ensures cluster.joinsFit == (old(cluster.joinsFit) && HeaderFits(old(cluster.Seen(None)), mark.header))
    {
      cluster.LogJoin(cluster.Seen(None), id, mark, Now(CheckName));
      hide *;
      ok := CreateServices();
      if ok {
        ok := TakeOver();
      }
    }

    /** The stuntman and the shadow service come first: the router's proxy has to resolve them. */
    method CreateServices() returns (ok: bool)
      requires At(CheckName)
      modifies this`store, cluster`calls, cluster`failed, cluster`trace, cluster`stuntman, cluster`shadowServices
      ensures if ok then At(MakeRouter) else Failed()
      ensures ok ==> store == old(store).(service := true)
    {
      hide *;
      ok := IsNameUsable();
      if ok {
        ok := CreateStuntmanService();
        if ok {
          ok := CreateShadowService();
        }
      }
    }

    /** The router comes before the switch that sends requests to it. */
    method TakeOver() returns (ok: bool)
      requires At(MakeRouter)
      modifies this`store, cluster`calls, cluster`failed, cluster`joined, cluster`trace, cluster`router,
               cluster`selector, cluster`saved, cluster`shadowPods
      ensures if ok then Out() && id in cluster.joined && cluster.joined[id] == mark else Failed()
      ensures ok ==> store == old(store).(router := true, origin := true, shadow := true)
    {
      hide *;
      ok := CreateRouter();
      if ok {
        ok := UpdateServiceSelector();
        if ok {
          ok := CreateShadow();
        }
      }
    }

    // ----- CleanupWorkspace -----

    /** RecoverOriginalService, and the stuntman that stood in for it. */
    method RecoverService(last: bool)
      requires At(Restore(last))
      modifies cluster`calls, cluster`trace, cluster`selector, cluster`saved, cluster`stuntman
      ensures At(if last then DropRouter else DropShadowService)
    {
      hide *;
      RestoreSelector(last);
      RemoveStuntman(last);
    }

    method RestoreSelector(last: bool)
      requires At(Restore(last))
      modifies cluster`calls, cluster`trace, cluster`selector, cluster`saved
      ensures At(DropStuntman(last))
    {
      ghost var before := Now(Restore(last));
      var outcome := cluster.Call();
      RestoreNext(before, Session(id, mark, store, Restore(last)), outcome);
      hide Run, AllDone, JoinsFit, LeaveNext;
      if outcome.Happened() && cluster.saved.Some? {
        cluster.selector, cluster.saved := cluster.saved.value, None;
      }
      cluster.Log(before, Advance(outcome, tag), Now(DropStuntman(last)));
    }

    method RemoveStuntman(last: bool)
      requires At(DropStuntman(last))
      modifies cluster`calls, cluster`trace, cluster`stuntman
      ensures At(if last then DropRouter else DropShadowService)
    {
      ghost var before := Now(DropStuntman(last));
      hide Run, AllDone, JoinsFit;
      var outcome := cluster.Call();
      if outcome.Happened() {
        cluster.stuntman := None;
      }
      cluster.Log(before, Advance(outcome, tag), Now(if last then DropRouter else DropShadowService));
    }

    method RemoveRouter()
      requires At(DropRouter)
      modifies cluster`calls, cluster`trace, cluster`router
      ensures At(DropShadowService)
    {
      ghost var before := Now(DropRouter);
      hide Run, AllDone, JoinsFit;
      var outcome := cluster.Call();
      if outcome.Happened() {
        cluster.router := None;
      }
      cluster.Log(before, Advance(outcome, tag), Now(DropShadowService));
    }

    method RemoveVersionFromRouter()
      requires At(RemoveVersion)
      modifies cluster`calls, cluster`trace, cluster`router
      ensures At(DropShadowService)
    {
      ghost var before := Now(RemoveVersion);
      hide Run, AllDone, JoinsFit;
      hide Updated;
      var outcome := cluster.Call();
      if outcome.Happened() && cluster.router.Some? {
        var removed := Reconfigured(cluster.router.value, mark, Action.Remove);
        if removed.Some? {
          cluster.router := removed;
        }
      }
      cluster.Log(before, Advance(outcome, tag), Now(DropShadowService));
    }

    /** Whether the router pod is still there, and on the way to which call the process goes. */
    method FindRouterPod() returns (found: bool)
      requires At(FindRouter) && store.router
      modifies cluster`calls, cluster`trace
      ensures At(if found then ReadCount else if store.origin then Restore(false) else DropShadowService)
    {
      ghost var before := Now(FindRouter);
      hide Run, AllDone, JoinsFit;
      var outcome := cluster.Call();
      found := outcome.Done? && cluster.router.Some?;
      cluster.Log(before, Advance(outcome, tag),
                  Now(if found then ReadCount else if store.origin then Restore(false) else DropShadowService));
    }

    /** DecreasePodRef: `ok` if the count could be read; the update's own error is dropped. */
    method DecreasePodRef() returns (last: bool, ok: bool)
      requires At(ReadCount)
      modifies cluster`calls, cluster`trace, cluster`router
      ensures At(if !ok then DropShadowService else if last then Restore(true) else RemoveVersion)
    {
      ghost var before := Now(ReadCount);
      hide Run, AllDone, JoinsFit;
      var outcome := cluster.Call();
      ok, last := outcome.Done? && cluster.router.Some?, false;
      if !ok {
        cluster.Log(before, Advance(outcome, tag), Now(DropShadowService));
        return;
      }
      cluster.Log(before, Advance(outcome, tag), Now(CountDown));
      last := WriteCount();
    }

    method WriteCount() returns (last: bool)
      requires At(CountDown) && cluster.router.Some?
      modifies cluster`calls, cluster`trace, cluster`router
      ensures At(if last then Restore(true) else RemoveVersion)
    {
      ghost var before := Now(CountDown);
      hide Run, AllDone, JoinsFit;
      last := cluster.router.value.refs == 1;
      if last {
        cluster.Log(before, Advance(Done, tag), Now(Restore(true)));
        return;
      }
      var outcome := cluster.Call();
      if outcome.Happened() {
        cluster.router := Some(cluster.router.value.(refs := cluster.router.value.refs - 1));
      }
      cluster.Log(before, Advance(outcome, tag), Now(RemoveVersion));
    }

    method RecoverAutoMeshRoute()
      requires At(FindRouter)
      modifies cluster`calls, cluster`trace, cluster`router, cluster`selector, cluster`saved, cluster`stuntman
      ensures At(DropShadowService)
    {
      if !store.router {
        cluster.Log(Now(FindRouter), Advance(Done, tag), Now(DropShadowService));
        return;
      }
      hide *;
      var found := FindRouterPod();
      if !found {
        if store.origin {
          RecoverService(false);
        }
        return;
      }
      var last, ok := DecreasePodRef();
      if !ok {
        return;
      }
      if last {
        RecoverService(true);
        RemoveRouter();
      } else {
        RemoveVersionFromRouter();
      }
    }

    method CleanService()
      requires At(DropShadowService)
      modifies cluster`calls, cluster`trace, cluster`shadowServices
      ensures At(DropShadowPod)
    {
      ghost var before := Now(DropShadowService);
      hide Run, AllDone, JoinsFit;
      var outcome := Done;
      if store.service {
        outcome := cluster.Call();
      }
      if store.service && outcome.Happened() {
        cluster.shadowServices := cluster.shadowServices - {mark.version};
      }
      cluster.Log(before, Advance(outcome, tag), Now(DropShadowPod));
    }

    method CleanShadowPod()
      requires At(DropShadowPod)
      modifies cluster`calls, cluster`trace, cluster`shadowPods
      ensures Out()
    {
      ghost var before := Now(DropShadowPod);
      hide Run, AllDone, JoinsFit;
      var outcome := Done;
      if store.shadow {
        outcome := cluster.Call();
      }
      if store.shadow && outcome.Happened() {
        cluster.shadowPods := cluster.shadowPods - {mark.version};
      }
      cluster.Log(before, Advance(outcome, tag), cluster.Seen(None));
    }

    /** After a mesh that succeeded or that failed half-way. */
    method CleanupWorkspace(meshed: bool)
      requires if meshed then Out() && id in cluster.joined && cluster.joined[id] == mark && store == EVERYTHING
               else Failed() && id !in cluster.joined
      modifies cluster
      ensures Out() && cluster.joined == old(cluster.joined) - {id} && cluster.failed == old(cluster.failed) - {id}
      ensures Counted(cluster.Seen(None)) && cluster.joinsFit == old(cluster.joinsFit) && cluster.Sound()
    {
      CountCoversSessions(cluster.trace);
      assert meshed ==> id !in cluster.failed;
      hide *;
      StartLeaving(meshed);
      CleanupSteps();
      CountCoversSessions(cluster.trace);
      if cluster.Reliable() && cluster.joinsFit {
        cluster.Conclude();
      }
    }

    ghost method StartLeaving(meshed: bool)
      requires if meshed then Out() && id in cluster.joined && cluster.joined[id] == mark && store == EVERYTHING
                 && id !in cluster.failed
               else Failed() && id !in cluster.joined
      modifies cluster`joined, cluster`failed, cluster`trace
      ensures At(FindRouter) && cluster.joined == old(cluster.joined) - {id}
              && cluster.failed == old(cluster.failed) - {id}
    {
      ghost var before := cluster.Seen(None);
      if meshed {
        cluster.joined := cluster.joined - {id};
        assert cluster.failed - {id} == cluster.failed;
      } else {
        cluster.failed := cluster.failed - {id};
        assert cluster.joined - {id} == cluster.joined;
      }
      hide Run;
      cluster.Log(before, Leave(id), Now(FindRouter));
    }

    method CleanupSteps()
      requires At(FindRouter)
      modifies cluster
      ensures Out() && cluster.joined == old(cluster.joined) && cluster.failed == old(cluster.failed)
      ensures cluster.joinsFit == old(cluster.joinsFit)
    {
      hide *;
      RecoverAutoMeshRoute();
      CleanService();
      CleanShadowPod();
    }
  }
}
