/** References too many at the router: two ways to leave one behind, and what it costs the last session to leave. */
module MeshLeaks {
  import opened Text
  import opened Calls
  import opened RouterPod
  import opened Mesh
  import opened MeshTraffic

  /** The active session's next call succeeds. */
  function Next(w: World): World
    requires w.active.Some?
  {
    Apply(w, Advance(Done, 0)).value
  }

  /** Up to `calls` successful calls of the active session. */
  function Finish(w: World, calls: nat): World
    decreases calls
  {
    if calls == 0 || w.active.None? then w else Finish(Next(w), calls - 1)
  }

  /** A join or leave with all its calls. */
  function Complete(w: World, step: Step): World
    requires Apply(w, step).Some?
  {
    Finish(Apply(w, step).value, 8)
  }

  lemma ShadowsGone(w: World, s: Session, calls: nat)
    requires w.active == Some(s) && s.phase.DropShadowService? && calls >= 2
    ensures var v := Finish(w, calls);
            v.active.None? && v.joined == w.joined && v.selector == w.selector && v.router == w.router
  {
    hide JoinNext, Reconfigured;
    var w1 := Next(w);
    assert w1.active == Some(s.(phase := DropShadowPod)) && Next(w1).active.None?;
    assert Finish(w, calls) == Finish(w1, calls - 1) == Finish(Next(w1), calls - 2);
  }

  lemma RouterOut(w: World, s: Session)
    requires w.active == Some(s) && s.phase == DropStuntman(true)
    ensures Finish(w, 4).active.None? && Finish(w, 4).joined == w.joined && Finish(w, 4).selector == w.selector
  {
    hide JoinNext, Reconfigured;
    var w1 := w.(stuntman := None, active := Some(s.(phase := DropRouter)));
    var w2 := w1.(router := None, active := Some(s.(phase := DropShadowService)));
    assert Next(w) == w1 && Next(w1) == w2;
    hide Apply, Next;
    ShadowsGone(w2, w2.active.value, 2);
  }

  lemma LastOneOut(w: World, s: Session)
    requires w.active == Some(s) && s.phase.CountDown? && s.store.router && w.saved == Some(Original)
    requires w.router.Some? && w.router.value.refs == 1
    ensures Finish(w, 6).active.None? && Finish(w, 6).joined == w.joined && Finish(w, 6).selector == Original
  {
    hide JoinNext, Reconfigured;
    var w1 := w.(active := Some(s.(phase := Restore(true))));
    var w2 := w1.(selector := Original, saved := None, active := Some(s.(phase := DropStuntman(true))));
    assert Next(w) == w1 && Next(w1) == w2;
    hide Apply, Next;
    RouterOut(w2, w2.active.value);
  }

  function Without(r: Router, conf: Conf, version: string): Router {
    r.(conf := Some(conf.(versions := RemoveFirst(conf.versions, version))))
  }

  /** From the removal of its version on, a leave does the same over any count. */
  lemma AfterCount(w: World, s: Session, conf: Conf)
    requires w.active == Some(s) && s.phase.RemoveVersion? && s.store == EVERYTHING
    requires w.router.Some? && w.router.value.conf == Some(conf) && conf.header == s.mark.header
    ensures Finish(w, 5) ==
            w.(router := Some(Without(w.router.value, conf, s.mark.version)),
               shadowServices := w.shadowServices - {s.mark.version}, shadowPods := w.shadowPods - {s.mark.version},
               active := None)
  {
    hide RemoveFirst, JoinNext;
    var w1 := w.(router := Some(Without(w.router.value, conf, s.mark.version)),
                 active := Some(s.(phase := DropShadowService)));
    var w2 := w1.(shadowServices := w.shadowServices - {s.mark.version}, active := Some(s.(phase := DropShadowPod)));
    assert Next(w) == w1;
    assert Next(w1) == w2;
    assert Next(w2) == w2.(shadowPods := w.shadowPods - {s.mark.version}, active := None);
    hide Apply, Next;
  }

  lemma NotTheLast(w: World, s: Session, conf: Conf)
    requires w.active == Some(s) && s.phase.CountDown? && s.store == EVERYTHING
    requires w.router.Some? && w.router.value.refs != 1 && w.router.value.conf == Some(conf)
             && conf.header == s.mark.header
    ensures var v := Finish(w, 6);
            && v.active.None? && v.joined == w.joined && v.selector == w.selector
            && v.router == Some(Router(w.router.value.tag, w.router.value.refs - 1,
                                       Some(conf.(versions := RemoveFirst(conf.versions, s.mark.version)))))
  {
    hide JoinNext, Reconfigured;
    var w1 := w.(router := Some(w.router.value.(refs := w.router.value.refs - 1)),
                 active := Some(s.(phase := RemoveVersion)));
    assert Next(w) == w1;
    hide Apply, Next, RemoveFirst;
    AfterCount(w1, w1.active.value, conf);
  }

  /** If the last session leaves, the service is served afterwards exactly if the count was one: with a reference too
      many the service stays with the router, whose configuration has lost its last version. */
  lemma LastLeaverIff(w: World, id: nat, mark: Mark)
    requires w.active.None? && w.joined == map[id := mark] && Taken(w)
    requires w.router.value.conf == Some(Conf(mark.header, [mark.version]))
    ensures var v := Complete(w, Leave(id));
            v.active.None? && v.joined == map[] && (Served(v) <==> w.router.value.refs == 1)
  {
    var s := Session(id, mark, EVERYTHING, FindRouter);
    var w0 := w.(joined := map[], active := Some(s));
    assert map[id := mark] - {id} == map[];
    assert Apply(w, Leave(id)).value == w0;
    var w1, w2 := w0.(active := Some(s.(phase := ReadCount))), w0.(active := Some(s.(phase := CountDown)));
    assert Next(w0) == w1 && Next(w1) == w2;
    hide Apply, Next;
    assert Complete(w, Leave(id)) == Finish(w2, 6);
    if w.router.value.refs == 1 {
      LastOneOut(w2, s.(phase := CountDown));
    } else {
      NotTheLast(w2, s.(phase := CountDown), w.router.value.conf.value);
      assert RemoveFirst([mark.version], mark.version) == [];
    }
  }

  /** The same with one reference too many. */
  function Leaked(w: World): World {
    if w.router.None? then w else w.(router := Some(w.router.value.(refs := w.router.value.refs + 1)))
  }

  /** A join and then a leave of the same session. */
  function JoinAndLeave(w: World, id: nat, mark: Mark): World
    requires Apply(w, Join(id, mark)).Some?
  {
    var failed := Complete(w, Join(id, mark));
    if Apply(failed, Leave(id)).Some? then Complete(failed, Leave(id)) else failed
  }

  /** A session with a header of its own takes a reference, is refused by the router program, and leaves with everything
      but the reference given back. */
  lemma OtherHeaderLeaksOne(w: World, id: nat, mark: Mark, header: string)
    requires Smooth(w, header) && w.active.None? && w.joined != map[]
    requires id !in w.joined && id !in w.failed && mark.version !in VersionsOf(w.joined) && mark.header != header
    ensures w.router.Some? && Apply(w, Join(id, mark)).Some? && Apply(Complete(w, Join(id, mark)), Leave(id)).Some?
    ensures JoinAndLeave(w, id, mark) == Leaked(w)
  {
    assert Taken(w) && w.router.value.conf.Some? && w.router.value.conf.value.header == header;
    assert mark.version !in w.shadowPods && mark.version !in w.shadowServices;
    hide Smooth, VersionsOf;
    JoinWithOtherHeader(w, id, mark);
    var failed := Complete(w, Join(id, mark));
    LeaveAfterFailure(failed, id, mark);
    assert w.failed[id := failed.failed[id]] - {id} == w.failed;
    assert w.shadowServices + {mark.version} - {mark.version} == w.shadowServices;
  }

  lemma JoinWithOtherHeader(w: World, id: nat, mark: Mark)
    requires w.active.None? && id !in w.joined && id !in w.failed && Taken(w)
    requires mark.version !in w.shadowPods && mark.version !in w.shadowServices
    requires w.router.value.conf.Some? && w.router.value.conf.value.header != mark.header
    ensures Complete(w, Join(id, mark)) ==
            w.(failed := w.failed[id := (mark, Store(false, false, true, false))],
               shadowServices := w.shadowServices + {mark.version},
               router := Some(w.router.value.(refs := w.router.value.refs + 1)))
  {
    var s := Session(id, mark, NOTHING, CheckName);
    var w0 := w.(active := Some(s));
    assert Apply(w, Join(id, mark)).value == w0;
    var w1, w2 := w.(active := Some(s.(phase := MakeStuntman))), w.(active := Some(s.(phase := MakeShadowService)));
    var s3 := s.(phase := MakeRouter, store := Store(false, false, true, false));
    var w3 := w.(shadowServices := w.shadowServices + {mark.version}, active := Some(s3));
    var w4 := w3.(router := Some(w.router.value.(refs := w.router.value.refs + 1)),
                  active := Some(s3.(phase := AddVersion)));
    assert Next(w0) == w1 && Next(w1) == w2 && Next(w2) == w3 && Next(w3) == w4;
    assert Next(w4) == Fail(w4, s3.(phase := AddVersion));
    hide Apply, Next;
  }

  lemma LeaveAfterFailure(w: World, id: nat, mark: Mark)
    requires w.active.None? && id !in w.joined && id in w.failed
    requires w.failed[id] == (mark, Store(false, false, true, false))
    ensures Apply(w, Leave(id)).Some?
    ensures Complete(w, Leave(id)) == w.(failed := w.failed - {id}, shadowServices := w.shadowServices - {mark.version})
  {
    var s := Session(id, mark, Store(false, false, true, false), FindRouter);
    var w0 := w.(failed := w.failed - {id}, active := Some(s));
    var w1 := w0.(active := Some(s.(phase := DropShadowService)));
    var w2 := w0.(shadowServices := w.shadowServices - {mark.version}, active := Some(s.(phase := DropShadowPod)));
    assert Apply(w, Leave(id)).value == w0 && Next(w0) == w1 && Next(w1) == w2 && Next(w2) == w2.(active := None);
    hide Apply, Next;
  }

  // ----- where references too many come from, and what they cost -----

  lemma NextIsSmooth(w: World, header: string)
    requires Smooth(w, header) && w.active.Some?
    ensures Smooth(Next(w), header)
  {
    hide Smooth;
    StepStaysSmooth(w, Advance(Done, 0), header);
  }

  lemma {:induction false} FinishIsSmooth(w: World, calls: nat, header: string)
    requires Smooth(w, header)
    ensures Smooth(Finish(w, calls), header)
    decreases calls
  {
    hide Smooth, Apply, Next;
    if calls > 0 && w.active.Some? {
      NextIsSmooth(w, header);
      FinishIsSmooth(Next(w), calls - 1, header);
    }
  }

  /** The first calls of a leave. */
  lemma UpToCount(w: World, id: nat, mark: Mark)
    requires w.active.None? && id in w.joined && w.joined[id] == mark && w.router.Some?
    ensures Apply(w, Leave(id)).Some?
    ensures var left := w.(joined := w.joined - {id});
            var s := Session(id, mark, EVERYTHING, FindRouter);
            && var w0 := Apply(w, Leave(id)).value;
               && w0 == left.(active := Some(s))
               && Next(w0) == left.(active := Some(s.(phase := ReadCount)))
               && Next(Next(w0)) == left.(active := Some(s.(phase := CountDown)))
  {
    var s := Session(id, mark, EVERYTHING, FindRouter);
    var w0 := w.(joined := w.joined - {id}, active := Some(s));
    assert Apply(w, Leave(id)).value == w0;
    assert Next(w0) == w0.(active := Some(s.(phase := ReadCount)));
  }

  /** A leave in which the server refuses the update of the count, and everything else succeeds. */
  function LeaveUncounted(w: World, id: nat): World
    requires w.active.None? && id in w.joined && w.router.Some?
  {
    UpToCount(w, id, w.joined[id]);
    Finish(Apply(Next(Next(Apply(w, Leave(id)).value)), Advance(Refused, 0)).value, 5)
  }

  /** The refusal is not reported: the leave ends like one that was counted, but for one reference. */
  lemma RefusedCountLeaksOne(w: World, id: nat, header: string)
    requires Smooth(w, header) && w.active.None? && id in w.joined && |w.joined| >= 2
    ensures w.router.Some? && LeaveUncounted(w, id) == Leaked(Complete(w, Leave(id)))
  {
    var mark, conf := w.joined[id], w.router.value.conf.value;
    var refs := w.router.value.refs;
    assert conf.header == header == mark.header && refs == |w.joined|;
    hide Smooth;
    UpToCount(w, id, mark);
    var s := Session(id, mark, EVERYTHING, CountDown);
    var w2 := w.(joined := w.joined - {id}, active := Some(s));
    var done := w2.(router := Some(w.router.value.(refs := refs - 1)), active := Some(s.(phase := RemoveVersion)));
    var refused := w2.(active := Some(s.(phase := RemoveVersion)));
    assert Next(w2) == done && Apply(w2, Advance(Refused, 0)).value == refused;
    hide Apply, Next;
    AfterCount(done, done.active.value, conf);
    AfterCount(refused, refused.active.value, conf);
    assert Complete(w, Leave(id)) == Finish(w2, 6) == Finish(done, 5);
  }

  lemma OneVersion(versions: seq<string>, version: string)
    requires NoDuplicates(versions) && versions != [] && forall v :: v in versions ==> v == version
    ensures versions == [version]
  {
    assert versions[0] in versions && versions[|versions| - 1] in versions;
  }

  /** One reference too many in an otherwise sound cluster: when the last session leaves, the service is lost. */
  lemma LeakLosesService(w: World, id: nat, mark: Mark, header: string)
    requires Smooth(w, header) && w.active.None? && w.joined == map[id := mark]
    ensures Apply(Leaked(w), Leave(id)).Some? && !Served(Complete(Leaked(w), Leave(id)))
    ensures Served(Complete(w, Leave(id)))
  {
    var conf := w.router.value.conf.value;
    assert VersionsOf(w.joined) == {mark.version} && w.joined[id] == mark && w.router.value.refs == 1;
    OneVersion(conf.versions, mark.version);
    assert conf == Conf(mark.header, [mark.version]) && Taken(w);
    hide Smooth, VersionsOf;
    LastLeaverIff(Leaked(w), id, mark);
    LastLeaverIff(w, id, mark);
  }

  lemma LeaveEnds(w: World, id: nat, header: string)
    requires Smooth(w, header) && w.active.None? && id in w.joined && |w.joined| >= 2
    ensures var v := Complete(w, Leave(id)); Smooth(v, header) && v.active.None? && v.joined == w.joined - {id}
  {
    LeaveIsSmooth(w, id, header);
    var mark, conf, refs := w.joined[id], w.router.value.conf.value, w.router.value.refs;
    assert conf.header == header == mark.header && refs == |w.joined|;
    hide Smooth, Next, Apply;
    UpToCount(w, id, mark);
    NotTheLast(Next(Next(Apply(w, Leave(id)).value)), Session(id, mark, EVERYTHING, CountDown), conf);
  }

  lemma LeaveIsSmooth(w: World, id: nat, header: string)
    requires Smooth(w, header) && w.active.None? && id in w.joined
    ensures Smooth(Complete(w, Leave(id)), header)
  {
    hide Smooth;
    StepStaysSmooth(w, Leave(id), header);
    FinishIsSmooth(Apply(w, Leave(id)).value, 8, header);
  }

  // ----- a leak stays until the last session leaves -----

  /** There is a router, and no session is on its way to remove it. */
  predicate Running(w: World) {
    && w.router.Some? && w.router.value.refs >= 1
    && !(w.active.Some? && (w.active.value.phase.Restore? || w.active.value.phase.DropStuntman?
                            || w.active.value.phase.DropRouter?))
  }

  /** The call with which a session finds that it is the last one. */
  predicate IsLastOut(w: World, step: Step) {
    step.Advance? && w.active.Some? && w.active.value.phase.CountDown? && w.router.Some? && w.router.value.refs == 1
  }

  /** Joins and leaves in which every call succeeds and nobody leaves as the last one. */
  predicate SteadyRun(w: World, steps: seq<Step>) {
    steps != [] ==>
      && SteadyRun(w, steps[..|steps| - 1])
      && var before := Run(w, steps[..|steps| - 1]);
         before.Some? ==> SmoothStep(before.value, steps[|steps| - 1]) && !IsLastOut(before.value, steps[|steps| - 1])
  }

  lemma ReconfiguredLeaked(r: Router, mark: Mark, action: Action)
    ensures Reconfigured(r.(refs := r.refs + 1), mark, action) ==
            match Reconfigured(r, mark, action)
            case None => None
            case Some(r') => Some(r'.(refs := r'.refs + 1))
  {
    hide Updated;
  }

  lemma LeakStaysAtRouter(w: World, s: Session, tag: nat)
    requires Running(w) && w.active == Some(s) && (s.phase.MakeRouter? || s.phase.Setup? || s.phase.AddVersion?)
    ensures var v := JoinNext(w, s, Done, tag); Running(v) && JoinNext(Leaked(w), s, Done, tag) == Leaked(v)
  {
    ReconfiguredLeaked(w.router.value, s.mark, Action.Add);
    ReconfiguredKeepsCount(w.router.value, s.mark, Action.Add);
    hide Reconfigured;
  }

  lemma LeakStaysEarly(w: World, s: Session, tag: nat)
    requires Running(w) && w.active == Some(s)
    requires s.phase.CheckName? || s.phase.MakeStuntman? || s.phase.MakeShadowService?
    ensures var v := JoinNext(w, s, Done, tag); Running(v) && JoinNext(Leaked(w), s, Done, tag) == Leaked(v)
  {
  }

  lemma LeakStaysLate(w: World, s: Session, tag: nat)
    requires Running(w) && w.active == Some(s) && (s.phase.Switch? || s.phase.MakeShadowPod?)
    ensures var v := JoinNext(w, s, Done, tag); Running(v) && JoinNext(Leaked(w), s, Done, tag) == Leaked(v)
  {
  }

  lemma LeakStaysInJoin(w: World, s: Session, tag: nat)
    requires Running(w) && w.active == Some(s) && IsJoining(s.phase)
    ensures var v := JoinNext(w, s, Done, tag); Running(v) && JoinNext(Leaked(w), s, Done, tag) == Leaked(v)
  {
    hide JoinNext, Running, Leaked;
    if s.phase.Switch? || s.phase.MakeShadowPod? {
      LeakStaysLate(w, s, tag);
    } else if s.phase.MakeRouter? || s.phase.Setup? || s.phase.AddVersion? {
      LeakStaysAtRouter(w, s, tag);
    } else {
      LeakStaysEarly(w, s, tag);
    }
  }

  lemma LeakStaysAtCount(w: World, s: Session)
    requires Running(w) && w.active == Some(s)
    requires s.phase.FindRouter? || s.phase.ReadCount? || s.phase.RemoveVersion?
             || (s.phase.CountDown? && w.router.value.refs != 1)
    ensures var v := LeaveNext(w, s, Done); Running(v) && LeaveNext(Leaked(w), s, Done) == Leaked(v)
  {
    ReconfiguredLeaked(w.router.value, s.mark, Action.Remove);
    ReconfiguredKeepsCount(w.router.value, s.mark, Action.Remove);
    hide Reconfigured;
  }

  lemma LeakStaysInLeave(w: World, s: Session)
    requires Running(w) && w.active == Some(s) && !IsJoining(s.phase)
    requires !(s.phase.CountDown? && w.router.value.refs == 1)
    ensures var v := LeaveNext(w, s, Done); Running(v) && LeaveNext(Leaked(w), s, Done) == Leaked(v)
  {
    if s.phase.DropShadowService? || s.phase.DropShadowPod? {
      hide Reconfigured;
    } else {
      LeakStaysAtCount(w, s);
      hide LeaveNext;
    }
  }

  /** No call makes up for it. */
  lemma LeakStays(w: World, step: Step)
    requires Running(w) && SmoothStep(w, step) && !IsLastOut(w, step) && Apply(w, step).Some?
    ensures Running(Apply(w, step).value) && Apply(Leaked(w), step) == Some(Leaked(Apply(w, step).value))
  {
    hide JoinNext, LeaveNext;
    if step.Advance? {
      if IsJoining(w.active.value.phase) {
        LeakStaysInJoin(w, w.active.value, step.tag);
      } else {
        LeakStaysInLeave(w, w.active.value);
      }
    }
  }

  lemma {:induction false} LeakStaysOverRuns(w: World, steps: seq<Step>)
    requires IsSmooth(w) && Running(w) && SteadyRun(w, steps) && Run(w, steps).Some?
    ensures IsSmooth(Run(w, steps).value) && Running(Run(w, steps).value)
    ensures Run(Leaked(w), steps) == Some(Leaked(Run(w, steps).value))
  {
    if steps != [] {
      var n := |steps| - 1;
      LeakStaysOverRuns(w, steps[..n]);
      hide Apply, SmoothStep, IsSmooth, Running, IsLastOut, Leaked;
      LeakStays(Run(w, steps[..n]).value, steps[n]);
      StepIsSmooth(Run(w, steps[..n]).value, steps[n]);
    }
  }

  /** One reference too many always ends in an outage: whoever joins and leaves in whatever order, the last session to
      leave takes the service with it, which without the leak it would have given back. */
  lemma LeakAlwaysLosesService(w: World, steps: seq<Step>, id: nat, mark: Mark)
    requires IsSmooth(w) && Running(w) && SteadyRun(w, steps) && Run(w, steps).Some?
    requires var last := Run(w, steps).value; last.active.None? && last.joined == map[id := mark]
    ensures var leaked := Run(Leaked(w), steps);
            leaked.Some? && Apply(leaked.value, Leave(id)).Some? && !Served(Complete(leaked.value, Leave(id)))
    ensures Served(Complete(Run(w, steps).value, Leave(id)))
  {
    LeakStaysOverRuns(w, steps);
    var header :| Smooth(Run(w, steps).value, header);
    LeakLosesService(Run(w, steps).value, id, mark, header);
  }

  lemma JoinedIsRunning(w: World, header: string)
    requires Smooth(w, header) && w.active.None? && w.joined != map[]
    ensures IsSmooth(w) && Running(w)
  {
  }

  /** So one session with another header is enough, */
  lemma OtherHeaderLosesService(w: World, id: nat, mark: Mark, header: string, steps: seq<Step>, last: nat,
                                lastMark: Mark)
    requires Smooth(w, header) && w.active.None? && w.joined != map[]
    requires id !in w.joined && id !in w.failed && mark.version !in VersionsOf(w.joined) && mark.header != header
    requires SteadyRun(w, steps) && Run(w, steps).Some?
    requires var v := Run(w, steps).value; v.active.None? && v.joined == map[last := lastMark]
    ensures Apply(w, Join(id, mark)).Some?
    ensures var after := Run(JoinAndLeave(w, id, mark), steps);
            after.Some? && Apply(after.value, Leave(last)).Some? && !Served(Complete(after.value, Leave(last)))
  {
    OtherHeaderLeaksOne(w, id, mark, header);
    JoinedIsRunning(w, header);
    hide Smooth, IsSmooth, Running, SteadyRun, Run, Complete, Served, VersionsOf, JoinAndLeave, Leaked;
    LeakAlwaysLosesService(w, steps, last, lastMark);
  }

  /** and so is one leave whose count is not written. */
  lemma RefusedCountLosesService(w: World, first: nat, header: string, steps: seq<Step>, last: nat, lastMark: Mark)
    requires Smooth(w, header) && w.active.None? && first in w.joined && |w.joined| >= 2
    requires var counted := Complete(w, Leave(first));
             && SteadyRun(counted, steps) && Run(counted, steps).Some?
             && var v := Run(counted, steps).value; v.active.None? && v.joined == map[last := lastMark]
    ensures w.router.Some?
    ensures var after := Run(LeaveUncounted(w, first), steps);
            after.Some? && Apply(after.value, Leave(last)).Some? && !Served(Complete(after.value, Leave(last)))
  {
    RefusedCountLeaksOne(w, first, header);
    LeaveEnds(w, first, header);
    var counted := Complete(w, Leave(first));
    assert counted.joined != map[] by {
      assert counted.joined.Keys == w.joined.Keys - {first} && |w.joined.Keys| == |w.joined|;
    }
    JoinedIsRunning(counted, header);
    hide Smooth, IsSmooth, Running, SteadyRun, Run, Complete, Served;
    LeakAlwaysLosesService(counted, steps, last, lastMark);
  }
}
