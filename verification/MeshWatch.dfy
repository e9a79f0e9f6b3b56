/** The watchers that processes start with a takeover: when the service changes while a router is there, a watcher waits
    some seconds and then points the service back at the router, without looking for the router again. Others may put
    the service back as it was before the mesh at any time. */
module MeshWatch {
  import opened Text
  import opened Calls
  import opened RouterPod
  import opened Mesh
  import opened MeshTraffic
  import opened MeshLeaks

  /** `tags`: for each process that has switched the service and still runs, the label it switched to; `pending`: the
      watchers that have seen a change and wait. */
  datatype Watched = Watched(world: World, tags: map<nat, nat>, pending: set<nat>)

  /** Edit: somebody applies the original service again, over the annotation or without touching it. */
  datatype WatchStep = Plain(step: Step) | Edit(keepsAnnotation: bool) | See(id: nat) | Write(id: nat)

  /** isServiceChanged, for a watcher of the mesh */
  predicate IsChanged(w: World, tag: nat) {
    w.selector != ToRouter(tag) || w.saved != Some(Original)
  }

  function Rewritten(w: World, tag: nat): World {
    if IsChanged(w, tag) then w.(selector := ToRouter(tag), saved := Some(Original)) else w
  }

  function Edited(w: World, keepsAnnotation: bool): World {
    w.(selector := Original, saved := if keepsAnnotation then w.saved else None)
  }

  /** A process has its watcher from the switch on, until it ends. */
  function TagsAfter(before: World, after: World, tags: map<nat, nat>): map<nat, nat> {
    if before.active.None? then tags
    else
      var s := before.active.value;
      if s.phase.Switch? && after.active.Some? && before.router.Some? then tags[s.id := before.router.value.tag]
      else if s.phase.DropShadowPod? then tags - {s.id}
      else tags
  }

  function ApplyWatched(s: Watched, step: WatchStep): Option<Watched> {
    match step
    case Plain(step) =>
      var after := Apply(s.world, step);
      if after.None? then None
      else
        var tags := TagsAfter(s.world, after.value, s.tags);
        Some(Watched(after.value, tags, s.pending * tags.Keys))
    case Edit(keepsAnnotation) => Some(s.(world := Edited(s.world, keepsAnnotation)))
    case See(id) =>
      if id in s.tags && s.world.router.Some? && IsChanged(s.world, s.tags[id])
      then Some(s.(pending := s.pending + {id}))
      else None
    case Write(id) =>
      if id in s.tags && id in s.pending
      then Some(s.(world := Rewritten(s.world, s.tags[id]), pending := s.pending - {id})) else None
  }

  function RunWatched(steps: seq<WatchStep>): Option<Watched> {
    if steps == [] then Some(Watched(UNTOUCHED, map[], {}))
    else match RunWatched(steps[..|steps| - 1])
      case None => None
      case Some(s) => ApplyWatched(s, steps[|steps| - 1])
  }

  /** The processes with a watcher are those that have joined, and the active one if it has switched. */
  ghost predicate TagsFit(s: Watched) {
    && s.pending <= s.tags.Keys
    && forall id | id in s.tags ::
         && (id in s.world.joined
             || (s.world.active.Some? && s.world.active.value.id == id && s.world.active.value.store.origin))
         && (s.world.router.Some? ==> s.world.router.value.tag == s.tags[id])
  }

  lemma TakenIsUnchanged(w: World)
    requires Taken(w)
    ensures Rewritten(w, w.router.value.tag) == w
  {
  }

  /** The last session has restored the selector and is on its way out. */
  predicate HasGivenBack(w: World) {
    && w.active.Some?
    && match w.active.value.phase
       case DropStuntman(last) => last
       case DropRouter => true
       case DropShadowService => w.router.None?
       case DropShadowPod => w.router.None?
       case _ => false
  }

  /** As long as somebody has joined, the service is with the router. */
  lemma JoinedIsTaken(w: World, header: string)
    requires Smooth(w, header) && w.joined != map[]
    ensures Taken(w)
  {
    hide SessionsFit, BooksFit, ActiveFits;
  }

  /** The last session on its way out, after the service was given back. */
  lemma GivenBack(w: World, header: string)
    requires Smooth(w, header) && w.active.Some? && w.active.value.store.origin && !Taken(w)
    ensures var s := w.active.value;
            && w.joined == map[] && Free(w) && s.store == EVERYTHING
            && (s.phase == DropStuntman(true) || s.phase.DropRouter? || s.phase.DropShadowService?
                || s.phase.DropShadowPod?)
            && (s.phase.DropShadowService? || s.phase.DropShadowPod? ==> w.router.None?)
  {
    SomebodyJoined(w.joined);
    hide SessionsFit, ConfFits, VersionsOf;
  }

  /** While there is a watcher, the service is with the router, or the last session has given it back. */
  lemma TakenUnlessGivenBack(s: Watched, id: nat, header: string)
    requires Smooth(s.world, header) && TagsFit(s) && id in s.tags
    ensures if HasGivenBack(s.world) then Free(s.world) && s.world.joined == map[]
            else Taken(s.world) && s.world.router.value.tag == s.tags[id]
  {
    if id in s.world.joined {
      JoinedIsTaken(s.world, header);
    }
    if !Taken(s.world) {
      GivenBack(s.world, header);
    }
    hide SessionsFit, BooksFit, ActiveFits;
  }

  /** Nothing on the way out touches the selector again. */
  lemma StaysAway(w: World, s: Session)
    requires w.active == Some(s) && w.selector != Original
    requires s.phase == DropStuntman(true) || s.phase.DropRouter? || s.phase.DropShadowService?
             || s.phase.DropShadowPod?
    requires s.phase.DropShadowService? || s.phase.DropShadowPod? ==> w.router.None?
    ensures !Served(Finish(w, 8))
  {
    if s.phase == DropStuntman(true) {
      var w1 := w.(stuntman := None, active := Some(s.(phase := DropRouter)));
      assert Next(w) == w1;
      hide Apply, Next, Served;
      RouterGoes(w1, w1.active.value, 7);
    } else if s.phase.DropRouter? {
      RouterGoes(w, s, 8);
    } else if s.phase.DropShadowService? {
      ShadowsGone(w, s, 8);
    } else {
      assert Next(w).active.None? && Next(w).selector == w.selector && Next(w).router == None;
      assert Finish(w, 8) == Finish(Next(w), 7) == Next(w);
    }
  }

  lemma RouterGoes(w: World, s: Session, calls: nat)
    requires w.active == Some(s) && s.phase.DropRouter? && w.selector != Original && calls >= 3
    ensures !Served(Finish(w, calls))
  {
    var w1 := w.(router := None, active := Some(s.(phase := DropShadowService)));
    assert Next(w) == w1;
    hide Apply, Next;
    ShadowsGone(w1, w1.active.value, calls - 1);
  }

  /** A watcher's write and then the remaining calls of the active session: the service is served afterwards exactly if
      the write came before the last session gave the service back. */
  lemma WriteIsHarmlessIff(s: Watched, id: nat, header: string)
    requires Smooth(s.world, header) && TagsFit(s) && ApplyWatched(s, Write(id)).Some?
    ensures var after := ApplyWatched(s, Write(id)).value.world;
            Served(Finish(after, 8)) <==> !HasGivenBack(s.world)
  {
    var w := s.world;
    TakenUnlessGivenBack(s, id, header);
    if Taken(w) {
      TakenIsUnchanged(w);
      FinishIsSmooth(w, 8, header);
      SmoothIsServed(Finish(w, 8), header);
    } else {
      hide Smooth;
      StaysAway(Rewritten(w, s.tags[id]), w.active.value);
    }
  }

  /** Up to and including the call that restores the selector. */
  function GivenBackBy(w: World, id: nat): World
    requires w.active.None? && id in w.joined
  {
    Finish(Apply(w, Leave(id)).value, 4)
  }

  lemma GivenBackIsSmooth(w: World, id: nat, header: string)
    requires Smooth(w, header) && w.active.None? && id in w.joined
    ensures Smooth(GivenBackBy(w, id), header)
  {
    hide Smooth;
    StepStaysSmooth(w, Leave(id), header);
    FinishIsSmooth(Apply(w, Leave(id)).value, 4, header);
  }

  /** The last one counts itself out and restores the selector. */
  lemma CountedOut(w: World, s: Session)
    requires w.active == Some(s) && s.phase.CountDown? && s.store == EVERYTHING && w.saved == Some(Original)
    requires w.router.Some? && w.router.value.refs == 1
    ensures Finish(w, 2) == w.(selector := Original, saved := None, active := Some(s.(phase := DropStuntman(true))))
  {
    var w1 := w.(active := Some(s.(phase := Restore(true))));
    assert Next(w) == w1;
    assert Next(w1) == w1.(selector := Original, saved := None, active := Some(s.(phase := DropStuntman(true))));
    hide Apply, Next;
  }

  lemma GivesBack(w: World, id: nat, mark: Mark, header: string)
    requires Smooth(w, header) && w.active.None? && w.joined == map[id := mark]
    ensures Taken(w) && Smooth(GivenBackBy(w, id), header)
    ensures GivenBackBy(w, id) ==
            w.(joined := map[], selector := Original, saved := None,
               active := Some(Session(id, mark, EVERYTHING, DropStuntman(true))))
  {
    JoinedIsTaken(w, header);
    assert |w.joined| == 1 && w.router.value.refs == 1;
    hide Smooth, Apply, Next;
    GivenBackIsSmooth(w, id, header);
    UpToCount(w, id, mark);
    var session := Session(id, mark, EVERYTHING, CountDown);
    assert w.joined - {id} == map[];
    var w2 := w.(joined := map[], active := Some(session));
    CountedOut(w2, session);
    assert GivenBackBy(w, id) == Finish(w2, 2);
  }

  lemma GivenFits(s: Watched, id: nat, mark: Mark, header: string)
    requires Smooth(s.world, header) && TagsFit(s) && s.world.active.None?
    requires s.world.joined == map[id := mark] && id in s.tags
    ensures var given := s.(world := GivenBackBy(s.world, id));
            && Smooth(given.world, header) && given.world.router.Some? && IsChanged(given.world, s.tags[id])
            && HasGivenBack(given.world) && TagsFit(given)
            && forall pending | pending <= s.tags.Keys :: TagsFit(given.(pending := pending))
  {
    hide Smooth, GivenBackBy, Apply;
    GivesBack(s.world, id, mark, header);
  }

  /** The last session leaves; once it has given the service back, its own watcher sees the change while the router is
      still there, writes, and takes the service away for good. */
  lemma WatcherOfLastLeaver(s: Watched, id: nat, mark: Mark, header: string)
    requires Smooth(s.world, header) && TagsFit(s) && s.world.active.None?
    requires s.world.joined == map[id := mark] && id in s.tags
    ensures var given := s.(world := GivenBackBy(s.world, id));
            && ApplyWatched(given, See(id)).Some?
            && var seen := ApplyWatched(given, See(id)).value;
               && ApplyWatched(seen, Write(id)).Some?
               && !Served(Finish(ApplyWatched(seen, Write(id)).value.world, 8))
  {
    GivenFits(s, id, mark, header);
    hide Smooth, TagsFit, GivenBackBy, Served, Finish, IsChanged, HasGivenBack, Rewritten;
    var given := s.(world := GivenBackBy(s.world, id));
    WriteIsHarmlessIff(ApplyWatched(given, See(id)).value, id, header);
  }

  // ----- runs -----

  /** What a successful call leaves as it is, for the watchers. */
  predicate KeepsRouter(w: World, v: World) {
    && (w.router.Some? && v.router.Some? ==> v.router.value.tag == w.router.value.tag)
    && (w.router.None? && v.router.Some? ==> w.active.Some? && w.active.value.phase.MakeRouter?)
  }

  lemma JoinKeepsRouter(w: World, s: Session, tag: nat)
    requires w.active == Some(s) && IsJoining(s.phase)
    ensures KeepsRouter(w, JoinNext(w, s, Done, tag))
  {
    hide Reconfigured;
    if w.router.Some? {
      ReconfiguredKeepsCount(w.router.value, s.mark, Action.Add);
    }
  }

  lemma LeaveKeepsRouter(w: World, s: Session)
    requires w.active == Some(s) && !IsJoining(s.phase)
    ensures KeepsRouter(w, LeaveNext(w, s, Done))
  {
    hide Reconfigured;
    if w.router.Some? {
      ReconfiguredKeepsCount(w.router.value, s.mark, Action.Remove);
    }
  }

  /** A session that has switched stays known: it goes on, joins, or ends with its last call. */
  predicate KeepsSession(w: World, v: World) {
    && w.active.Some?
    && var s := w.active.value;
       && (v.joined == w.joined || (v.joined == w.joined[s.id := s.mark] && s.phase.MakeShadowPod?))
       && (v.active.Some? ==> v.active.value.id == s.id && (s.store.origin ==> v.active.value.store.origin))
       && (v.active.None? ==> s.phase.DropShadowPod? || s.id in v.joined || !s.store.origin)
       && (s.phase.Switch? && v.active.Some? ==> v.active.value.store.origin && w.router.Some? && v.router == w.router)
  }

  lemma JoinKeepsSession(w: World, s: Session, tag: nat, header: string)
    requires Smooth(w, header) && w.active == Some(s) && IsJoining(s.phase)
    ensures KeepsSession(w, JoinNext(w, s, Done, tag))
  {
    Unpacked(w, s, header);
    hide Smooth, SessionsFit, BooksFit, VersionsOf, Reconfigured;
  }

  lemma LeaveKeepsSession(w: World, s: Session)
    requires w.active == Some(s) && !IsJoining(s.phase)
    ensures KeepsSession(w, LeaveNext(w, s, Done))
  {
    hide Reconfigured;
  }

  /** Without a router nobody has a watcher, unless it is on its way out. */
  lemma NoRouterNoWatcher(s: Watched, header: string)
    requires Smooth(s.world, header) && TagsFit(s) && s.world.router.None?
    requires s.world.active.Some? && s.world.active.value.phase.MakeRouter?
    ensures s.tags == map[]
  {
    hide SessionsFit, ConfFits, VersionsOf;
    SomebodyJoined(s.world.joined);
    assert s.world.joined == map[] && !s.world.active.value.store.origin;
    assert forall id :: id !in s.tags;
  }

  lemma AdvanceKeepsTags(s: Watched, step: Step, header: string)
    requires Smooth(s.world, header) && TagsFit(s) && step.Advance? && step.outcome.Done? && Apply(s.world, step).Some?
    ensures TagsFit(ApplyWatched(s, Plain(step)).value)
  {
    var w, v := s.world, Apply(s.world, step).value;
    var active := w.active.value;
    if IsJoining(active.phase) {
      JoinKeepsRouter(w, active, step.tag);
      JoinKeepsSession(w, active, step.tag, header);
    } else {
      LeaveKeepsRouter(w, active);
      LeaveKeepsSession(w, active);
    }
    if w.router.None? && active.phase.MakeRouter? {
      NoRouterNoWatcher(s, header);
    }
    hide Smooth, Apply;
  }

  lemma StartKeepsTags(s: Watched, step: Step)
    requires TagsFit(s) && !step.Advance? && Apply(s.world, step).Some?
    ensures TagsFit(ApplyWatched(s, Plain(step)).value)
  {
  }

  // ----- edits that a watcher will undo -----

  /** The service of w as it is, or put back by somebody else. */
  predicate IsEdit(v: World, w: World) {
    v == w || (v == w.(selector := Original, saved := v.saved) && (v.saved == w.saved || v.saved == None))
  }

  ghost predicate IsNearlySmooth(v: World) {
    exists w :: IsSmooth(w) && IsEdit(v, w)
  }

  lemma EditedIsTaken(v: World, w: World, header: string)
    requires Smooth(w, header) && IsEdit(v, w) && v != w
    ensures Taken(w)
  {
    assert !Free(w);
    hide SessionsFit, BooksFit, ActiveFits;
  }

  lemma EditCommutesInJoin(v: World, w: World, s: Session, tag: nat)
    requires IsEdit(v, w) && Taken(w) && w.active == Some(s) && IsJoining(s.phase)
    ensures var v', w' := JoinNext(v, s, Done, tag), JoinNext(w, s, Done, tag);
            IsEdit(v', w') && v'.active == w'.active && v'.router == w'.router
  {
    hide Reconfigured;
  }

  predicate CommutesInLeave(v: World, w: World, s: Session)
    requires !IsJoining(s.phase)
  {
    var v', w' := LeaveNext(v, s, Done), LeaveNext(w, s, Done);
    IsEdit(v', w') && v'.active == w'.active && v'.router == w'.router
  }

  lemma EditCommutesInCount(v: World, w: World, s: Session)
    requires IsEdit(v, w) && Taken(w) && w.active == Some(s)
    requires s.phase.FindRouter? || s.phase.ReadCount? || s.phase.CountDown? || s.phase.RemoveVersion?
    ensures CommutesInLeave(v, w, s)
  {
    hide Reconfigured;
  }

  lemma EditCommutesInDrop(v: World, w: World, s: Session)
    requires IsEdit(v, w) && Taken(w) && w.active == Some(s)
    requires s.phase.Restore? || s.phase.DropStuntman? || s.phase.DropRouter? || s.phase.DropShadowService?
             || s.phase.DropShadowPod?
    ensures CommutesInLeave(v, w, s)
  {
  }

  /** The calls of a join or a leave do not notice; the switch and the restore undo the edit. */
  lemma EditCommutes(v: World, w: World, step: Step)
    requires IsEdit(v, w) && (v == w || Taken(w)) && SmoothStep(v, step) && Apply(v, step).Some?
    ensures SmoothStep(w, step) && Apply(w, step).Some? && IsEdit(Apply(v, step).value, Apply(w, step).value)
    ensures var v', w' := Apply(v, step).value, Apply(w, step).value; v'.active == w'.active && v'.router == w'.router
  {
    hide JoinNext, LeaveNext, Taken;
    if v != w && step.Advance? {
      if IsJoining(v.active.value.phase) {
        EditCommutesInJoin(v, w, v.active.value, step.tag);
      } else {
        var s := v.active.value;
        if s.phase.FindRouter? || s.phase.ReadCount? || s.phase.CountDown? || s.phase.RemoveVersion? {
          EditCommutesInCount(v, w, s);
        } else {
          EditCommutesInDrop(v, w, s);
        }
      }
    }
  }

  lemma StepKeepsTags(s: Watched, step: Step)
    requires IsSmooth(s.world) && TagsFit(s) && SmoothStep(s.world, step) && Apply(s.world, step).Some?
    ensures TagsFit(ApplyWatched(s, Plain(step)).value)
  {
    if step.Advance? {
      var header :| Smooth(s.world, header);
      AdvanceKeepsTags(s, step, header);
    } else {
      StartKeepsTags(s, step);
    }
  }

  lemma SameTags(s: Watched, w: World, step: Step)
    requires IsEdit(s.world, w) && Apply(s.world, step).Some? && Apply(w, step).Some?
    requires IsEdit(Apply(s.world, step).value, Apply(w, step).value)
    ensures var after, unedited := ApplyWatched(s, Plain(step)).value, ApplyWatched(s.(world := w), Plain(step)).value;
            TagsFit(unedited) ==> TagsFit(after)
  {
    hide Apply;
  }

  lemma NearlySmoothIsNear(v: World) returns (w: World)
    requires IsNearlySmooth(v)
    ensures IsSmooth(w) && IsEdit(v, w) && (v == w || Taken(w))
  {
    w :| IsSmooth(w) && IsEdit(v, w);
    var header :| Smooth(w, header);
    if v != w {
      EditedIsTaken(v, w, header);
    }
  }

  lemma PlainStaysNear(s: Watched, step: Step)
    requires IsNearlySmooth(s.world) && TagsFit(s) && SmoothStep(s.world, step) && Apply(s.world, step).Some?
    ensures var after := ApplyWatched(s, Plain(step)).value; IsNearlySmooth(after.world) && TagsFit(after)
  {
    var w := NearlySmoothIsNear(s.world);
    EditCommutes(s.world, w, step);
    hide IsSmooth, Apply, SmoothStep, Taken;
    StepIsSmooth(w, step);
    assert TagsFit(s.(world := w));
    hide TagsFit;
    StepKeepsTags(s.(world := w), step);
    SameTags(s, w, step);
  }

  // ----- a service that was lost -----

  function Base(v: World): World {
    v.(selector := Original, saved := None)
  }

  /** A last session gave the service back, but it was annotated again: whoever joins from now on fails before it has
      made anything. */
  ghost predicate StaleFor(v: World, header: string) {
    && Smooth(Base(v), header) && v.joined == map[] && v.saved == Some(Original)
    && (v.active.Some? ==>
          v.active.value.phase.CheckName? || v.active.value.phase.MakeStuntman? || v.active.value.phase.FindRouter?
          || HasGivenBack(v) || v.active.value.phase.DropShadowService? || v.active.value.phase.DropShadowPod?)
  }

  ghost predicate IsStale(v: World) {
    exists header :: StaleFor(v, header)
  }

  /** After that it is served exactly if it was put back since. */
  lemma StaleIsServedIff(v: World, header: string)
    requires StaleFor(v, header)
    ensures v.selector == Original ==> Served(v)
    ensures v.active.None? ==> (Served(v) <==> v.selector == Original)
  {
    SomebodyJoined(v.joined);
    hide SessionsFit, ActiveFits, ConfFits, VersionsOf;
  }

  lemma StuntmanRefused(w: World, s: Session, header: string)
    requires Smooth(w, header) && w.active == Some(s) && s.phase.MakeStuntman?
    ensures Smooth(Fail(w, s), header)
  {
    hide CountFits, ConfFits, VersionsOf;
  }

  /** A call on a stale service: the selector and the annotation stay, and a join fails at the stuntman. */
  ghost predicate CallsAsBase(v: World, s: Session, v': World, b': World) {
    && v' == Base(v').(selector := v.selector, saved := v.saved)
    && Base(v') == (if s.phase.MakeStuntman? then Fail(Base(v), s) else b')
    && v'.joined == map[]
    && (v'.active.Some? ==>
          v'.active.value.phase.MakeStuntman? || HasGivenBack(v')
          || v'.active.value.phase.DropShadowService? || v'.active.value.phase.DropShadowPod?)
  }

  lemma StaleJoinCall(v: World, s: Session, tag: nat, header: string)
    requires StaleFor(v, header) && v.active == Some(s) && IsJoining(s.phase)
    ensures CallsAsBase(v, s, JoinNext(v, s, Done, tag), JoinNext(Base(v), s, Done, tag))
  {
    hide SessionsFit, BooksFit, VersionsOf, Reconfigured;
  }

  lemma StaleLeaveCall(v: World, s: Session, header: string)
    requires StaleFor(v, header) && v.active == Some(s) && !IsJoining(s.phase)
    ensures CallsAsBase(v, s, LeaveNext(v, s, Done), LeaveNext(Base(v), s, Done))
  {
    hide SessionsFit, BooksFit, VersionsOf, Reconfigured;
  }

  lemma StaleCalls(v: World, s: Session, step: Step, header: string)
    requires StaleFor(v, header) && v.active == Some(s) && step.Advance? && step.outcome.Done?
    ensures CallsAsBase(v, s, Apply(v, step).value, Apply(Base(v), step).value)
  {
    hide StaleFor, JoinNext, LeaveNext, CallsAsBase;
    if IsJoining(s.phase) {
      StaleJoinCall(v, s, step.tag, header);
    } else {
      StaleLeaveCall(v, s, header);
    }
  }

  lemma StaleAdvances(v: World, s: Session, step: Step, header: string)
    requires StaleFor(v, header) && v.active == Some(s) && step.Advance? && step.outcome.Done?
    ensures var v' := Apply(v, step).value; StaleFor(v', header) && v'.selector == v.selector
  {
    StaleCalls(v, s, step, header);
    if s.phase.MakeStuntman? {
      StuntmanRefused(Base(v), s, header);
    } else {
      StepStaysSmooth(Base(v), step, header);
    }
    hide Smooth, Apply;
  }

  lemma StaleStarts(v: World, step: Step, header: string)
    requires StaleFor(v, header) && !step.Advance? && SmoothStep(v, step) && Apply(v, step).Some?
    ensures var v' := Apply(v, step).value; IsStale(v') && v'.selector == v.selector
  {
    var b, v' := Base(v), Apply(v, step).value;
    assert Base(v') == Apply(b, step).value && v'.joined == map[];
    if step.Join? {
      JoinIsSmooth(b, step, header);
      assert StaleFor(v', step.mark.header);
    } else {
      StepStaysSmooth(b, step, header);
      assert StaleFor(v', header);
    }
  }

  lemma StaleKeepsTags(s: Watched, step: Step, header: string)
    requires StaleFor(s.world, header) && TagsFit(s) && SmoothStep(s.world, step) && Apply(s.world, step).Some?
    ensures TagsFit(ApplyWatched(s, Plain(step)).value)
  {
    if !step.Advance? {
      StartKeepsTags(s, step);
    } else {
      var session := s.world.active.value;
      StaleCalls(s.world, session, step, header);
      if session.phase.MakeStuntman? {
        assert s.tags == map[] by {
          NoOriginNoWatcher(s, header);
        }
        hide Smooth, Apply;
      } else {
        hide Smooth, Apply;
        AdvanceKeepsTags(s.(world := Base(s.world)), step, header);
      }
    }
  }

  lemma NoOriginNoWatcher(s: Watched, header: string)
    requires StaleFor(s.world, header) && TagsFit(s) && s.world.active.Some? && s.world.active.value.phase.MakeStuntman?
    ensures s.tags == map[]
  {
    assert forall id :: id !in s.tags;
    hide SessionsFit, BooksFit;
  }

  lemma StalePlain(s: Watched, step: Step)
    requires IsStale(s.world) && TagsFit(s) && SmoothStep(s.world, step) && Apply(s.world, step).Some?
    ensures var after := ApplyWatched(s, Plain(step)).value;
            IsStale(after.world) && TagsFit(after) && after.world.selector == s.world.selector
  {
    var header :| StaleFor(s.world, header);
    StaleKeepsTags(s, step, header);
    hide StaleFor, Apply, TagsFit;
    if step.Advance? {
      assert s.world.active.Some? by {
        StaleAdvanceIsActive(s.world, step);
      }
      StaleAdvances(s.world, s.world.active.value, step, header);
    } else {
      StaleStarts(s.world, step, header);
    }
  }

  lemma StaleAdvanceIsActive(w: World, step: Step)
    requires step.Advance? && Apply(w, step).Some?
    ensures w.active.Some?
  {
  }

  // ----- runs -----

  predicate CallSucceeds(s: Watched, step: WatchStep) {
    step.Plain? ==> SmoothStep(s.world, step.step)
  }

  predicate CallsSucceed(steps: seq<WatchStep>) {
    steps != [] ==>
      && CallsSucceed(steps[..|steps| - 1])
      && var before := RunWatched(steps[..|steps| - 1]);
         before.Some? ==> CallSucceeds(before.value, steps[|steps| - 1])
  }

  predicate HarmedAfter(s: Watched, harmed: bool, step: WatchStep) {
    match step
    case Plain(_) => harmed
    case Edit(_) => false
    case See(_) => harmed
    case Write(_) => harmed || HasGivenBack(s.world)
  }

  /** Since the last edit a watcher has written after a last session gave the service back. */
  predicate Harmed(steps: seq<WatchStep>) {
    && steps != []
    && var before := RunWatched(steps[..|steps| - 1]);
       before.Some? && HarmedAfter(before.value, Harmed(steps[..|steps| - 1]), steps[|steps| - 1])
  }

  ghost predicate Holds(s: Watched, harmed: bool) {
    && TagsFit(s)
    && if harmed then IsStale(s.world) && s.world.selector != Original
       else IsNearlySmooth(s.world) || (IsStale(s.world) && s.world.selector == Original)
  }

  lemma LateWrite(s: Watched, id: nat, w: World, header: string)
    requires Smooth(w, header) && IsEdit(s.world, w) && Free(w) && w.joined == map[] && HasGivenBack(w)
    requires TagsFit(s) && ApplyWatched(s, Write(id)).Some?
    ensures Holds(ApplyWatched(s, Write(id)).value, true)
  {
    var after := ApplyWatched(s, Write(id)).value.world;
    hide Smooth;
    assert s.world == w && Base(after) == w;
    assert StaleFor(after, header);
  }

  lemma EarlyWrite(s: Watched, id: nat, w: World)
    requires IsSmooth(w) && IsEdit(s.world, w) && Taken(w)
    requires TagsFit(s) && ApplyWatched(s, Write(id)).Some? && w.router.value.tag == s.tags[id]
    ensures Holds(ApplyWatched(s, Write(id)).value, false)
  {
    hide IsSmooth;
    assert ApplyWatched(s, Write(id)).value.world == w;
    assert IsEdit(w, w) && IsNearlySmooth(w);
  }

  lemma NearWrite(s: Watched, id: nat)
    requires IsNearlySmooth(s.world) && TagsFit(s) && ApplyWatched(s, Write(id)).Some?
    ensures Holds(ApplyWatched(s, Write(id)).value, HasGivenBack(s.world))
  {
    var w := NearlySmoothIsNear(s.world);
    var header :| Smooth(w, header);
    hide Smooth, Taken, Holds;
    TakenUnlessGivenBack(s.(world := w), id, header);
    if HasGivenBack(s.world) {
      LateWrite(s, id, w, header);
    } else {
      EarlyWrite(s, id, w);
    }
  }

  lemma StaleWrite(s: Watched, id: nat)
    requires IsStale(s.world) && TagsFit(s) && ApplyWatched(s, Write(id)).Some?
    ensures HasGivenBack(s.world) && Holds(ApplyWatched(s, Write(id)).value, true)
  {
    var header :| StaleFor(s.world, header);
    TakenUnlessGivenBack(s.(world := Base(s.world)), id, header);
    var after := ApplyWatched(s, Write(id)).value.world;
    assert Base(after) == Base(s.world);
    assert StaleFor(after, header);
  }

  lemma EditHeals(s: Watched, keepsAnnotation: bool, harmed: bool)
    requires Holds(s, harmed)
    ensures Holds(ApplyWatched(s, Edit(keepsAnnotation)).value, false)
  {
    var v, after := s.world, Edited(s.world, keepsAnnotation);
    hide Smooth, Apply;
    if !harmed && IsNearlySmooth(v) {
      var w :| IsSmooth(w) && IsEdit(v, w);
      assert IsEdit(after, w);
    } else {
      var header :| StaleFor(v, header);
      if keepsAnnotation {
        assert Base(after) == Base(v);
        assert StaleFor(after, header);
      } else {
        assert after == Base(v) && IsSmooth(after) && IsEdit(after, after);
      }
    }
  }

  lemma StepHolds(s: Watched, harmed: bool, step: WatchStep)
    requires Holds(s, harmed) && CallSucceeds(s, step) && ApplyWatched(s, step).Some?
    ensures Holds(ApplyWatched(s, step).value, HarmedAfter(s, harmed, step))
  {
    hide IsStale, IsNearlySmooth, Apply;
    match step
    case Plain(plain) =>
      if !harmed && IsNearlySmooth(s.world) {
        PlainStaysNear(s, plain);
      } else {
        StalePlain(s, plain);
      }
    case Edit(keepsAnnotation) => EditHeals(s, keepsAnnotation, harmed);
    case See(id) =>
    case Write(id) =>
      if !harmed && IsNearlySmooth(s.world) {
        NearWrite(s, id);
      } else {
        StaleWrite(s, id);
      }
  }

  lemma NearlySmoothIsServed(v: World)
    requires IsNearlySmooth(v)
    ensures Served(v)
  {
    var w := NearlySmoothIsNear(v);
    var header :| Smooth(w, header);
    SmoothIsServed(w, header);
  }

  lemma HoldsIsServed(s: Watched, harmed: bool)
    requires Holds(s, harmed)
    ensures !harmed ==> Served(s.world)
    ensures s.world.active.None? ==> (Served(s.world) <==> !harmed)
  {
    hide TagsFit;
    if !harmed && IsNearlySmooth(s.world) {
      NearlySmoothIsServed(s.world);
    } else {
      var header :| StaleFor(s.world, header);
      StaleIsServedIff(s.world, header);
    }
  }

  lemma {:induction false} RunHolds(steps: seq<WatchStep>)
    requires RunWatched(steps).Some? && CallsSucceed(steps)
    ensures Holds(RunWatched(steps).value, Harmed(steps))
  {
    if steps == [] {
      UntouchedIsSmooth();
      assert IsEdit(UNTOUCHED, UNTOUCHED) && IsNearlySmooth(UNTOUCHED);
    } else {
      var n := |steps| - 1;
      RunHolds(steps[..n]);
      hide ApplyWatched, CallSucceeds, HarmedAfter, Holds;
      StepHolds(RunWatched(steps[..n]).value, Harmed(steps[..n]), steps[n]);
    }
  }

  /** Joins and leaves in which every call succeeds, with watchers at work and others putting the service back at any
      moment: traffic is served between any two steps, unless a watcher has written after a last session gave the
      service back, and nobody has put it back since. Once nobody is joining or leaving, that is exactly when it is not
      served. */
  lemma TrafficWithWatchersIff(steps: seq<WatchStep>)
    requires RunWatched(steps).Some? && CallsSucceed(steps)
    ensures !Harmed(steps) ==> Served(RunWatched(steps).value.world)
    ensures RunWatched(steps).value.world.active.None? ==> (Served(RunWatched(steps).value.world) <==> !Harmed(steps))
  {
    RunHolds(steps);
    hide Holds, Served, RunWatched, Harmed;
    HoldsIsServed(RunWatched(steps).value, Harmed(steps));
  }
}
