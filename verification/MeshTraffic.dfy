/** Runs of joins and leaves in which every call succeeds and nobody joins with another header than that of the router
    that is there: unmarked requests always reach the original pods, and the router's configuration is exact. */
module MeshTraffic {
  import opened Text
  import opened Calls
  import opened RouterPod
  import opened Mesh

  /** A request without a matching header reaches pods of the original selector: directly, or through the router's proxy
      and the stuntman service. */
  predicate Served(w: World) {
    || w.selector == Original
    || (&& w.router.Some? && w.selector == ToRouter(w.router.value.tag)
        && w.router.value.conf.Some? && w.router.value.conf.value.versions != []
        && w.stuntman == Some(Original))
  }

  function VersionsOf(joined: map<nat, Mark>): set<string> {
    set id | id in joined :: joined[id].version
  }

  // ----- what holds between any two calls -----

  ghost predicate SessionsFit(joined: map<nat, Mark>, failed: map<nat, (Mark, Store)>, header: string) {
    && (forall id | id in joined :: id !in failed && joined[id].header == header)
    && (forall i, j | i in joined && j in joined && i != j :: joined[i].version != joined[j].version)
    && (forall id | id in failed :: failed[id].1 == NOTHING)
  }

  /** The store of a session that is joining. */
  function StoreAt(phase: Phase): Store
    requires IsJoining(phase)
  {
    match phase
    case MakeRouter => Store(false, false, true, false)
    case Setup => Store(false, false, true, false)
    case AddVersion => Store(false, false, true, false)
    case Switch => Store(true, false, true, false)
    case MakeShadowPod => Store(true, true, true, false)
    case _ => NOTHING
  }

  predicate ActiveFits(s: Session, joined: map<nat, Mark>, failed: map<nat, (Mark, Store)>, header: string) {
    && (s.store != NOTHING || IsJoining(s.phase) ==> s.mark.header == header)
    && s.id !in joined && s.id !in failed
    && (s.store != NOTHING || (IsJoining(s.phase) && !s.phase.CheckName?) ==> s.mark.version !in VersionsOf(joined))
    && if IsJoining(s.phase) then s.store == StoreAt(s.phase)
       else if s.store == NOTHING then s.phase.FindRouter? || s.phase.DropShadowService? || s.phase.DropShadowPod?
       else s.store == EVERYTHING
  }

  /** What of the router and the shadows belongs to the session that is joining or leaving. */
  datatype Share = Share(claims: bool, lists: bool, owns: bool, shadows: bool, setsUp: bool, version: string)

  const NO_SHARE := Share(false, false, false, false, false, "")

  function ShareOf(s: Session): Share {
    Share(s.Claims(), s.Lists(), s.OwnsService(), s.store.shadow, s.phase.Setup?, s.mark.version)
  }

  function With(versions: set<string>, added: bool, version: string): set<string> {
    if added then versions + {version} else versions
  }

  predicate CountFits(router: Option<Router>, sessions: nat) {
    match router
    case None => sessions == 0
    case Some(r) => r.refs == sessions && sessions >= 1
  }

  ghost predicate ListsExactly(conf: Conf, versions: set<string>, header: string) {
    && conf.header == header && conf.versions != [] && NoDuplicates(conf.versions)
    && forall v :: v in conf.versions <==> v in versions
  }

  /** A router is without a configuration only while its first session sets it up. */
  ghost predicate ConfFits(router: Option<Router>, setsUp: bool, versions: set<string>, header: string) {
    router.Some? ==>
      if setsUp then router.value.conf.None?
      else router.value.conf.Some? && ListsExactly(router.value.conf.value, versions, header)
  }

  /** The router and the shadows are those of the joined sessions and of the active one. */
  ghost predicate BooksFit(w: World, f: Share, header: string) {
    && CountFits(w.router, |w.joined| + if f.claims then 1 else 0)
    && ConfFits(w.router, f.setsUp, With(VersionsOf(w.joined), f.lists, f.version), header)
    && w.shadowServices == With(VersionsOf(w.joined), f.owns, f.version)
    && w.shadowPods == With(VersionsOf(w.joined), f.shadows, f.version)
  }

  predicate Taken(w: World) {
    && w.router.Some? && w.selector == ToRouter(w.router.value.tag)
    && w.saved == Some(Original) && w.stuntman == Some(Original)
  }

  predicate Free(w: World) {
    w.selector == Original && w.saved == None
  }

  predicate Settled(w: World) {
    if w.joined == map[] then Free(w) && w.stuntman == None else Taken(w)
  }

  /** A stuntman to fall back on exists. */
  predicate Prepared(w: World) {
    if w.joined == map[] then Free(w) && w.stuntman == Some(Original) else Taken(w)
  }

  predicate TakeoverFits(w: World) {
    if w.active.None? then Settled(w)
    else match w.active.value.phase
      case MakeShadowService => Prepared(w)
      case MakeRouter => Prepared(w)
      case Setup => w.joined == map[] && Prepared(w) && w.router.Some?
      case AddVersion => w.joined != map[] && Taken(w)
      case Switch => Prepared(w) && w.router.Some?
      case MakeShadowPod => Taken(w)
      case FindRouter => if w.active.value.store.router then Taken(w) else Settled(w)
      case ReadCount => Taken(w)
      case CountDown => Taken(w)
      case Restore(last) => last && w.joined == map[] && Taken(w)
      case DropStuntman(last) => last && w.joined == map[] && Free(w) && w.router.Some?
      case DropRouter => w.joined == map[] && Settled(w) && w.router.Some?
      case RemoveVersion => w.joined != map[] && Taken(w)
      case _ => Settled(w)
  }

  ghost predicate Smooth(w: World, header: string) {
    && SessionsFit(w.joined, w.failed, header)
    && TakeoverFits(w)
    && (w.active.Some? ==> ActiveFits(w.active.value, w.joined, w.failed, header))
    && BooksFit(w, if w.active.Some? then ShareOf(w.active.value) else NO_SHARE, header)
  }

  /** The header of the router, if there is one. */
  predicate HeaderFits(w: World, header: string) {
    w.router.Some? && w.router.value.conf.Some? ==> w.router.value.conf.value.header == header
  }

  predicate SmoothStep(w: World, step: Step) {
    match step
    case Join(_, mark) => HeaderFits(w, mark.header)
    case Leave(_) => true
    case Advance(outcome, _) => outcome.Done?
  }

  predicate SmoothRun(steps: seq<Step>) {
    steps != [] ==>
      && SmoothRun(steps[..|steps| - 1])
      && var before := Run(UNTOUCHED, steps[..|steps| - 1]);
         before.Some? ==> SmoothStep(before.value, steps[|steps| - 1])
  }

  lemma VersionsOfJoined(joined: map<nat, Mark>, id: nat, mark: Mark)
    requires id !in joined
    ensures VersionsOf(joined[id := mark]) == VersionsOf(joined) + {mark.version}
    ensures |joined[id := mark]| == |joined| + 1 && joined[id := mark] != map[]
  {
    assert id in joined[id := mark];
    forall v | v in VersionsOf(joined) + {mark.version}
      ensures v in VersionsOf(joined[id := mark])
    {
      if v in VersionsOf(joined) {
        var i :| i in joined && joined[i].version == v;
        assert i in joined[id := mark] && joined[id := mark][i].version == v;
      } else {
        assert joined[id := mark][id].version == v;
      }
    }
  }

  lemma VersionsOfLeft(joined: map<nat, Mark>, id: nat)
    requires id in joined
    requires forall i, j | i in joined && j in joined && i != j :: joined[i].version != joined[j].version
    ensures VersionsOf(joined - {id}) == VersionsOf(joined) - {joined[id].version}
    ensures joined[id].version in VersionsOf(joined)
    ensures |joined - {id}| == |joined| - 1
  {
    assert (joined - {id}).Keys == joined.Keys - {id};
    forall v | v in VersionsOf(joined) - {joined[id].version}
      ensures v in VersionsOf(joined - {id})
    {
      var i :| i in joined && joined[i].version == v;
      assert i in joined - {id};
    }
  }

  /** Somebody has joined exactly if some version is listed. */
  lemma SomebodyJoined(joined: map<nat, Mark>)
    ensures joined == map[] <==> |joined| == 0
    ensures joined == map[] <==> VersionsOf(joined) == {}
  {
    if joined != map[] {
      var id :| id in joined;
      assert joined[id].version in VersionsOf(joined);
    }
  }

  // ----- what each change of the cluster does to the books -----

  lemma ServiceMade(w: World, f: Share, header: string)
    requires BooksFit(w, f, header) && !f.owns
    ensures BooksFit(w.(shadowServices := w.shadowServices + {f.version}), f.(owns := true), header)
  {
    hide CountFits, ConfFits, VersionsOf;
  }

  lemma RouterMade(w: World, f: Share, tag: nat, header: string)
    requires BooksFit(w, f, header) && w.router.None?
    ensures w.joined == map[] && !f.claims
    ensures BooksFit(w.(router := Some(Router(tag, 1, None))), f.(claims := true, setsUp := true), header)
  {
    hide VersionsOf, ListsExactly;
  }

  lemma RouterShared(w: World, f: Share, header: string)
    requires BooksFit(w, f, header) && w.router.Some? && !f.claims
    ensures w.joined != map[]
    ensures BooksFit(w.(router := Some(w.router.value.(refs := w.router.value.refs + 1))), f.(claims := true), header)
  {
    hide VersionsOf, ListsExactly;
  }

  lemma RouterSetUp(w: World, f: Share, header: string)
    requires BooksFit(w, f, header) && w.router.Some? && f.setsUp && w.joined == map[]
    ensures BooksFit(w.(router := Some(w.router.value.(conf := Some(Conf(header, [f.version]))))),
                     f.(setsUp := false, lists := true), header)
  {
    SomebodyJoined(w.joined);
    hide VersionsOf;
  }

  lemma VersionAdded(w: World, f: Share, header: string)
    requires BooksFit(w, f, header) && w.router.Some? && !f.setsUp && !f.lists && f.version !in VersionsOf(w.joined)
    ensures w.router.value.conf.Some? && w.router.value.conf.value.header == header
    ensures var conf := w.router.value.conf.value;
            BooksFit(w.(router := Some(w.router.value.(conf := Some(conf.(versions := conf.versions + [f.version]))))),
                     f.(lists := true), header)
  {
    hide VersionsOf;
    AppendIsAddition(w.router.value.conf.value.versions, f.version);
    hide NoDuplicates;
  }

  lemma CountedDown(w: World, f: Share, header: string)
    requires BooksFit(w, f, header) && w.router.Some? && f.claims
    ensures w.router.value.refs == 1 <==> w.joined == map[]
    ensures w.router.value.refs != 1 ==>
              BooksFit(w.(router := Some(w.router.value.(refs := w.router.value.refs - 1))), f.(claims := false),
                       header)
  {
    SomebodyJoined(w.joined);
    hide VersionsOf, ListsExactly;
  }

  lemma VersionRemoved(w: World, f: Share, header: string)
    requires BooksFit(w, f, header) && w.router.Some? && !f.setsUp && f.lists
    requires w.joined != map[] && f.version !in VersionsOf(w.joined)
    ensures w.router.value.conf.Some? && w.router.value.conf.value.header == header
    ensures var conf := w.router.value.conf.value;
            var versions := RemoveFirst(conf.versions, f.version);
            BooksFit(w.(router := Some(w.router.value.(conf := Some(conf.(versions := versions))))),
                     f.(lists := false), header)
  {
    SomebodyJoined(w.joined);
    hide VersionsOf, NoDuplicates, RemoveFirst;
    RemoveFirstIsRemoval(w.router.value.conf.value.versions, f.version);
    var v :| v in VersionsOf(w.joined);
    assert v in RemoveFirst(w.router.value.conf.value.versions, f.version);
  }

  lemma RouterDropped(w: World, f: Share, header: string)
    requires BooksFit(w, f, header) && w.joined == map[]
    ensures BooksFit(w.(router := None), f.(claims := false, lists := false), header)
  {
    hide VersionsOf, ListsExactly;
  }

  lemma ServiceDropped(w: World, f: Share, header: string)
    requires BooksFit(w, f, header) && f.version !in VersionsOf(w.joined)
    ensures BooksFit(w.(shadowServices := w.shadowServices - {f.version}), f.(owns := false), header)
  {
    hide CountFits, ConfFits, VersionsOf;
  }

  lemma PodDropped(w: World, f: Share, header: string)
    requires BooksFit(w, f, header) && f.version !in VersionsOf(w.joined)
    ensures BooksFit(w.(shadowPods := w.shadowPods - {f.version}), f.(shadows := false), header)
  {
    hide CountFits, ConfFits, VersionsOf;
  }

  lemma ShareJoined(w: World, f: Share, id: nat, mark: Mark, header: string)
    requires BooksFit(w, f, header) && f.claims && f.lists && f.owns && !f.shadows && !f.setsUp
    requires id !in w.joined && mark.version == f.version
    ensures BooksFit(w.(joined := w.joined[id := mark], shadowPods := w.shadowPods + {f.version}), NO_SHARE, header)
  {
    VersionsOfJoined(w.joined, id, mark);
    hide CountFits, ConfFits, VersionsOf;
  }

  lemma JoinedSessionsFit(joined: map<nat, Mark>, failed: map<nat, (Mark, Store)>, id: nat, mark: Mark, header: string)
    requires SessionsFit(joined, failed, header)
    requires id !in joined && id !in failed && mark.version !in VersionsOf(joined) && mark.header == header
    ensures SessionsFit(joined[id := mark], failed, header)
  {
    assert forall id | id in joined :: joined[id].version in VersionsOf(joined);
  }

  // ----- what each call does to the session and to the service -----

  ghost predicate Fits(w: World, header: string) {
    && TakeoverFits(w)
    && (w.active.Some? ==> ActiveFits(w.active.value, w.joined, w.failed, header))
  }

  lemma CallCheckName(w: World, s: Session, tag: nat, header: string)
    requires w.active == Some(s) && s.phase.CheckName? && Fits(w, header)
    requires s.mark.version !in w.shadowPods && s.mark.version !in VersionsOf(w.joined)
    ensures var next := s.(phase := MakeStuntman);
            && JoinNext(w, s, Done, tag) == w.(active := Some(next))
            && Fits(w.(active := Some(next)), header) && ShareOf(next) == ShareOf(s)
  {
    hide VersionsOf;
  }

  lemma CallMakeStuntman(w: World, s: Session, tag: nat, header: string)
    requires w.active == Some(s) && s.phase.MakeStuntman? && Fits(w, header)
    ensures var v, next := JoinNext(w, s, Done, tag), s.(phase := MakeShadowService);
            && v == w.(stuntman := v.stuntman, active := Some(next)) && Fits(v, header) && ShareOf(next) == ShareOf(s)
  {
    hide VersionsOf;
  }

  lemma CallMakeShadowService(w: World, s: Session, tag: nat, header: string)
    requires w.active == Some(s) && s.phase.MakeShadowService? && Fits(w, header) && s.mark.version !in w.shadowServices
    ensures var v, next := JoinNext(w, s, Done, tag), s.(phase := MakeRouter, store := s.store.(service := true));
            && v == w.(shadowServices := w.shadowServices + {s.mark.version}, active := Some(next)) && Fits(v, header)
            && !ShareOf(s).owns && ShareOf(next) == ShareOf(s).(owns := true)
  {
    hide VersionsOf;
  }

  lemma CallMakeRouter(w: World, s: Session, tag: nat, header: string)
    requires w.active == Some(s) && s.phase.MakeRouter? && Fits(w, header) && w.router.None? && w.joined == map[]
    ensures var v, next := JoinNext(w, s, Done, tag), s.(phase := Setup);
            && v == w.(router := Some(Router(tag, 1, None)), active := Some(next)) && Fits(v, header)
            && ShareOf(next) == ShareOf(s).(claims := true, setsUp := true)
  {
    hide VersionsOf;
  }

  lemma CallShareRouter(w: World, s: Session, tag: nat, header: string)
    requires w.active == Some(s) && s.phase.MakeRouter? && Fits(w, header) && w.router.Some? && w.joined != map[]
    ensures var v, next := JoinNext(w, s, Done, tag), s.(phase := AddVersion);
            && v == w.(router := Some(w.router.value.(refs := w.router.value.refs + 1)), active := Some(next))
               && Fits(v, header)
            && !ShareOf(s).claims && ShareOf(next) == ShareOf(s).(claims := true)
  {
    hide VersionsOf;
  }

  lemma CallSetup(w: World, s: Session, tag: nat, header: string)
    requires w.active == Some(s) && s.phase.Setup? && Fits(w, header)
    ensures w.router.Some? && w.joined == map[] && ShareOf(s).setsUp
    ensures var v, next := JoinNext(w, s, Done, tag), s.(phase := Switch, store := s.store.(router := true));
            && v == w.(router := Some(w.router.value.(conf := Some(Conf(header, [s.mark.version])))),
                       active := Some(next))
            && Fits(v, header) && ShareOf(next) == ShareOf(s).(setsUp := false, lists := true)
  {
    hide VersionsOf;
  }

  lemma CallAddVersion(w: World, s: Session, tag: nat, header: string)
    requires w.active == Some(s) && s.phase.AddVersion? && Fits(w, header)
    requires w.router.Some? ==> w.router.value.conf.Some? && w.router.value.conf.value.header == header
    ensures w.router.Some? && !ShareOf(s).setsUp && !ShareOf(s).lists && s.mark.version !in VersionsOf(w.joined)
    ensures var v, next := JoinNext(w, s, Done, tag), s.(phase := Switch, store := s.store.(router := true));
            var conf := w.router.value.conf.value;
            var versions := conf.versions + [s.mark.version];
            && v == w.(router := Some(w.router.value.(conf := Some(conf.(versions := versions)))),
                       active := Some(next))
            && Fits(v, header) && ShareOf(next) == ShareOf(s).(lists := true)
  {
    hide VersionsOf;
  }

  lemma CallSwitch(w: World, s: Session, tag: nat, header: string)
    requires w.active == Some(s) && s.phase.Switch? && Fits(w, header)
    ensures var v, next := JoinNext(w, s, Done, tag), s.(phase := MakeShadowPod, store := s.store.(origin := true));
            && v == w.(selector := v.selector, saved := v.saved, active := Some(next)) && Fits(v, header)
            && ShareOf(next) == ShareOf(s)
  {
    hide VersionsOf;
  }

  lemma CallMakeShadowPod(w: World, s: Session, tag: nat, header: string)
    requires w.active == Some(s) && s.phase.MakeShadowPod? && Fits(w, header) && s.mark.version !in w.shadowPods
    ensures var v := JoinNext(w, s, Done, tag);
            && v == w.(joined := w.joined[s.id := s.mark], shadowPods := w.shadowPods + {s.mark.version},
                       active := None)
            && Fits(v, header)
    ensures s.id !in w.joined && s.id !in w.failed && s.mark.version !in VersionsOf(w.joined) && s.mark.header == header
    ensures var f := ShareOf(s); f.claims && f.lists && f.owns && !f.shadows && !f.setsUp
  {
    assert s.id in w.joined[s.id := s.mark];
    hide VersionsOf;
  }

  lemma CallFindRouter(w: World, s: Session, header: string)
    requires w.active == Some(s) && s.phase.FindRouter? && Fits(w, header)
    ensures var v := LeaveNext(w, s, Done);
            && v == w.(active := v.active) && v.active.Some? && Fits(v, header) && ShareOf(v.active.value) == ShareOf(s)
  {
    hide VersionsOf;
  }

  lemma CallReadCount(w: World, s: Session, header: string)
    requires w.active == Some(s) && s.phase.ReadCount? && Fits(w, header)
    ensures var v := LeaveNext(w, s, Done);
            && v == w.(active := v.active) && v.active.Some? && Fits(v, header) && ShareOf(v.active.value) == ShareOf(s)
  {
    hide VersionsOf;
  }

  lemma CallCountDown(w: World, s: Session, header: string)
    requires w.active == Some(s) && s.phase.CountDown? && Fits(w, header)
    requires w.router.Some? ==> (w.router.value.refs == 1 <==> w.joined == map[])
    ensures w.router.Some? && ShareOf(s).claims
    ensures var v, next := LeaveNext(w, s, Done), s.(phase := RemoveVersion);
            w.router.value.refs != 1 ==>
              && v == w.(router := Some(w.router.value.(refs := w.router.value.refs - 1)), active := Some(next))
                 && Fits(v, header)
              && ShareOf(next) == ShareOf(s).(claims := false)
    ensures var v, next := LeaveNext(w, s, Done), s.(phase := Restore(true));
            w.router.value.refs == 1 ==>
              v == w.(active := Some(next)) && Fits(v, header) && ShareOf(next) == ShareOf(s)
  {
    hide VersionsOf;
  }

  lemma CallRestore(w: World, s: Session, header: string)
    requires w.active == Some(s) && (s.phase.Restore? || s.phase.DropStuntman?) && Fits(w, header)
    ensures var v := LeaveNext(w, s, Done);
            && v == w.(selector := v.selector, saved := v.saved, stuntman := v.stuntman, active := v.active)
            && v.active.Some? && Fits(v, header) && ShareOf(v.active.value) == ShareOf(s)
  {
    hide VersionsOf;
  }

  lemma CallDropRouter(w: World, s: Session, header: string)
    requires w.active == Some(s) && s.phase.DropRouter? && Fits(w, header)
    ensures w.joined == map[]
    ensures var v, next := LeaveNext(w, s, Done), s.(phase := DropShadowService);
            && v == w.(router := None, active := Some(next)) && Fits(v, header)
            && ShareOf(next) == ShareOf(s).(claims := false, lists := false)
  {
    hide VersionsOf;
  }

  lemma CallRemoveVersion(w: World, s: Session, header: string)
    requires w.active == Some(s) && s.phase.RemoveVersion? && Fits(w, header)
    requires w.router.Some? ==> w.router.value.conf.Some? && w.router.value.conf.value.header == header
    ensures w.router.Some? && ShareOf(s).lists && !ShareOf(s).setsUp
    ensures w.joined != map[] && s.mark.version !in VersionsOf(w.joined)
    ensures var v, next := LeaveNext(w, s, Done), s.(phase := DropShadowService);
            var conf := w.router.value.conf.value;
            var versions := RemoveFirst(conf.versions, s.mark.version);
            && v == w.(router := Some(w.router.value.(conf := Some(conf.(versions := versions)))),
                       active := Some(next))
            && Fits(v, header) && ShareOf(next) == ShareOf(s).(lists := false)
  {
    hide VersionsOf, RemoveFirst;
  }

  lemma CallDropShadowService(w: World, s: Session, header: string)
    requires w.active == Some(s) && s.phase.DropShadowService? && Fits(w, header)
    ensures var v, next := LeaveNext(w, s, Done), s.(phase := DropShadowPod);
            && v == w.(shadowServices := w.shadowServices - if s.store.service then {s.mark.version} else {},
                       active := Some(next))
            && Fits(v, header) && ShareOf(next) == ShareOf(s).(owns := false)
    ensures s.store.service ==> s.mark.version !in VersionsOf(w.joined)
    ensures !s.store.service ==> !ShareOf(s).owns
  {
    hide VersionsOf;
  }

  lemma CallDropShadowPod(w: World, s: Session, header: string)
    requires w.active == Some(s) && s.phase.DropShadowPod? && Fits(w, header)
    ensures var v := LeaveNext(w, s, Done);
            && v == w.(shadowPods := w.shadowPods - if s.store.shadow then {s.mark.version} else {}, active := None)
            && Fits(v, header)
    ensures ShareOf(s).shadows ==> s.mark.version !in VersionsOf(w.joined)
    ensures ShareOf(s).shadows == s.store.shadow
            && ShareOf(s) == Share(false, false, false, s.store.shadow, false, s.mark.version)
  {
    hide VersionsOf;
  }

  // ----- every step of a smooth run -----

  /** The books of u are those of v: only the service and the active session differ. */
  lemma Assembled(u: World, v: World, f: Share, header: string)
    requires v == u.(selector := v.selector, saved := v.saved, stuntman := v.stuntman, active := v.active)
    requires SessionsFit(u.joined, u.failed, header) && Fits(v, header) && BooksFit(u, f, header)
    requires f == if v.active.Some? then ShareOf(v.active.value) else NO_SHARE
    ensures Smooth(v, header)
  {
    hide SessionsFit, TakeoverFits, ActiveFits, CountFits, ConfFits, VersionsOf, With, ShareOf;
  }

  lemma Unpacked(w: World, s: Session, header: string)
    requires Smooth(w, header) && w.active == Some(s)
    ensures SessionsFit(w.joined, w.failed, header) && Fits(w, header) && BooksFit(w, ShareOf(s), header)
    ensures s.mark.version !in VersionsOf(w.joined) ==>
              && (s.mark.version in w.shadowServices ==> ShareOf(s).owns)
              && (s.mark.version in w.shadowPods ==> ShareOf(s).shadows)
    ensures s.mark.version !in w.shadowPods ==> s.mark.version !in VersionsOf(w.joined)
  {
    hide SessionsFit, TakeoverFits, ActiveFits, CountFits, ConfFits, VersionsOf;
  }

  lemma SmoothCheckName(w: World, s: Session, tag: nat, header: string)
    requires Smooth(w, header) && w.active == Some(s) && s.phase.CheckName?
    ensures Smooth(JoinNext(w, s, Done, tag), header)
  {
    Unpacked(w, s, header);
    var v := JoinNext(w, s, Done, tag);
    if s.mark.version in w.shadowPods {
      NameRefused(w, s, tag, header);
    } else {
      CallCheckName(w, s, tag, header);
      hide JoinNext, Fits, BooksFit, ShareOf, SessionsFit, Smooth, VersionsOf;
      Assembled(w, v, ShareOf(s), header);
    }
  }

  /** The version is somebody else's: the command fails before it made anything. */
  lemma NameRefused(w: World, s: Session, tag: nat, header: string)
    requires Smooth(w, header) && w.active == Some(s) && s.phase.CheckName? && s.mark.version in w.shadowPods
    ensures Smooth(JoinNext(w, s, Done, tag), header)
  {
    hide CountFits, ConfFits, VersionsOf;
  }

  lemma SmoothJoin(w: World, s: Session, tag: nat, header: string)
    requires Smooth(w, header) && w.active == Some(s) && IsJoining(s.phase)
    ensures Smooth(JoinNext(w, s, Done, tag), header)
  {
    Unpacked(w, s, header);
    var v, f := JoinNext(w, s, Done, tag), ShareOf(s);
    var made := w.(router := v.router, shadowServices := v.shadowServices, shadowPods := v.shadowPods);
    hide JoinNext, Fits, BooksFit, ShareOf, SessionsFit, Smooth, VersionsOf;
    match s.phase
    case CheckName => SmoothCheckName(w, s, tag, header);
    case MakeStuntman =>
      CallMakeStuntman(w, s, tag, header);
      Assembled(w, v, f, header);
    case MakeShadowService =>
      CallMakeShadowService(w, s, tag, header);
      ServiceMade(w, f, header);
      Assembled(made, v, f.(owns := true), header);
    case MakeRouter =>
      if w.router.None? {
        RouterMade(w, f, tag, header);
        CallMakeRouter(w, s, tag, header);
        Assembled(made, v, f.(claims := true, setsUp := true), header);
      } else {
        RouterShared(w, f, header);
        CallShareRouter(w, s, tag, header);
        Assembled(made, v, f.(claims := true), header);
      }
    case Setup =>
      CallSetup(w, s, tag, header);
      RouterSetUp(w, f, header);
      Assembled(made, v, f.(setsUp := false, lists := true), header);
    case AddVersion =>
      CallAddVersion(w, s, tag, header);
      VersionAdded(w, f, header);
      Assembled(made, v, f.(lists := true), header);
    case Switch =>
      CallSwitch(w, s, tag, header);
      Assembled(w, v, f, header);
    case MakeShadowPod =>
      CallMakeShadowPod(w, s, tag, header);
      ShareJoined(w, f, s.id, s.mark, header);
      JoinedSessionsFit(w.joined, w.failed, s.id, s.mark, header);
      Assembled(made.(joined := v.joined), v, NO_SHARE, header);
  }

  lemma SmoothLeave(w: World, s: Session, header: string)
    requires Smooth(w, header) && w.active == Some(s) && !IsJoining(s.phase)
    ensures Smooth(LeaveNext(w, s, Done), header)
  {
    Unpacked(w, s, header);
    var v, f := LeaveNext(w, s, Done), ShareOf(s);
    var made := w.(router := v.router, shadowServices := v.shadowServices, shadowPods := v.shadowPods);
    hide LeaveNext, Fits, BooksFit, ShareOf, SessionsFit, Smooth, VersionsOf, RemoveFirst;
    match s.phase
    case FindRouter =>
      CallFindRouter(w, s, header);
      Assembled(w, v, f, header);
    case ReadCount =>
      CallReadCount(w, s, header);
      Assembled(w, v, f, header);
    case CountDown =>
      SmoothCountDown(w, s, header);
    case Restore(_) =>
      CallRestore(w, s, header);
      Assembled(w, v, f, header);
    case DropStuntman(_) =>
      CallRestore(w, s, header);
      Assembled(w, v, f, header);
    case DropRouter =>
      CallDropRouter(w, s, header);
      RouterDropped(w, f, header);
      Assembled(made, v, f.(claims := false, lists := false), header);
    case RemoveVersion =>
      CallRemoveVersion(w, s, header);
      VersionRemoved(w, f, header);
      Assembled(made, v, f.(lists := false), header);
    case DropShadowService =>
      SmoothDropShadowService(w, s, header);
    case DropShadowPod =>
      SmoothDropShadowPod(w, s, header);
  }

  lemma SmoothCountDown(w: World, s: Session, header: string)
    requires Smooth(w, header) && w.active == Some(s) && s.phase.CountDown?
    ensures Smooth(LeaveNext(w, s, Done), header)
  {
    Unpacked(w, s, header);
    var v, f := LeaveNext(w, s, Done), ShareOf(s);
    assert w.router.Some? && f.claims;
    CountedDown(w, f, header);
    CallCountDown(w, s, header);
    hide LeaveNext, Fits, BooksFit, ShareOf, SessionsFit, Smooth, VersionsOf;
    if w.router.value.refs == 1 {
      Assembled(w, v, f, header);
    } else {
      Assembled(w.(router := v.router), v, f.(claims := false), header);
    }
  }

  lemma SmoothDropShadowService(w: World, s: Session, header: string)
    requires Smooth(w, header) && w.active == Some(s) && s.phase.DropShadowService?
    ensures Smooth(LeaveNext(w, s, Done), header)
  {
    Unpacked(w, s, header);
    var v, f := LeaveNext(w, s, Done), ShareOf(s);
    hide LeaveNext, Fits, BooksFit, ShareOf, SessionsFit, Smooth, VersionsOf;
    CallDropShadowService(w, s, header);
    if s.store.service {
      ServiceDropped(w, f, header);
    }
    Assembled(w.(shadowServices := v.shadowServices), v, f.(owns := false), header);
  }

  lemma SmoothDropShadowPod(w: World, s: Session, header: string)
    requires Smooth(w, header) && w.active == Some(s) && s.phase.DropShadowPod?
    ensures Smooth(LeaveNext(w, s, Done), header)
  {
    Unpacked(w, s, header);
    var v, f := LeaveNext(w, s, Done), ShareOf(s);
    hide LeaveNext, Fits, BooksFit, ShareOf, SessionsFit, Smooth, VersionsOf;
    CallDropShadowPod(w, s, header);
    if s.store.shadow {
      PodDropped(w, f, header);
    }
    var u := w.(shadowPods := v.shadowPods);
    NoShare(u, f.(shadows := false), header);
    Assembled(u, v, NO_SHARE, header);
  }

  lemma NoShare(w: World, f: Share, header: string)
    requires BooksFit(w, f, header) && !f.claims && !f.lists && !f.owns && !f.shadows && !f.setsUp
    ensures BooksFit(w, NO_SHARE, header)
  {
    hide CountFits, ConfFits, VersionsOf;
  }

  /** A session that left the books for its own share: it is no longer among the joined ones. */
  lemma ShareLeft(w: World, id: nat, header: string)
    requires BooksFit(w, NO_SHARE, header) && SessionsFit(w.joined, w.failed, header) && id in w.joined
    ensures BooksFit(w.(joined := w.joined - {id}), Share(true, true, true, true, false, w.joined[id].version), header)
    ensures w.joined[id].version !in VersionsOf(w.joined - {id})
  {
    VersionsOfLeft(w.joined, id);
    assert VersionsOf(w.joined - {id}) + {w.joined[id].version} == VersionsOf(w.joined);
    hide ConfFits, VersionsOf, SessionsFit;
  }

  lemma Started(w: World, s: Session, header: string)
    requires w.active.None? && Settled(w) && s.id !in w.joined && s.id !in w.failed
    requires s.store == NOTHING && (s.phase.FindRouter? || (s.phase.CheckName? && s.mark.header == header))
    ensures Fits(w.(active := Some(s)), header) && ShareOf(s) == NO_SHARE.(version := s.mark.version)
  {
  }

  lemma StartedLeaving(w: World, id: nat, mark: Mark, header: string)
    requires w.active.None? && Taken(w) && id !in w.joined && id !in w.failed && mark.header == header
    requires mark.version !in VersionsOf(w.joined)
    ensures var s := Session(id, mark, EVERYTHING, FindRouter);
            Fits(w.(active := Some(s)), header) && ShareOf(s) == Share(true, true, true, true, false, mark.version)
  {
  }

  lemma SessionsLeft(joined: map<nat, Mark>, failed: map<nat, (Mark, Store)>, id: nat, header: string)
    requires SessionsFit(joined, failed, header)
    ensures SessionsFit(joined - {id}, failed, header) && SessionsFit(joined, failed - {id}, header)
    ensures id in failed ==> failed[id].1 == NOTHING
    ensures id in joined ==> id !in failed && joined[id].header == header
  {
  }

  lemma SmoothStartJoin(w: World, id: nat, mark: Mark, header: string)
    requires Smooth(w, header) && mark.header == header && Apply(w, Join(id, mark)).Some?
    ensures Smooth(Apply(w, Join(id, mark)).value, header)
  {
    var s := Session(id, mark, NOTHING, CheckName);
    Started(w, s, header);
    ShareOfNothing(w, mark.version, header);
    hide Fits, BooksFit, ShareOf, SessionsFit, Smooth, VersionsOf;
    Assembled(w, w.(active := Some(s)), NO_SHARE.(version := mark.version), header);
  }

  lemma SmoothStartLeave(w: World, id: nat, header: string)
    requires Smooth(w, header) && w.active.None? && id in w.joined && id !in w.failed
    ensures Smooth(w.(joined := w.joined - {id}, active := Some(Session(id, w.joined[id], EVERYTHING, FindRouter))),
                   header)
  {
    SessionsLeft(w.joined, w.failed, id, header);
    ShareLeft(w, id, header);
    var u, mark := w.(joined := w.joined - {id}), w.joined[id];
    assert Taken(u);
    hide Fits, BooksFit, ShareOf, SessionsFit, Smooth, VersionsOf, Taken;
    StartedLeaving(u, id, mark, header);
    Assembled(u, u.(active := Some(Session(id, mark, EVERYTHING, FindRouter))),
              Share(true, true, true, true, false, mark.version), header);
  }

  lemma SmoothStartFailedLeave(w: World, id: nat, header: string)
    requires Smooth(w, header) && w.active.None? && id in w.failed && id !in w.joined
    ensures var (mark, store) := w.failed[id];
            Smooth(w.(failed := w.failed - {id}, active := Some(Session(id, mark, store, FindRouter))), header)
  {
    SessionsLeft(w.joined, w.failed, id, header);
    var u, s := w.(failed := w.failed - {id}), Session(id, w.failed[id].0, NOTHING, FindRouter);
    assert Settled(u) && w.failed[id].1 == NOTHING;
    assert BooksFit(u, NO_SHARE, header) by {
      hide CountFits, ConfFits, VersionsOf;
    }
    hide Fits, BooksFit, ShareOf, SessionsFit, Smooth, VersionsOf, Settled;
    ShareOfNothing(u, s.mark.version, header);
    Started(u, s, header);
    Assembled(u, u.(active := Some(s)), NO_SHARE.(version := s.mark.version), header);
  }

  lemma ShareOfNothing(w: World, version: string, header: string)
    requires BooksFit(w, NO_SHARE, header)
    ensures BooksFit(w, NO_SHARE.(version := version), header)
  {
    hide CountFits, ConfFits, VersionsOf;
  }

  /** Without a router, any header will do for the next session. */
  lemma AnyHeader(w: World, header: string, other: string)
    requires Smooth(w, header) && w.active.None? && w.router.None?
    ensures Smooth(w, other)
  {
    SomebodyJoined(w.joined);
    hide VersionsOf, TakeoverFits;
  }

  /** What holds between any two calls: the invariant for the header of the sessions that are there. */
  ghost predicate IsSmooth(w: World) {
    exists header :: Smooth(w, header)
  }

  /** Every successful call keeps it. */
  lemma StepIsSmooth(w: World, step: Step)
    requires IsSmooth(w) && SmoothStep(w, step) && Apply(w, step).Some?
    ensures IsSmooth(Apply(w, step).value)
  {
    var header :| Smooth(w, header);
    if step.Join? {
      JoinIsSmooth(w, step, header);
    } else {
      StepStaysSmooth(w, step, header);
    }
  }

  lemma JoinIsSmooth(w: World, step: Step, header: string)
    requires Smooth(w, header) && step.Join? && HeaderFits(w, step.mark.header) && Apply(w, step).Some?
    ensures Smooth(Apply(w, step).value, step.mark.header)
  {
    if w.router.None? {
      AnyHeader(w, header, step.mark.header);
    } else {
      assert w.router.value.conf.Some? && w.router.value.conf.value.header == header;
    }
    hide Smooth;
    SmoothStartJoin(w, step.id, step.mark, step.mark.header);
  }

  lemma StepStaysSmooth(w: World, step: Step, header: string)
    requires Smooth(w, header) && !step.Join? && SmoothStep(w, step) && Apply(w, step).Some?
    ensures Smooth(Apply(w, step).value, header)
  {
    assert SessionsFit(w.joined, w.failed, header);
    hide Smooth, SessionsFit, JoinNext, LeaveNext;
    if step.Leave? {
      assert w.active.None?;
      SessionsLeft(w.joined, w.failed, step.id, header);
      if step.id in w.joined {
        SmoothStartLeave(w, step.id, header);
      } else {
        SmoothStartFailedLeave(w, step.id, header);
      }
    } else if IsJoining(w.active.value.phase) {
      SmoothJoin(w, w.active.value, step.tag, header);
    } else {
      SmoothLeave(w, w.active.value, header);
    }
  }

  // ----- the results -----

  lemma {:induction false} RunsAreSmooth(steps: seq<Step>)
    requires Run(UNTOUCHED, steps).Some? && SmoothRun(steps)
    ensures IsSmooth(Run(UNTOUCHED, steps).value)
  {
    if steps == [] {
      UntouchedIsSmooth();
    } else {
      var n := |steps| - 1;
      RunsAreSmooth(steps[..n]);
      hide Apply, SmoothStep, IsSmooth;
      StepIsSmooth(Run(UNTOUCHED, steps[..n]).value, steps[n]);
    }
  }

  lemma UntouchedIsSmooth()
    ensures IsSmooth(UNTOUCHED)
  {
    assert VersionsOf(map[]) == {};
    assert Smooth(UNTOUCHED, "");
  }

  /** Between any two calls of any run of joins and leaves, unmarked requests reach the original pods. */
  lemma TrafficIsServed(steps: seq<Step>)
    requires Run(UNTOUCHED, steps).Some? && SmoothRun(steps)
    ensures Served(Run(UNTOUCHED, steps).value)
  {
    RunsAreSmooth(steps);
    var header :| Smooth(Run(UNTOUCHED, steps).value, header);
    SmoothIsServed(Run(UNTOUCHED, steps).value, header);
  }

  lemma SmoothIsServed(w: World, header: string)
    requires Smooth(w, header)
    ensures Served(w)
  {
    hide VersionsOf, SessionsFit, ActiveFits, NoDuplicates;
  }

  /** The list that the router has: no version twice, each with its shadow service, and exactly those of the sessions
      that have joined, but for the one that is joining or leaving. */
  lemma ConfigurationIsExact(steps: seq<Step>)
    requires Run(UNTOUCHED, steps).Some? && SmoothRun(steps)
    ensures var w := Run(UNTOUCHED, steps).value;
            w.router.Some? && w.router.value.conf.Some? ==>
              && var versions := w.router.value.conf.value.versions;
                 && NoDuplicates(versions)
                 && (forall v | v in versions :: v in w.shadowServices)
                 && (forall id | id in w.joined :: w.joined[id].version in versions)
                 && (w.active.None? ==> forall v | v in versions :: v in VersionsOf(w.joined))
  {
    RunsAreSmooth(steps);
    var w := Run(UNTOUCHED, steps).value;
    var header :| Smooth(w, header);
    hide SessionsFit, ActiveFits, NoDuplicates, TakeoverFits, CountFits, Run;
    assert forall id | id in w.joined :: w.joined[id].version in VersionsOf(w.joined);
    hide VersionsOf;
  }

  /** While nobody is joining or leaving, the count is the number of sessions; and the last one to leave left the
      cluster as the first one to join found it. */
  lemma EverythingIsAccounted(steps: seq<Step>)
    requires Run(UNTOUCHED, steps).Some? && SmoothRun(steps) && Run(UNTOUCHED, steps).value.active.None?
    ensures var w := Run(UNTOUCHED, steps).value;
            && (w.router.Some? ==> w.router.value.refs == |w.joined|)
            && (w.router.Some? <==> w.joined != map[])
            && (w.joined == map[] ==> w == UNTOUCHED.(failed := w.failed))
  {
    RunsAreSmooth(steps);
    var w := Run(UNTOUCHED, steps).value;
    var header :| Smooth(w, header);
    SomebodyJoined(w.joined);
    hide SessionsFit, ActiveFits, ConfFits, Run;
  }
}
