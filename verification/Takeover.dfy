/** Several ktctl processes rewrite one Kubernetes service: lock and unlock, selector takeover, the watcher that keeps a
    takeover alive, and the ways back. Every step is one API call or one decision; steps of different processes
    interleave freely.

    The API server refuses an update whose copy is older than the stored object. A marshalled selector is represented by
    the selector itself. */
module Takeover {
  import opened Text
  import opened Calls

  type Labels = map<string, string>

  const KT_ROLE := "kt-role"
  const ROLE_ROUTER := "router"
  const ROLE_EXCHANGE := "shadow-exchange"
  const LOCK_TIMEOUT: int := 3 * 60
  const MAX_TIMES: nat := 10

  /** The service object: its resource version, selector, kt-selector annotation and kt-lock annotation. */
  datatype Service = Service(version: nat, selector: Labels, saved: Option<Labels>, lock: Option<int>)

  function Role(selector: Labels): string {
    if KT_ROLE in selector then selector[KT_ROLE] else ""
  }

  datatype Purpose = Mesh | Exchange

  /** Where a process stands. `copy` is always the object as this process read it. */
  datatype Pc =
    | Idle
    | LockCall(times: nat)
    | LockRead(times: nat, copy: Service)
    | LockFree(times: nat, copy: Service, judged: int)
    | Holding(purpose: Purpose, stamp: int, locked: Service)
    | SelectorRead(stamp: int, copy: Service, target: Labels)
    | Body(stamp: int)
    | UnlockRead(copy: Service)
    | RestoreRead(copy: Service)
    | RecoverRead(copy: Service)
    | CleanJudged
    | CleanRead(copy: Service)
  {
    /** Between a successful LockService and the start of its UnlockService. */
    predicate Holds() {
      Holding? || SelectorRead? || Body?
    }
  }

  /** The watcher of a process that took the service over. */
  datatype Watcher = Watcher(target: Labels, saved: Labels, seen: Option<Service>)

  datatype State = State(service: Service, now: int, clients: map<nat, Pc>, watchers: seq<Watcher>) {
    function At(c: nat): Pc {
      if c in clients then clients[c] else Idle
    }

    function Goto(c: nat, pc: Pc): State {
      this.(clients := clients[c := pc])
    }

    /** UpdateService takes effect: the call gets through, and the copy is not stale. */
    predicate Accepts(copy: Service, outcome: Outcome) {
      outcome.Happened() && copy.version == service.version
    }

    /** UpdateService takes effect and returns no error. */
    predicate Confirms(copy: Service, outcome: Outcome) {
      outcome.Done? && copy.version == service.version
    }

    function Put(copy: Service, changed: Service, outcome: Outcome): State {
      if Accepts(copy, outcome) then this.(service := changed.(version := service.version + 1)) else this
    }
  }

  datatype Step =
    | Tick(seconds: nat)
    | LockStart(c: nat)
    | LockGet(c: nat)
    | LockJudge(c: nat)
    | LockUpdate(c: nat, purpose: Purpose, stamp: int, outcome: Outcome)
    | LockGiveUp(c: nat)
    | SelectorGet(c: nat, target: Labels)
    | SelectorUpdate(c: nat, outcome: Outcome)
    | UnlockGet(c: nat)
    | UnlockGetFails(c: nat)
    | UnlockUpdate(c: nat, outcome: Outcome)
    | RestoreGet(c: nat)
    | RestoreUpdate(c: nat, outcome: Outcome)
    | RecoverGet(c: nat)
    | RecoverUpdate(c: nat, outcome: Outcome)
    | RecoverReturn(c: nat)
    | CleanJudge(c: nat)
    | CleanGet(c: nat)
    | CleanUpdate(c: nat, outcome: Outcome)
    | WatcherGet(w: nat)
    | WatcherUpdate(w: nat, outcome: Outcome)

  /** The guards at the head of AutoMesh and BySelector, on the object that LockService returned. */
  predicate MayTakeOver(purpose: Purpose, locked: Service) {
    match purpose
    case Mesh => !(locked.saved.Some? && Role(locked.selector) == ROLE_EXCHANGE)
    case Exchange => locked.saved.None?
  }

  function RoleOf(purpose: Purpose): string {
    if purpose == Mesh then ROLE_ROUTER else ROLE_EXCHANGE
  }

  /** isServiceChanged */
  predicate IsServiceChanged(svc: Service, selector: Labels, marshaledSelector: Labels) {
    svc.selector != selector || svc.saved != Some(marshaledSelector)
  }

  /** The selector UpdateServiceSelector records as the original one; None if it refuses. */
  function SelectorToSave(svc: Service): Option<Labels> {
    if svc.saved.Some? then svc.saved
    else if Role(svc.selector) != "" then None
    else Some(svc.selector)
  }

  function TakeOver(s: State, c: nat, pc: Pc, outcome: Outcome): State
    requires pc.SelectorRead?
  {
    match SelectorToSave(pc.copy)
    case None => s.Goto(c, Body(pc.stamp))
    case Some(marshaled) =>
      var annotated := pc.copy.(saved := Some(marshaled));
      var watched := s.(watchers := s.watchers + [Watcher(pc.target, marshaled, None)]).Goto(c, Body(pc.stamp));
      if !IsServiceChanged(annotated, pc.target, marshaled) then watched
      else (if s.Confirms(pc.copy, outcome) then watched else s.Goto(c, Body(pc.stamp)))
           .Put(pc.copy, annotated.(selector := pc.target), outcome)
  }

  /** RecoverOriginalService on an annotated service. */
  function Restored(svc: Service): Service {
    if svc.saved.Some? then svc.(selector := svc.saved.value, saved := None) else svc
  }

  function Rewatch(s: State, w: nat, outcome: Outcome): State
    requires w < |s.watchers| && s.watchers[w].seen.Some?
  {
    var watcher := s.watchers[w];
    var svc := watcher.seen.value;
    var done := s.(watchers := s.watchers[w := watcher.(seen := None)]);
    if IsServiceChanged(svc, watcher.target, watcher.saved)
    then done.Put(svc, svc.(selector := watcher.target, saved := Some(watcher.saved)), outcome)
    else done
  }

  /** One step; None when it is not enabled. */
  function Apply(s: State, step: Step): Option<State> {
    match step
    case Tick(seconds) => Some(s.(now := s.now + seconds))
    case LockStart(c) => if s.At(c).Idle? then Some(s.Goto(c, LockCall(0))) else None
    case LockGet(c) =>
      if s.At(c).LockCall? && s.At(c).times <= MAX_TIMES then Some(s.Goto(c, LockRead(s.At(c).times, s.service)))
      else None
    case LockGiveUp(c) =>
      // too many attempts, or the service cannot be read
      if s.At(c).LockCall? then Some(s.Goto(c, Idle)) else None
    case LockJudge(c) =>
      if !s.At(c).LockRead? then None
      else
        var LockRead(times, copy) := s.At(c);
        if copy.lock.Some? && s.now - copy.lock.value < LOCK_TIMEOUT then Some(s.Goto(c, LockCall(times + 1)))
        else Some(s.Goto(c, LockFree(times, copy, s.now)))
    case LockUpdate(c, purpose, stamp, outcome) =>
      if !s.At(c).LockFree? || !(s.At(c).judged <= stamp <= s.now) then None
      else
        var LockFree(times, copy, _) := s.At(c);
        var locked := copy.(lock := Some(stamp));
        var next := if s.Confirms(copy, outcome) then Holding(purpose, stamp, locked) else LockCall(times + 1);
        Some(s.Goto(c, next).Put(copy, locked, outcome))
    case SelectorGet(c, target) =>
      if s.At(c).Holding? && MayTakeOver(s.At(c).purpose, s.At(c).locked) && Role(target) == RoleOf(s.At(c).purpose)
      then Some(s.Goto(c, SelectorRead(s.At(c).stamp, s.service, target))) else None
    case SelectorUpdate(c, outcome) => if s.At(c).SelectorRead? then Some(TakeOver(s, c, s.At(c), outcome)) else None
    case UnlockGet(c) =>
      if !s.At(c).Holding? && !s.At(c).Body? then None
      else if s.service.lock.Some? then Some(s.Goto(c, UnlockRead(s.service)))
      else Some(s.Goto(c, Idle))
    case UnlockGetFails(c) => if s.At(c).Holding? || s.At(c).Body? then Some(s.Goto(c, Idle)) else None
    case UnlockUpdate(c, outcome) =>
      if s.At(c).UnlockRead? then Some(s.Goto(c, Idle).Put(s.At(c).copy, s.At(c).copy.(lock := None), outcome))
      else None
    case RestoreGet(c) =>
      if !s.At(c).Idle? then None
      else if s.service.saved.Some? then Some(s.Goto(c, RestoreRead(s.service)))
      else Some(s)
    case RestoreUpdate(c, outcome) =>
      if s.At(c).RestoreRead? then Some(s.Goto(c, Idle).Put(s.At(c).copy, Restored(s.At(c).copy), outcome)) else None
    case RecoverGet(c) => if s.At(c).Idle? then Some(s.Goto(c, RecoverRead(s.service))) else None
    case RecoverUpdate(c, outcome) =>
      if s.At(c).RecoverRead?
      then Some(s.Goto(c, Idle).Put(s.At(c).copy, Restored(s.At(c).copy).(lock := None), outcome)) else None
    case RecoverReturn(c) =>
      // nothing to recover, or an error on the way to the update
      if s.At(c).RecoverRead? then Some(s.Goto(c, Idle)) else None
    case CleanJudge(c) =>
      if s.At(c).Idle? && s.service.lock.Some? && s.now - s.service.lock.value > LOCK_TIMEOUT
      then Some(s.Goto(c, CleanJudged)) else None
    case CleanGet(c) => if s.At(c).CleanJudged? then Some(s.Goto(c, CleanRead(s.service))) else None
    case CleanUpdate(c, outcome) =>
      if s.At(c).CleanRead? then Some(s.Goto(c, Idle).Put(s.At(c).copy, s.At(c).copy.(lock := None), outcome)) else None
    case WatcherGet(w) =>
      if w < |s.watchers| then Some(s.(watchers := s.watchers[w := s.watchers[w].(seen := Some(s.service))])) else None
    case WatcherUpdate(w, outcome) =>
      if w < |s.watchers| && s.watchers[w].seen.Some? then Some(Rewatch(s, w, outcome)) else None
  }

  function Run(s: State, steps: seq<Step>): Option<State> {
    if steps == [] then Some(s)
    else match Run(s, steps[..|steps| - 1])
      case None => None
      case Some(t) => Apply(t, steps[|steps| - 1])
  }

  /** The service selects its own pods; nobody works on it. An old lock may be left over. */
  ghost predicate Initial(s: State, original: Labels) {
    && Role(original) == ""
    && s.service.selector == original
    && s.service.saved == None
    && s.clients == map[]
    && s.watchers == []
  }

  // ----- the original selector is never lost -----

  /** Either the selector is the original one, or the annotation holds it. */
  predicate Conserves(svc: Service, original: Labels) {
    match svc.saved
    case None => svc.selector == original
    case Some(saved) => saved == original
  }

  predicate CopyConserves(pc: Pc, original: Labels) {
    match pc
    case LockRead(_, copy) => Conserves(copy, original)
    case LockFree(_, copy, _) => Conserves(copy, original)
    case SelectorRead(_, copy, _) => Conserves(copy, original)
    case UnlockRead(copy) => Conserves(copy, original)
    case RestoreRead(copy) => Conserves(copy, original)
    case RecoverRead(copy) => Conserves(copy, original)
    case CleanRead(copy) => Conserves(copy, original)
    case _ => true
  }

  predicate WatcherConserves(w: Watcher, original: Labels) {
    w.saved == original && (w.seen.Some? ==> Conserves(w.seen.value, original))
  }

  ghost predicate AllConserve(s: State, original: Labels) {
    && Role(original) == ""
    && Conserves(s.service, original)
    && (forall c | c in s.clients :: CopyConserves(s.clients[c], original))
    && (forall i :: 0 <= i < |s.watchers| ==> WatcherConserves(s.watchers[i], original))
  }

  lemma GotoConserves(s: State, c: nat, pc: Pc, original: Labels)
    requires AllConserve(s, original) && CopyConserves(pc, original)
    ensures AllConserve(s.Goto(c, pc), original)
  {
  }

  lemma PutConserves(s: State, copy: Service, changed: Service, outcome: Outcome, original: Labels)
    requires AllConserve(s, original) && Conserves(changed, original)
    ensures AllConserve(s.Put(copy, changed, outcome), original)
  {
  }

  lemma WatchersConserve(s: State, ws: seq<Watcher>, original: Labels)
    requires AllConserve(s, original)
    requires forall i :: 0 <= i < |ws| ==> WatcherConserves(ws[i], original)
    ensures AllConserve(s.(watchers := ws), original)
  {
  }

  lemma SelectorUpdateConserves(s: State, c: nat, outcome: Outcome, original: Labels)
    requires AllConserve(s, original) && Apply(s, SelectorUpdate(c, outcome)).Some?
    ensures AllConserve(Apply(s, SelectorUpdate(c, outcome)).value, original)
  {
    PcsConserve(s, original);
    hide AllConserve;
    var pc := s.At(c);
    GotoConserves(s, c, Body(pc.stamp), original);
    if SelectorToSave(pc.copy).Some? {
      var watcher := Watcher(pc.target, SelectorToSave(pc.copy).value, None);
      WatchersConserve(s, s.watchers + [watcher], original);
      var watched := s.(watchers := s.watchers + [watcher]);
      GotoConserves(watched, c, Body(pc.stamp), original);
      var changed := pc.copy.(saved := Some(watcher.saved), selector := pc.target);
      PutConserves(s.Goto(c, Body(pc.stamp)), pc.copy, changed, outcome, original);
      PutConserves(watched.Goto(c, Body(pc.stamp)), pc.copy, changed, outcome, original);
    }
  }

  lemma LockUpdateConserves(s: State, c: nat, purpose: Purpose, stamp: int, outcome: Outcome, original: Labels)
    requires AllConserve(s, original) && Apply(s, LockUpdate(c, purpose, stamp, outcome)).Some?
    ensures AllConserve(Apply(s, LockUpdate(c, purpose, stamp, outcome)).value, original)
  {
    PcsConserve(s, original);
    hide AllConserve;
    var copy := s.At(c).copy;
    var locked := copy.(lock := Some(stamp));
    var next := if s.Confirms(copy, outcome) then Holding(purpose, stamp, locked) else LockCall(s.At(c).times + 1);
    GotoConserves(s, c, next, original);
    PutConserves(s.Goto(c, next), copy, locked, outcome, original);
  }

  /** The updates that take a lock away or bring the original selector back. */
  lemma ReturnConserves(s: State, step: Step, original: Labels)
    requires AllConserve(s, original) && Apply(s, step).Some?
    requires step.UnlockUpdate? || step.RestoreUpdate? || step.RecoverUpdate? || step.CleanUpdate?
    ensures AllConserve(Apply(s, step).value, original)
  {
    PcsConserve(s, original);
    hide AllConserve;
    var c, copy := step.c, s.At(step.c).copy;
    var restored := if step.RestoreUpdate? || step.RecoverUpdate? then Restored(copy) else copy;
    var changed := if step.RestoreUpdate? then restored else restored.(lock := None);
    GotoConserves(s, c, Idle, original);
    PutConserves(s.Goto(c, Idle), copy, changed, step.outcome, original);
  }

  lemma WatcherStepConserves(s: State, step: Step, original: Labels)
    requires AllConserve(s, original) && Apply(s, step).Some? && (step.WatcherGet? || step.WatcherUpdate?)
    ensures AllConserve(Apply(s, step).value, original)
  {
    PcsConserve(s, original);
    hide AllConserve;
    var watcher := s.watchers[step.w];
    if step.WatcherGet? {
      WatchersConserve(s, s.watchers[step.w := watcher.(seen := Some(s.service))], original);
    } else {
      var done := s.(watchers := s.watchers[step.w := watcher.(seen := None)]);
      WatchersConserve(s, done.watchers, original);
      PutConserves(done, watcher.seen.value,
                   watcher.seen.value.(selector := watcher.target, saved := Some(watcher.saved)), step.outcome,
                   original);
    }
  }

  lemma StepConserves(s: State, step: Step, original: Labels)
    requires AllConserve(s, original) && Apply(s, step).Some?
    ensures AllConserve(Apply(s, step).value, original)
  {
    hide AllConserve, Apply;
    match step
    case SelectorUpdate(c, outcome) => SelectorUpdateConserves(s, c, outcome, original);
    case LockUpdate(c, purpose, stamp, outcome) => LockUpdateConserves(s, c, purpose, stamp, outcome, original);
    case UnlockUpdate(_, _) => ReturnConserves(s, step, original);
    case RestoreUpdate(_, _) => ReturnConserves(s, step, original);
    case RecoverUpdate(_, _) => ReturnConserves(s, step, original);
    case CleanUpdate(_, _) => ReturnConserves(s, step, original);
    case WatcherGet(_) => WatcherStepConserves(s, step, original);
    case WatcherUpdate(_, _) => WatcherStepConserves(s, step, original);
    case _ => MoveConserves(s, step, original);
  }

  /** The steps that write nothing to the service. */
  lemma MoveConserves(s: State, step: Step, original: Labels)
    requires AllConserve(s, original) && Apply(s, step).Some?
    requires !step.SelectorUpdate? && !step.LockUpdate? && !step.UnlockUpdate? && !step.RestoreUpdate?
    requires !step.RecoverUpdate? && !step.CleanUpdate? && !step.WatcherGet? && !step.WatcherUpdate?
    ensures AllConserve(Apply(s, step).value, original)
  {
    PcsConserve(s, original);
    hide AllConserve;
    match step
    case Tick(seconds) => TickConserves(s, seconds, original);
    case LockStart(c) => GotoConserves(s, c, Apply(s, step).value.At(c), original);
    case LockGet(c) => GotoConserves(s, c, Apply(s, step).value.At(c), original);
    case LockGiveUp(c) => GotoConserves(s, c, Apply(s, step).value.At(c), original);
    case LockJudge(c) => GotoConserves(s, c, Apply(s, step).value.At(c), original);
    case SelectorGet(c, _) => GotoConserves(s, c, Apply(s, step).value.At(c), original);
    case UnlockGet(c) => GotoConserves(s, c, Apply(s, step).value.At(c), original);
    case UnlockGetFails(c) => GotoConserves(s, c, Apply(s, step).value.At(c), original);
    case RestoreGet(c) => GotoConserves(s, c, RestoreRead(s.service), original);
    case RecoverGet(c) => GotoConserves(s, c, Apply(s, step).value.At(c), original);
    case RecoverReturn(c) => GotoConserves(s, c, Idle, original);
    case CleanJudge(c) => GotoConserves(s, c, Apply(s, step).value.At(c), original);
    case CleanGet(c) => GotoConserves(s, c, Apply(s, step).value.At(c), original);
  }

  lemma PcsConserve(s: State, original: Labels)
    requires AllConserve(s, original)
    ensures Role(original) == "" && Conserves(s.service, original)
    ensures forall c :: CopyConserves(s.At(c), original)
    ensures forall i :: 0 <= i < |s.watchers| ==> WatcherConserves(s.watchers[i], original)
  {
  }

  lemma TickConserves(s: State, seconds: nat, original: Labels)
    requires AllConserve(s, original)
    ensures AllConserve(s.(now := s.now + seconds), original)
  {
  }

  /** Over every run of every number of processes. */
  lemma {:induction false} SelectorIsConserved(s: State, steps: seq<Step>, original: Labels)
    requires Initial(s, original) && Run(s, steps).Some?
    ensures AllConserve(Run(s, steps).value, original)
  {
    if steps != [] {
      SelectorIsConserved(s, steps[..|steps| - 1], original);
      StepConserves(Run(s, steps[..|steps| - 1]).value, steps[|steps| - 1], original);
    }
  }

  lemma RunNext(s: State, steps: seq<Step>, step: Step)
    ensures Run(s, steps + [step]) == if Run(s, steps).None? then None else Apply(Run(s, steps).value, step)
  {
    assert (steps + [step])[..|steps|] == steps;
  }

  /** Whatever happened before, one undisturbed teardown brings the original selector back, even if it is not told so.
      */
  lemma TeardownRestores(s: State, steps: seq<Step>, original: Labels, c: nat, outcome: Outcome)
    requires outcome.Happened()
    requires Initial(s, original) && Run(s, steps).Some? && Run(s, steps).value.At(c).Idle?
    ensures var before := Run(s, steps).value.service;
            if before.saved.None? then before.selector == original
            else
              var after := Run(s, steps + [RestoreGet(c)] + [RestoreUpdate(c, outcome)]);
              after.Some? && after.value.service ==
                             before.(selector := original, saved := None, version := before.version + 1)
  {
    SelectorIsConserved(s, steps, original);
    hide AllConserve, Run;
    PcsConserve(Run(s, steps).value, original);
    RunNext(s, steps, RestoreGet(c));
    RunNext(s, steps + [RestoreGet(c)], RestoreUpdate(c, outcome));
  }

  /** So does one undisturbed `ktctl recover`, which also removes the lock. */
  lemma RecoverRestores(s: State, steps: seq<Step>, original: Labels, c: nat, outcome: Outcome)
    requires outcome.Happened()
    requires Initial(s, original) && Run(s, steps).Some? && Run(s, steps).value.At(c).Idle?
    ensures var version := Run(s, steps).value.service.version;
            var after := Run(s, steps + [RecoverGet(c)] + [RecoverUpdate(c, outcome)]);
            after.Some? && after.value.service == Service(version + 1, original, None, None)
  {
    SelectorIsConserved(s, steps, original);
    hide AllConserve, Run;
    PcsConserve(Run(s, steps).value, original);
    RunNext(s, steps, RecoverGet(c));
    RunNext(s, steps + [RecoverGet(c)], RecoverUpdate(c, outcome));
  }

  // ----- copies -----

  /** A copy is an old object, or the current one. */
  predicate IsPast(copy: Service, svc: Service) {
    copy.version < svc.version || copy == svc
  }

  predicate PcIsPast(pc: Pc, svc: Service) {
    match pc
    case LockRead(_, copy) => IsPast(copy, svc)
    case LockFree(_, copy, _) => IsPast(copy, svc)
    case SelectorRead(_, copy, _) => IsPast(copy, svc)
    case UnlockRead(copy) => IsPast(copy, svc)
    case RestoreRead(copy) => IsPast(copy, svc)
    case RecoverRead(copy) => IsPast(copy, svc)
    case CleanRead(copy) => IsPast(copy, svc)
    case _ => true
  }

  ghost predicate AllPast(s: State) {
    && (forall c | c in s.clients :: PcIsPast(s.clients[c], s.service))
    && (forall i :: 0 <= i < |s.watchers| && s.watchers[i].seen.Some? ==>
                      IsPast(s.watchers[i].seen.value, s.service))
  }

  lemma MovedIsPast(s: State, t: State, c: nat, pc: Pc)
    requires AllPast(s) && t.clients == s.clients[c := pc] && t.watchers == s.watchers
    requires t.service == s.service || t.service.version > s.service.version
    requires PcIsPast(pc, s.service)
    ensures AllPast(t)
  {
  }

  lemma ClientStepIsPast(s: State, step: Step)
    requires AllPast(s) && Apply(s, step).Some?
    requires !step.Tick? && !step.WatcherGet? && !step.WatcherUpdate? && !step.SelectorUpdate?
    ensures AllPast(Apply(s, step).value)
  {
    hide AllPast, Restored;
    assert PcIsPast(s.At(step.c), s.service) by {
      PcPast(s, step.c);
    }
    var t := Apply(s, step).value;
    if t != s {
      MovedIsPast(s, t, step.c, t.At(step.c));
    }
  }

  lemma PcPast(s: State, c: nat)
    requires AllPast(s)
    ensures PcIsPast(s.At(c), s.service)
  {
  }

  lemma WatchersPast(s: State, t: State)
    requires AllPast(s) && t.clients == s.clients
    requires t.service == s.service || t.service.version > s.service.version
    requires forall i :: 0 <= i < |t.watchers| && t.watchers[i].seen.Some? ==>
                           IsPast(t.watchers[i].seen.value, s.service)
    ensures AllPast(t)
  {
  }

  lemma OtherStepIsPast(s: State, step: Step)
    requires AllPast(s) && Apply(s, step).Some?
    requires step.Tick? || step.WatcherGet? || step.WatcherUpdate? || step.SelectorUpdate?
    ensures AllPast(Apply(s, step).value)
  {
    var t := Apply(s, step).value;
    if step.SelectorUpdate? {
      WatchersPast(s, t.(clients := s.clients));
      MovedIsPast(t.(clients := s.clients), t, step.c, t.At(step.c));
    } else {
      WatchersPast(s, t);
    }
  }

  /** Over every run, a copy of the current version is the current object. */
  lemma {:induction false} CopiesArePast(s: State, steps: seq<Step>, original: Labels)
    requires Initial(s, original) && Run(s, steps).Some?
    ensures AllPast(Run(s, steps).value)
  {
    if steps != [] {
      var n := |steps| - 1;
      CopiesArePast(s, steps[..n], original);
      hide AllPast, Apply;
      if steps[n].Tick? || steps[n].WatcherGet? || steps[n].WatcherUpdate? || steps[n].SelectorUpdate? {
        OtherStepIsPast(Run(s, steps[..n]).value, steps[n]);
      } else {
        ClientStepIsPast(Run(s, steps[..n]).value, steps[n]);
      }
    }
  }

  lemma FirstTakeOver(s: State, c: nat)
    requires s.At(c).SelectorRead? && s.At(c).copy == s.service
    requires s.service.saved.None? && Role(s.service.selector) == ""
    requires Role(s.At(c).target) != ""
    ensures var after := TakeOver(s, c, s.At(c), Done);
            && after.clients == s.clients[c := Body(s.At(c).stamp)]
            && after.service.selector == s.At(c).target && after.service.saved == Some(s.service.selector)
  {
  }

  lemma BothRead(s: State, c: nat, e: nat, target: Labels)
    requires s.At(c).Holding? && MayTakeOver(s.At(c).purpose, s.At(c).locked) && s.At(e).Idle? && c != e
    requires Role(target) == RoleOf(s.At(c).purpose)
    ensures Run(s, [RecoverGet(e)] + [SelectorGet(c, target)]) ==
            Some(s.Goto(e, RecoverRead(s.service)).Goto(c, SelectorRead(s.At(c).stamp, s.service, target)))
  {
    hide Run, MayTakeOver, Role, RoleOf;
    NoSteps(s);
    RunNext(s, [], RecoverGet(e));
    assert [] + [RecoverGet(e)] == [RecoverGet(e)];
    RunNext(s, [RecoverGet(e)], SelectorGet(c, target));
  }

  lemma SelectorUpdateIs(s: State, c: nat, outcome: Outcome)
    requires s.At(c).SelectorRead?
    ensures Apply(s, SelectorUpdate(c, outcome)) == Some(TakeOver(s, c, s.At(c), outcome))
  {
  }

  /** A recover e reads a service that is not taken over, process c takes it over, and e still returns: there was
      nothing to recover. */
  lemma RecoverMissesTakeover(s: State, c: nat, e: nat, target: Labels)
    requires s.At(c).Holding? && MayTakeOver(s.At(c).purpose, s.At(c).locked) && s.At(e).Idle? && c != e
    requires Role(target) == RoleOf(s.At(c).purpose) && s.service.saved.None? && Role(s.service.selector) == ""
    ensures var after := Run(s, [RecoverGet(e)] + [SelectorGet(c, target)] + [SelectorUpdate(c, Done)]);
            && after.Some? && after.value.At(e) == RecoverRead(s.service)
            && after.value.service.selector == target && after.value.service.saved == Some(s.service.selector)
  {
    BothRead(s, c, e, target);
    RunNext(s, [RecoverGet(e)] + [SelectorGet(c, target)], SelectorUpdate(c, Done));
    var read := s.Goto(e, RecoverRead(s.service)).Goto(c, SelectorRead(s.At(c).stamp, s.service, target));
    hide Run, Apply, TakeOver;
    SelectorUpdateIs(read, c, Done);
    FirstTakeOver(read, c);
  }

  /** A watcher that comes to its update points the service back at its target, over whatever it finds. */
  lemma WatcherRestores(s: State, w: nat, outcome: Outcome)
    requires w < |s.watchers| && outcome.Happened()
    ensures var after := Run(s, [WatcherGet(w)] + [WatcherUpdate(w, outcome)]);
            && after.Some? && after.value.service.selector == s.watchers[w].target
            && after.value.service.saved == Some(s.watchers[w].saved) && after.value.service.lock == s.service.lock
  {
    hide Run;
    NoSteps(s);
    RunNext(s, [], WatcherGet(w));
    assert [] + [WatcherGet(w)] == [WatcherGet(w)];
    RunNext(s, [WatcherGet(w)], WatcherUpdate(w, outcome));
  }

  // ----- at most one process holds the lock -----

  /** Every holder starts its unlock before its stamp is 180 seconds old. */
  ghost predicate Timely(s: State) {
    forall c | c in s.clients && s.clients[c].Holds() :: s.now < Stamp(s.clients[c]) + LOCK_TIMEOUT
  }

  function Stamp(pc: Pc): int
    requires pc.Holds()
  {
    match pc
    case Holding(_, stamp, _) => stamp
    case SelectorRead(stamp, _, _) => stamp
    case Body(stamp) => stamp
  }

  ghost predicate AnyHolder(s: State) {
    exists c :: c in s.clients && s.clients[c].Holds()
  }

  /** `ktctl recover` and the unlocking of `ktctl clean` write the service back without a lock, whoever has it. */
  predicate RemovesLock(s: State, step: Step) {
    && ((step.RecoverUpdate? && s.At(step.c).RecoverRead?) || (step.CleanUpdate? && s.At(step.c).CleanRead?))
    && s.Accepts(s.At(step.c).copy, step.outcome)
  }

  /** Holders are timely at every moment, and no lock is removed while somebody holds it. */
  ghost predicate TimelyRun(s: State, steps: seq<Step>)
  {
    && Run(s, steps).Some?
    && Timely(Run(s, steps).value)
    && (steps != [] ==>
          && TimelyRun(s, steps[..|steps| - 1])
          && var before := Run(s, steps[..|steps| - 1]).value;
             !(AnyHolder(before) && RemovesLock(before, steps[|steps| - 1])))
  }

  ghost predicate Exclusive(s: State) {
    forall c, d | c in s.clients && d in s.clients && s.clients[c].Holds() && s.clients[d].Holds() :: c == d
  }

  /** A process that is about to write the lock annotation with a current copy. */
  predicate AboutToWriteLock(pc: Pc, svc: Service) {
    (pc.LockFree? || pc.UnlockRead?) && pc.copy.version == svc.version
  }

  ghost predicate LockInvariant(s: State) {
    && Exclusive(s)
    && (forall c | c in s.clients :: PcIsPast(s.clients[c], s.service))
    && (forall i :: 0 <= i < |s.watchers| && s.watchers[i].seen.Some? ==> IsPast(s.watchers[i].seen.value, s.service))
    && (forall c | c in s.clients && s.clients[c].Holds() :: s.service.lock == Some(Stamp(s.clients[c])))
    && (forall c | c in s.clients && AboutToWriteLock(s.clients[c], s.service) :: !AnyHolder(s))
  }

  ghost predicate OnlyHolder(s: State, c: nat) {
    forall d | d in s.clients && s.clients[d].Holds() :: d == c
  }

  /** Moving one process on without an update. */
  lemma GotoKeeps(s: State, c: nat, pc: Pc)
    requires LockInvariant(s) && PcIsPast(pc, s.service)
    requires pc.Holds() ==> s.At(c).Holds() && Stamp(pc) == Stamp(s.At(c))
    requires AboutToWriteLock(pc, s.service) ==> OnlyHolder(s, c)
    ensures LockInvariant(s.Goto(c, pc))
  {
  }

  /** An update that keeps the lock, or is made while nobody holds it. */
  lemma PutKeeps(s: State, copy: Service, changed: Service, outcome: Outcome)
    requires LockInvariant(s) && IsPast(copy, s.service)
    requires s.Accepts(copy, outcome) && AnyHolder(s) ==> changed.lock == copy.lock
    ensures LockInvariant(s.Put(copy, changed, outcome))
  {
  }

  lemma WatchersKeep(s: State, ws: seq<Watcher>)
    requires LockInvariant(s)
    requires forall i :: 0 <= i < |ws| && ws[i].seen.Some? ==> IsPast(ws[i].seen.value, s.service)
    ensures LockInvariant(s.(watchers := ws))
  {
  }

  /** The one update that makes a holder: nobody else is one, and the stored lock is its stamp. */
  lemma HolderEnters(s: State, c: nat, pc: Pc)
    requires LockInvariant(s) && !AnyHolder(s) && pc.Holds() && s.service.lock == Some(Stamp(pc))
    requires PcIsPast(pc, s.service)
    requires forall d | d in s.clients && AboutToWriteLock(s.clients[d], s.service) :: d == c
    ensures LockInvariant(s.Goto(c, pc))
  {
    assert forall d | d in s.clients :: !s.clients[d].Holds();
  }

  /** Right after an update no copy is current. */
  lemma NobodyIsCurrent(s: State, copy: Service, changed: Service, outcome: Outcome)
    requires LockInvariant(s) && s.Accepts(copy, outcome)
    ensures var after := s.Put(copy, changed, outcome);
            forall d | d in after.clients :: !AboutToWriteLock(after.clients[d], after.service)
  {
  }

  lemma LockUpdateNext(s: State, c: nat, purpose: Purpose, stamp: int, outcome: Outcome)
    requires Apply(s, LockUpdate(c, purpose, stamp, outcome)).Some?
    ensures s.At(c).LockFree?
    ensures var LockFree(times, copy, _) := s.At(c);
            var locked := copy.(lock := Some(stamp));
            var next := if s.Confirms(copy, outcome) then Holding(purpose, stamp, locked) else LockCall(times + 1);
            Apply(s, LockUpdate(c, purpose, stamp, outcome)).value == s.Put(copy, locked, outcome).Goto(c, next)
  {
  }

  lemma LockingKeeps(s: State, c: nat, purpose: Purpose, stamp: int, outcome: Outcome)
    requires LockInvariant(s) && Apply(s, LockUpdate(c, purpose, stamp, outcome)).Some?
    ensures LockInvariant(Apply(s, LockUpdate(c, purpose, stamp, outcome)).value)
  {
    LockUpdateNext(s, c, purpose, stamp, outcome);
    hide Apply;
    PcOf(s, c);
    hide LockInvariant, AnyHolder;
    var copy := s.At(c).copy;
    var locked := copy.(lock := Some(stamp));
    PutKeeps(s, copy, locked, outcome);
    var written := s.Put(copy, locked, outcome);
    if s.Confirms(copy, outcome) {
      NobodyIsCurrent(s, copy, locked, outcome);
      SameHolders(s, written);
      HolderEnters(written, c, Holding(purpose, stamp, locked));
    } else {
      GotoKeeps(written, c, LockCall(s.At(c).times + 1));
    }
  }

  lemma SameHolders(s: State, t: State)
    requires s.clients == t.clients
    ensures AnyHolder(s) <==> AnyHolder(t)
  {
  }

  lemma TakingOverKeeps(s: State, c: nat, outcome: Outcome)
    requires LockInvariant(s) && s.At(c).SelectorRead?
    ensures LockInvariant(TakeOver(s, c, s.At(c), outcome))
  {
    hide LockInvariant;
    var pc := s.At(c);
    PcOf(s, c);
    GotoKeeps(s, c, Body(pc.stamp));
    if SelectorToSave(pc.copy).Some? {
      var watcher := Watcher(pc.target, SelectorToSave(pc.copy).value, None);
      WatchersOf(s);
      WatchersKeep(s, s.watchers + [watcher]);
      var watched := s.(watchers := s.watchers + [watcher]);
      GotoKeeps(watched, c, Body(pc.stamp));
      var changed := pc.copy.(saved := Some(watcher.saved), selector := pc.target);
      PutKeeps(s.Goto(c, Body(pc.stamp)), pc.copy, changed, outcome);
      PutKeeps(watched.Goto(c, Body(pc.stamp)), pc.copy, changed, outcome);
    }
  }

  lemma PcOf(s: State, c: nat)
    requires LockInvariant(s)
    ensures PcIsPast(s.At(c), s.service)
    ensures s.At(c).Holds() ==> OnlyHolder(s, c)
    ensures AboutToWriteLock(s.At(c), s.service) ==> !AnyHolder(s)
  {
  }

  lemma WatchersOf(s: State)
    requires LockInvariant(s)
    ensures forall i :: 0 <= i < |s.watchers| && s.watchers[i].seen.Some? ==>
                          IsPast(s.watchers[i].seen.value, s.service)
  {
  }

  lemma RewatchingKeeps(s: State, w: nat, outcome: Outcome)
    requires LockInvariant(s) && w < |s.watchers| && s.watchers[w].seen.Some?
    ensures LockInvariant(Rewatch(s, w, outcome))
  {
    hide LockInvariant;
    var watcher := s.watchers[w];
    var done := s.(watchers := s.watchers[w := watcher.(seen := None)]);
    WatchersOf(s);
    WatchersKeep(s, done.watchers);
    PutKeeps(done, watcher.seen.value, watcher.seen.value.(selector := watcher.target, saved := Some(watcher.saved)),
             outcome);
  }

  /** Whoever has a current copy and sees no lock in it, or an expired one, knows that nobody holds the lock, if holders
      are timely: LockService looks at this before its update, and a recover or a clean could. */
  lemma JudgedLockIsFree(s: State, c: nat)
    requires LockInvariant(s) && Timely(s) && (s.At(c).LockRead? || s.At(c).RecoverRead? || s.At(c).CleanRead?)
    ensures var copy := s.At(c).copy;
            copy.version == s.service.version && (copy.lock.None? || s.now - copy.lock.value >= LOCK_TIMEOUT)
            ==> !AnyHolder(s)
  {
    assert PcIsPast(s.clients[c], s.service);
  }

  /** What a recover or a clean writes. */
  function Unlocked(s: State, step: Step): Service
    requires (step.RecoverUpdate? && s.At(step.c).RecoverRead?) || (step.CleanUpdate? && s.At(step.c).CleanRead?)
  {
    var copy := s.At(step.c).copy;
    (if step.RecoverUpdate? then Restored(copy) else copy).(lock := None)
  }

  lemma RemovalNext(s: State, step: Step)
    requires (step.RecoverUpdate? || step.CleanUpdate?) && Apply(s, step).Some?
    ensures (step.RecoverUpdate? && s.At(step.c).RecoverRead?) || (step.CleanUpdate? && s.At(step.c).CleanRead?)
    ensures Unlocked(s, step).lock == None
    ensures Apply(s, step).value == s.Put(s.At(step.c).copy, Unlocked(s, step), step.outcome).Goto(step.c, Idle)
  {
  }

  /** The update of a recover or a clean keeps the lock sound exactly if nobody holds it, or the server refuses. */
  lemma RemovalKeepsIff(s: State, step: Step)
    requires LockInvariant(s) && (step.RecoverUpdate? || step.CleanUpdate?) && Apply(s, step).Some?
    ensures LockInvariant(Apply(s, step).value) <==> !AnyHolder(s) || !RemovesLock(s, step)
  {
    var c, copy := step.c, s.At(step.c).copy;
    RemovalNext(s, step);
    PcOf(s, c);
    hide Apply, Unlocked;
    if AnyHolder(s) && RemovesLock(s, step) {
      var d :| d in s.clients && s.clients[d].Holds();
      assert Apply(s, step).value.clients[d].Holds() && Apply(s, step).value.service.lock == None;
    } else {
      hide LockInvariant;
      PutKeeps(s, copy, Unlocked(s, step), step.outcome);
      GotoKeeps(s.Put(copy, Unlocked(s, step), step.outcome), c, Idle);
    }
  }

  /** An unlock and a teardown. */
  lemma OwnUpdateKeeps(s: State, step: Step)
    requires LockInvariant(s) && (step.UnlockUpdate? || step.RestoreUpdate?) && Apply(s, step).Some?
    ensures LockInvariant(Apply(s, step).value)
  {
    hide LockInvariant;
    var c, copy := step.c, s.At(step.c).copy;
    var changed := if step.UnlockUpdate? then copy.(lock := None) else Restored(copy);
    PcOf(s, c);
    PutKeeps(s, copy, changed, step.outcome);
    GotoKeeps(s.Put(copy, changed, step.outcome), c, Idle);
    assert Apply(s, step).value == s.Put(copy, changed, step.outcome).Goto(c, Idle);
  }

  lemma StepKeepsLockInvariant(s: State, step: Step)
    requires LockInvariant(s) && Timely(s) && Apply(s, step).Some? && !(AnyHolder(s) && RemovesLock(s, step))
    ensures LockInvariant(Apply(s, step).value)
  {
    WatchersOf(s);
    hide LockInvariant, Timely;
    match step
    case Tick(seconds) => TickKeeps(s, seconds);
    case LockUpdate(c, purpose, stamp, outcome) => LockingKeeps(s, c, purpose, stamp, outcome);
    case SelectorUpdate(c, outcome) => TakingOverKeeps(s, c, outcome);
    case WatcherUpdate(w, outcome) => RewatchingKeeps(s, w, outcome);
    case WatcherGet(w) => WatchersKeep(s, s.watchers[w := s.watchers[w].(seen := Some(s.service))]);
    case LockJudge(c) =>
      PcOf(s, c);
      JudgedLockIsFree(s, c);
      GotoKeeps(s, c, Apply(s, step).value.At(c));
    case UnlockUpdate(c, outcome) => OwnUpdateKeeps(s, step);
    case RestoreUpdate(c, outcome) => OwnUpdateKeeps(s, step);
    case RestoreGet(c) =>
      GotoKeeps(s, c, RestoreRead(s.service));
    case LockStart(c) => MoveKeeps(s, step, c);
    case LockGet(c) => MoveKeeps(s, step, c);
    case LockGiveUp(c) => MoveKeeps(s, step, c);
    case SelectorGet(c, _) => MoveKeeps(s, step, c);
    case UnlockGet(c) => MoveKeeps(s, step, c);
    case UnlockGetFails(c) => MoveKeeps(s, step, c);
    case RecoverGet(c) => MoveKeeps(s, step, c);
    case CleanJudge(c) => MoveKeeps(s, step, c);
    case CleanGet(c) => MoveKeeps(s, step, c);
    case RecoverReturn(c) => MoveKeeps(s, step, c);
    case RecoverUpdate(c, _) => RemovalKeepsIff(s, step);
    case CleanUpdate(c, _) => RemovalKeepsIff(s, step);
  }

  lemma TickKeeps(s: State, seconds: nat)
    requires LockInvariant(s)
    ensures LockInvariant(s.(now := s.now + seconds))
  {
  }

  /** The steps that read, decide or give up, but write nothing. */
  lemma MoveKeeps(s: State, step: Step, c: nat)
    requires LockInvariant(s) && Apply(s, step).Some?
    requires step in {LockStart(c), LockGet(c), LockGiveUp(c), UnlockGet(c), UnlockGetFails(c), RecoverGet(c),
                      RecoverReturn(c), CleanJudge(c), CleanGet(c)} || (step.SelectorGet? && step.c == c)
    ensures LockInvariant(Apply(s, step).value)
  {
    hide LockInvariant;
    PcOf(s, c);
    GotoKeeps(s, c, Apply(s, step).value.At(c));
  }

  /** Under that assumption no reachable state has two holders. */
  lemma {:induction false} LockIsExclusive(s: State, steps: seq<Step>, original: Labels)
    requires Initial(s, original) && TimelyRun(s, steps)
    ensures LockInvariant(Run(s, steps).value) && Exclusive(Run(s, steps).value)
  {
    if steps != [] {
      LockIsExclusive(s, steps[..|steps| - 1], original);
      StepKeepsLockInvariant(Run(s, steps[..|steps| - 1]).value, steps[|steps| - 1]);
    }
  }

  function Attempt(c: nat, purpose: Purpose, now: int): seq<Step> {
    [LockStart(c), LockGet(c), LockJudge(c), LockUpdate(c, purpose, now, Done)]
  }

  /** What an undisturbed first attempt of LockService comes to. */
  lemma AttemptResult(s: State, c: nat, purpose: Purpose)
    requires s.At(c).Idle?
    ensures var free := s.service.lock.None? || s.now - s.service.lock.value >= LOCK_TIMEOUT;
            var locked := s.service.(lock := Some(s.now));
            Run(s, Attempt(c, purpose, s.now)) ==
            if free
            then Some(s.Goto(c, Holding(purpose, s.now, locked)).(service := locked.(version := s.service.version + 1)))
            else None
  {
    hide Run;
    NoSteps(s);
    Overwrite(s, c);
    var begin := [LockStart(c)];
    RunNext(s, [], LockStart(c));
    assert [] + begin == begin;
    assert Run(s, begin) == Some(s.Goto(c, LockCall(0)));
    RunNext(s, begin, LockGet(c));
    assert Run(s, begin + [LockGet(c)]) == Some(s.Goto(c, LockRead(0, s.service)));
    RunNext(s, begin + [LockGet(c)], LockJudge(c));
    var free := s.service.lock.None? || s.now - s.service.lock.value >= LOCK_TIMEOUT;
    var judged := if free then LockFree(0, s.service, s.now) else LockCall(1);
    assert Run(s, begin + [LockGet(c)] + [LockJudge(c)]) == Some(s.Goto(c, judged));
    assert free ==> s.Goto(c, judged).Goto(c, Holding(purpose, s.now, s.service.(lock := Some(s.now)))) ==
                    s.Goto(c, Holding(purpose, s.now, s.service.(lock := Some(s.now))));
    RunNext(s, begin + [LockGet(c)] + [LockJudge(c)], LockUpdate(c, purpose, s.now, Done));
    assert begin + [LockGet(c)] + [LockJudge(c)] + [LockUpdate(c, purpose, s.now, Done)] == Attempt(c, purpose, s.now);
  }

  lemma NoSteps(s: State)
    ensures Run(s, []) == Some(s)
  {
  }

  lemma Overwrite(s: State, c: nat)
    ensures forall pc, pc' :: s.Goto(c, pc).Goto(c, pc') == s.Goto(c, pc')
  {
    forall pc, pc'
      ensures s.Goto(c, pc).Goto(c, pc') == s.Goto(c, pc')
    {
      assert s.clients[c := pc][c := pc'] == s.clients[c := pc'];
    }
  }

  /** The timeliness of holders is needed: a second process can take the lock by itself exactly when the first one has
      kept it for 180 seconds. */
  lemma OvertakenIffLate(s: State, c: nat, d: nat, purpose: Purpose)
    requires LockInvariant(s) && s.At(c).Holds() && s.At(d).Idle?
    ensures (Run(s, Attempt(d, purpose, s.now)).Some? && !Exclusive(Run(s, Attempt(d, purpose, s.now)).value))
            <==> s.now >= Stamp(s.At(c)) + LOCK_TIMEOUT
  {
    AttemptResult(s, d, purpose);
    hide Run;
    assert s.service.lock == Some(Stamp(s.clients[c]));
    if s.now >= Stamp(s.At(c)) + LOCK_TIMEOUT {
      var after := Run(s, Attempt(d, purpose, s.now)).value;
      assert after.clients[c].Holds() && after.clients[d].Holds();
    }
  }

  lemma AttemptSucceedsIff(s: State, d: nat, purpose: Purpose)
    requires s.At(d).Idle?
    ensures Run(s, Attempt(d, purpose, s.now)).Some?
            <==> s.service.lock.None? || s.now - s.service.lock.value >= LOCK_TIMEOUT
  {
    AttemptResult(s, d, purpose);
    hide Run, Attempt;
  }

  /** Whoever waits until the stamp is 180 seconds old gets in, and nobody earlier. */
  lemma WaitingHelpsIff(s: State, d: nat, purpose: Purpose, seconds: nat)
    requires s.At(d).Idle? && s.service.lock.Some?
    ensures var waited := Run(s, [Tick(seconds)]);
            && waited.Some? && waited.value.service == s.service && waited.value.now == s.now + seconds
            && (Run(waited.value, Attempt(d, purpose, s.now + seconds)).Some?
                <==> s.now + seconds - s.service.lock.value >= 180)
  {
    var later := s.(now := s.now + seconds);
    assert Apply(s, Tick(seconds)) == Some(later);
    NoSteps(s);
    RunNext(s, [], Tick(seconds));
    assert [] + [Tick(seconds)] == [Tick(seconds)];
    hide Run, Apply, Attempt;
    AttemptSucceedsIff(later, d, purpose);
  }

  lemma JudgedAgain(s: State, c: nat)
    requires s.At(c).LockCall? && s.At(c).times <= MAX_TIMES
    ensures var again := Run(s, [LockGet(c)] + [LockJudge(c)]);
            again.Some? && (again.value.At(c).LockFree? <==>
                            s.service.lock.None? || s.now - s.service.lock.value >= LOCK_TIMEOUT)
  {
    hide Run;
    NoSteps(s);
    RunNext(s, [], LockGet(c));
    assert [] + [LockGet(c)] == [LockGet(c)];
    RunNext(s, [LockGet(c)], LockJudge(c));
  }

  lemma LostLockIs(s: State, c: nat, stamp: int, purpose: Purpose)
    requires LockInvariant(s) && s.At(c).LockFree? && s.Accepts(s.At(c).copy, Lost) && s.At(c).judged <= stamp <= s.now
    ensures Apply(s, LockUpdate(c, purpose, stamp, Lost)).Some?
    ensures var lost := Apply(s, LockUpdate(c, purpose, stamp, Lost)).value;
            && !AnyHolder(lost) && lost.service.lock == Some(stamp) && lost.now == s.now
            && lost.At(c) == LockCall(s.At(c).times + 1) && forall d | d != c :: lost.At(d) == s.At(d)
  {
    PcOf(s, c);
    LockUpdateNext(s, c, purpose, stamp, Lost);
    hide LockInvariant, Apply;
    assert forall d | d in s.clients :: !s.clients[d].Holds();
  }

  /** If the answer to an update that writes the lock is lost, the lock is there and nobody holds it: until its stamp is
      180 seconds old nobody else gets in, and its writer, which tries again, does not either. */
  lemma LostLockBlocksIff(s: State, c: nat, stamp: int, d: nat, purpose: Purpose, seconds: nat)
    requires LockInvariant(s) && s.At(c).LockFree? && s.Accepts(s.At(c).copy, Lost) && s.At(d).Idle?
    requires s.At(c).judged <= stamp <= s.now && s.At(c).times < MAX_TIMES
    ensures var lost := Apply(s, LockUpdate(c, purpose, stamp, Lost)).value;
            var later := lost.(now := lost.now + seconds);
            && !AnyHolder(lost)
            && (Run(later, Attempt(d, purpose, later.now)).Some? <==> later.now - stamp >= LOCK_TIMEOUT)
            && var again := Run(later, [LockGet(c)] + [LockJudge(c)]);
               again.Some? && (again.value.At(c).LockFree? <==> later.now - stamp >= LOCK_TIMEOUT)
  {
    LostLockIs(s, c, stamp, purpose);
    hide Apply, Run, Attempt, LockInvariant, AnyHolder;
    var lost := Apply(s, LockUpdate(c, purpose, stamp, Lost)).value;
    var later := lost.(now := lost.now + seconds);
    AttemptSucceedsIff(later, d, purpose);
    JudgedAgain(later, c);
  }

  lemma NobodyHoldsOldLock(s: State)
    requires LockInvariant(s) && Timely(s)
    requires s.service.lock.None? || s.now - s.service.lock.value >= LOCK_TIMEOUT
    ensures !AnyHolder(s)
  {
  }

  lemma AttemptKeeps(s: State, c: nat, purpose: Purpose)
    requires LockInvariant(s) && Timely(s) && s.At(c).Idle?
    requires s.service.lock.None? || s.now - s.service.lock.value >= LOCK_TIMEOUT
    ensures var after := Run(s, Attempt(c, purpose, s.now)); after.Some? && LockInvariant(after.value)
  {
    AttemptResult(s, c, purpose);
    NobodyHoldsOldLock(s);
    hide Run, Apply, Attempt, LockInvariant, Timely, AnyHolder;
    var locked := s.service.(lock := Some(s.now));
    var written := s.Put(s.service, locked, Done);
    PutKeeps(s, s.service, locked, Done);
    NobodyIsCurrent(s, s.service, locked, Done);
    SameHolders(s, written);
    HolderEnters(written, c, Holding(purpose, s.now, locked));
  }

  /** While c holds the lock, the update of a recover or a clean lets another process d in at once exactly if the server
      takes it, or c is late anyway. */
  lemma RemovalBreaksExclusionIff(s: State, step: Step, c: nat, d: nat, purpose: Purpose)
    requires LockInvariant(s) && (step.RecoverUpdate? || step.CleanUpdate?) && Apply(s, step).Some?
    requires s.At(c).Holds() && s.At(d).Idle? && d != step.c
    ensures var after := Apply(s, step).value;
            (Run(after, Attempt(d, purpose, s.now)).Some? && !Exclusive(Run(after, Attempt(d, purpose, s.now)).value))
            <==> RemovesLock(s, step) || s.now >= Stamp(s.At(c)) + LOCK_TIMEOUT
  {
    var after := Apply(s, step).value;
    AttemptResult(after, d, purpose);
    hide Run, Restored;
    assert s.service.lock == Some(Stamp(s.clients[c]));
    assert after.clients[c] == s.clients[c] && after.At(d) == s.At(d);
    assert after.service.lock == if RemovesLock(s, step) then None else s.service.lock;
    if RemovesLock(s, step) || s.now >= Stamp(s.At(c)) + LOCK_TIMEOUT {
      var both := Run(after, Attempt(d, purpose, s.now)).value;
      assert both.clients[c].Holds() && both.clients[d].Holds() && c != d;
    }
  }

  /** A recover that reads and writes while c holds the lock. */
  lemma RecoverBreaksExclusion(s: State, c: nat, d: nat, e: nat, purpose: Purpose, outcome: Outcome)
    requires outcome.Happened()
    requires LockInvariant(s) && s.At(c).Holds() && s.At(d).Idle? && s.At(e).Idle? && d != e
    ensures var recovered := Run(s, [RecoverGet(e)] + [RecoverUpdate(e, outcome)]);
            && recovered.Some?
            && Run(recovered.value, Attempt(d, purpose, s.now)).Some?
            && !Exclusive(Run(recovered.value, Attempt(d, purpose, s.now)).value)
  {
    hide Run, Restored, LockInvariant;
    NoSteps(s);
    RunNext(s, [], RecoverGet(e));
    assert [] + [RecoverGet(e)] == [RecoverGet(e)];
    RunNext(s, [RecoverGet(e)], RecoverUpdate(e, outcome));
    var read := Apply(s, RecoverGet(e)).value;
    MoveKeeps(s, RecoverGet(e), e);
    RemovalBreaksExclusionIff(read, RecoverUpdate(e, outcome), c, d, purpose);
  }

  /** A clean that judged a lock to be expired reads and writes while c holds a fresh one. */
  lemma CleanBreaksExclusion(s: State, c: nat, d: nat, e: nat, purpose: Purpose, outcome: Outcome)
    requires outcome.Happened()
    requires LockInvariant(s) && s.At(c).Holds() && s.At(d).Idle? && s.At(e).CleanJudged? && d != e
    ensures var cleaned := Run(s, [CleanGet(e)] + [CleanUpdate(e, outcome)]);
            && cleaned.Some?
            && Run(cleaned.value, Attempt(d, purpose, s.now)).Some?
            && !Exclusive(Run(cleaned.value, Attempt(d, purpose, s.now)).value)
  {
    hide Run, LockInvariant;
    NoSteps(s);
    RunNext(s, [], CleanGet(e));
    assert [] + [CleanGet(e)] == [CleanGet(e)];
    RunNext(s, [CleanGet(e)], CleanUpdate(e, outcome));
    var read := Apply(s, CleanGet(e)).value;
    MoveKeeps(s, CleanGet(e), e);
    RemovalBreaksExclusionIff(read, CleanUpdate(e, outcome), c, d, purpose);
  }

  /** Such a moment comes about: over an expired lock, the clean judges first and c locks before the clean reads again.
      */
  lemma CleanIsOvertaken(s: State, c: nat, e: nat, purpose: Purpose)
    requires LockInvariant(s) && Timely(s) && s.At(c).Idle? && s.At(e).Idle? && e != c
    requires s.service.lock.Some? && s.now - s.service.lock.value > LOCK_TIMEOUT
    ensures var judged := Apply(s, CleanJudge(e));
            && judged.Some?
            && var locked := Run(judged.value, Attempt(c, purpose, s.now));
               && locked.Some? && LockInvariant(locked.value) && Timely(locked.value)
               && locked.value.At(c).Holds() && locked.value.At(e).CleanJudged?
  {
    MoveKeeps(s, CleanJudge(e), e);
    var judged := Apply(s, CleanJudge(e)).value;
    AttemptKeeps(judged, c, purpose);
    AttemptResult(judged, c, purpose);
    hide Run, LockInvariant;
  }

  // ----- bounded retry -----

  /** How often process `c` has read the service since it last entered LockService. */
  function Attempts(steps: seq<Step>, c: nat): nat {
    if steps == [] then 0
    else
      var last := steps[|steps| - 1];
      if last == LockStart(c) then 0
      else Attempts(steps[..|steps| - 1], c) + if last == LockGet(c) then 1 else 0
  }

  /** One call of LockService reads the service at most eleven times. */
  lemma {:induction false} AttemptsAreBounded(s: State, steps: seq<Step>, original: Labels, c: nat)
    requires Initial(s, original) && Run(s, steps).Some?
    ensures Attempts(steps, c) <= MAX_TIMES + 1
    ensures var pc := Run(s, steps).value.At(c);
            && (pc.LockCall? ==> Attempts(steps, c) == pc.times)
            && (pc.LockRead? || pc.LockFree? ==> Attempts(steps, c) == pc.times + 1)
  {
    if steps != [] {
      AttemptsAreBounded(s, steps[..|steps| - 1], original, c);
      StepCounts(Run(s, steps[..|steps| - 1]).value, steps[|steps| - 1], c);
    }
  }

  lemma StepCounts(s: State, step: Step, c: nat)
    requires Apply(s, step).Some?
    ensures var pc, pc' := s.At(c), Apply(s, step).value.At(c);
            if step == LockStart(c) then pc' == LockCall(0)
            else if step == LockGet(c)
            then pc.LockCall? && pc.times <= MAX_TIMES && pc'.LockRead? && pc'.times == pc.times
            else
              && (pc'.LockCall? ==> pc == pc' || ((pc.LockRead? || pc.LockFree?) && pc'.times == pc.times + 1))
              && (pc'.LockRead? ==> pc == pc')
              && (pc'.LockFree? ==> pc == pc' || (pc.LockRead? && pc'.times == pc.times))
  {
  }
}
