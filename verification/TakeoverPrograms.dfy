/** The procedures that lock, take over and give back a service, as one process runs them call by call while others
    interfere: every execution is a run of the state machine, so its laws hold for them. */
module TakeoverPrograms {
  import opened Text
  import opened Calls
  import opened Takeover

  predicate IsBy(step: Step, c: nat) {
    !step.Tick? && !step.WatcherGet? && !step.WatcherUpdate? && step.c == c
  }

  lemma OthersLeave(s: State, step: Step, c: nat)
    requires !IsBy(step, c) && Apply(s, step).Some?
    ensures Apply(s, step).value.At(c) == s.At(c) && Apply(s, step).value.now >= s.now
  {
  }

  /** What the rest of the world does is fixed beforehand: the steps that try to come before each call of ours, and what
      becomes of our calls. */
  datatype Schedule = Schedule(others: seq<seq<Step>>, outcomes: seq<Outcome>)

  const ROLE_MESH_SHADOW := "shadow-mesh"

  /** A deployment or a pod that the service selects. */
  datatype Workload = Workload(labels: Labels, terminating: bool)

  datatype Target = NoTarget | Deployment(index: nat, kind: string) | Pod(index: nat, kind: string) {
    const role := if NoTarget? then "" else kind
  }

  predicate HasRole(w: Workload) {
    KT_ROLE in w.labels
  }

  ghost predicate IsTarget(target: Target, apps: seq<Workload>, pods: seq<Workload>) {
    match target
    case Deployment(index, kind) =>
      && index < |apps| && HasRole(apps[index]) && kind == apps[index].labels[KT_ROLE]
      && forall k :: 0 <= k < index ==> !HasRole(apps[k])
    case Pod(index, kind) =>
      && apps == [] && index < |pods| && HasRole(pods[index]) && !pods[index].terminating
      && kind == pods[index].labels[KT_ROLE]
      && forall k :: 0 <= k < index ==> pods[k].terminating || !HasRole(pods[k])
    case NoTarget =>
      && (forall k :: 0 <= k < |apps| ==> !HasRole(apps[k]))
      && (apps == [] ==> forall k :: 0 <= k < |pods| ==> pods[k].terminating || !HasRole(pods[k]))
  }

  /** Deployments come first, even if none of them has a role; pods that are going away do not count. */
  method FetchTargetRole(apps: seq<Workload>, pods: seq<Workload>) returns (target: Target)
    ensures IsTarget(target, apps, pods)
  {
    if |apps| > 0 {
      for i := 0 to |apps|
        invariant forall k :: 0 <= k < i ==> !HasRole(apps[k])
      {
        if HasRole(apps[i]) {
          return Deployment(i, apps[i].labels[KT_ROLE]);
        }
      }
    } else if |pods| > 0 {
      for i := 0 to |pods|
        invariant forall k :: 0 <= k < i ==> pods[k].terminating || !HasRole(pods[k])
      {
        if HasRole(pods[i]) && !pods[i].terminating {
          return Pod(i, pods[i].labels[KT_ROLE]);
        }
      }
    }
    return NoTarget;
  }

  datatype Recovery = Failed | Nothing | Updated

  /** The service was like this at some moment of the run, not before its first steps. */
  ghost predicate WasStored(start: State, trace: seq<Step>, from: nat, svc: Service) {
    exists k | from <= k <= |trace| :: Run(start, trace[..k]).Some? && Run(start, trace[..k]).value.service == svc
  }

  lemma StoredNow(start: State, trace: seq<Step>, from: nat)
    requires Run(start, trace).Some? && from <= |trace|
    ensures WasStored(start, trace, from, Run(start, trace).value.service)
  {
    assert trace[..|trace|] == trace;
  }

  lemma StoredLater(start: State, before: seq<Step>, trace: seq<Step>, from: nat, svc: Service)
    requires WasStored(start, before, from, svc) && before <= trace
    ensures WasStored(start, trace, from, svc)
  {
    assert forall k | 0 <= k <= |before| :: before[..k] == trace[..k];
  }

  predicate IsFree(s: State) {
    s.service.lock.None? || s.now - s.service.lock.value >= LOCK_TIMEOUT
  }

  /** Process c has got the lock, and nothing else has changed. */
  predicate IsLocked(s: State, c: nat, purpose: Purpose, svc: Option<Service>, t: State) {
    var locked := s.service.(lock := Some(s.now));
    svc == Some(locked) &&
    t == s.Goto(c, Holding(purpose, s.now, locked)).(service := locked.(version := s.service.version + 1))
  }

  /** Process c has given the lock back, and nothing else has changed. */
  predicate IsUnlocked(s: State, c: nat, t: State) {
    t == s.Goto(c, Idle).(service := if s.service.lock.None? then s.service
                                     else s.service.(lock := None, version := s.service.version + 1))
  }

  /** The service selects the new pods, and the annotation has what it selected at first. */
  predicate IsTaken(svc: Service, selector: Labels, after: Service) {
    after.selector == selector && after.saved == if svc.saved.Some? then svc.saved else Some(svc.selector)
  }

  /** What a takeover that may go ahead, and one that may not, comes to if nobody interferes. */
  predicate IsDone(s: State, may: bool, selector: Labels, ok: bool, t: State) {
    if !IsFree(s) then !ok && t.service == s.service
    else
      && (ok <==> may)
      && t.service.lock == None
      && if ok then IsTaken(s.service, selector, t.service)
         else t.service.selector == s.service.selector && t.service.saved == s.service.saved
  }

  /** What a recover that is served does for a service. */
  function RecoveryOf(svc: Service, target: Target): Recovery {
    if svc.saved.Some? && target.role == ROLE_ROUTER && !target.Pod? then Failed
    else if svc.saved.Some? || svc.lock.Some? || target.role in {ROLE_MESH_SHADOW, ROLE_EXCHANGE} then Updated
    else Nothing
  }

  /** After an unlock the next process gets the lock at once. */
  lemma NextGetsIn(s: State, c: nat, t: State, d: nat, purpose: Purpose)
    requires IsUnlocked(s, c, t) && t.At(d).Idle?
    ensures Run(t, Attempt(d, purpose, t.now)).Some?
  {
    AttemptSucceedsIff(t, d, purpose);
    hide Run, Attempt;
  }

  lemma ServiceConserves(s: State, steps: seq<Step>, original: Labels)
    requires Initial(s, original) && Run(s, steps).Some?
    ensures Conserves(Run(s, steps).value.service, original)
  {
    SelectorIsConserved(s, steps, original);
  }

  class Cluster {
    const start: State
    const schedule: Schedule
    var state: State
    var calls: nat
    ghost var trace: seq<Step>

    ghost predicate Valid()
      reads this
    {
      Run(start, trace) == Some(state)
    }

    function OutcomeOf(call: nat): Outcome {
      if call < |schedule.outcomes| then schedule.outcomes[call] else Done
    }

    /** From the next call on nobody interferes, and every call is served. */
    ghost predicate Quiet()
      reads this`calls
    {
      forall k: nat | k >= calls :: (k < |schedule.others| ==> schedule.others[k] == []) && OutcomeOf(k).Done?
    }

    constructor (start: State, schedule: Schedule)
      ensures Valid() && state == start && trace == [] && this.start == start && this.schedule == schedule && calls == 0
    {
      this.start := start;
      this.schedule := schedule;
      state := start;
      calls := 0;
      trace := [];
      new;
      NoSteps(start);
    }

    method Do(step: Step)
      requires Valid() && Apply(state, step).Some?
      modifies this`state, this`trace
      ensures Valid() && state == Apply(old(state), step).value && trace == old(trace) + [step]
    {
      hide Run, Apply;
      RunNext(start, trace, step);
      state := Apply(state, step).value;
      trace := trace + [step];
    }

    /** The others run until process c comes to its next call, which will have this outcome. */
    method Interfere(c: nat) returns (outcome: Outcome)
      requires Valid()
      modifies this
      ensures Valid() && state.At(c) == old(state.At(c)) && state.now >= old(state.now) && old(trace) <= trace
      ensures calls == old(calls) + 1 && outcome == OutcomeOf(old(calls))
      ensures old(Quiet()) ==> Quiet() && state == old(state)
    {
      if calls < |schedule.others| {
        var steps := schedule.others[calls];
        for i := 0 to |steps|
          invariant Valid() && state.At(c) == old(state.At(c)) && state.now >= old(state.now) && old(trace) <= trace
          invariant calls == old(calls) && (old(Quiet()) ==> steps == [] && state == old(state))
        {
          if !IsBy(steps[i], c) && Apply(state, steps[i]).Some? {
            OthersLeave(state, steps[i], c);
            Do(steps[i]);
          }
        }
      }
      outcome := OutcomeOf(calls);
      calls := calls + 1;
    }

    method LockService(c: nat, purpose: Purpose, times: nat) returns (svc: Option<Service>)
      requires Valid() && state.At(c) == LockCall(times) && times <= MAX_TIMES + 1
      modifies this
      ensures Valid()
      ensures svc.None? ==> state.At(c) == Idle
      ensures svc.Some? ==>
                exists stamp :: state.At(c) == Holding(purpose, stamp, svc.value) && svc.value.lock == Some(stamp)
      ensures old(Quiet()) ==> Quiet()
      ensures old(Quiet()) && times <= MAX_TIMES && IsFree(old(state)) ==> IsLocked(old(state), c, purpose, svc, state)
      ensures old(Quiet()) && (times > MAX_TIMES || !IsFree(old(state))) ==> state == old(state).Goto(c, Idle)
      decreases MAX_TIMES + 1 - times
    {
      hide Run;
      if times > MAX_TIMES {
        Do(LockGiveUp(c));
        return None;
      }
      var found, taken := JudgeLock(c);
      if !found {
        return None;
      }
      hide Apply;
      if !taken {
        svc := WriteLock(c, purpose);
      }
      if taken || svc.None? {
        svc := LockService(c, purpose, times + 1);
      }
    }

    /** The read of the service and the look at its lock. */
    method JudgeLock(c: nat) returns (found: bool, taken: bool)
      requires Valid() && state.At(c).LockCall? && state.At(c).times <= MAX_TIMES
      modifies this
      ensures Valid()
      ensures !found ==> state.At(c) == Idle
      ensures found && taken ==> state.At(c) == LockCall(old(state.At(c).times) + 1)
      ensures found && !taken ==>
                state.At(c).LockFree? && state.At(c).times == old(state.At(c).times) && state.At(c).judged <= state.now
      ensures old(Quiet()) ==> Quiet() && found && (taken <==> !IsFree(old(state)))
      ensures old(Quiet()) ==> state == old(state).Goto(c, state.At(c))
      ensures old(Quiet()) && !taken ==> state.At(c).copy == state.service
    {
      hide Run;
      taken := false;
      var outcome := Interfere(c);
      found := outcome.Done?;
      if !found {
        Do(LockGiveUp(c));
        return;
      }
      Do(LockGet(c));
      var copy := state.service;
      outcome := Interfere(c);
      taken := copy.lock.Some? && state.now - copy.lock.value < LOCK_TIMEOUT;
      Do(LockJudge(c));
    }

    method WriteLock(c: nat, purpose: Purpose) returns (svc: Option<Service>)
      requires Valid() && state.At(c).LockFree? && state.At(c).judged <= state.now
      modifies this
      ensures Valid()
      ensures svc.None? ==> state.At(c) == LockCall(old(state.At(c).times) + 1)
      ensures old(Quiet()) ==> Quiet()
      ensures old(Quiet() && state.At(c).copy == state.service) ==> IsLocked(old(state), c, purpose, svc, state)
      ensures svc.Some? ==>
                exists stamp :: state.At(c) == Holding(purpose, stamp, svc.value) && svc.value.lock == Some(stamp)
    {
      hide Run;
      var outcome := Interfere(c);
      var copy, stamp := state.At(c).copy, state.now;
      var confirmed := state.Confirms(copy, outcome);
      Do(LockUpdate(c, purpose, stamp, outcome));
      svc := if confirmed then Some(copy.(lock := Some(stamp))) else None;
    }

    /** `copy`: the service as it was read, None if it could not be; `freed`: the lock was taken out of it. */
    method UnlockService(c: nat) returns (ghost copy: Option<Service>, ghost freed: bool)
      requires Valid() && (state.At(c).Holding? || state.At(c).Body?)
      modifies this
      ensures Valid() && state.At(c) == Idle
      ensures copy.Some? <==> OutcomeOf(old(calls)).Done?
      ensures copy.Some? ==> WasStored(start, trace, |old(trace)|, copy.value)
      ensures copy.Some? && copy.value.lock.Some? && OutcomeOf(old(calls) + 1).Happened() ==>
                freed || copy.value.version != state.service.version
      ensures freed ==>
                copy.Some? && state.service == copy.value.(lock := None, version := copy.value.version + 1)
      ensures old(Quiet()) ==> Quiet() && IsUnlocked(old(state), c, state)
    {
      hide Run, WasStored;
      freed := false;
      var outcome := Interfere(c);
      if !outcome.Done? {
        Do(UnlockGetFails(c));
        return None, false;
      }
      var svc := state.service;
      copy := Some(svc);
      StoredNow(start, trace, |old(trace)|);
      ghost var before := trace;
      Do(UnlockGet(c));
      if svc.lock.Some? {
        freed := WriteUnlocked(c, svc);
      }
      StoredLater(start, before, trace, |old(trace)|, svc);
    }

    method WriteUnlocked(c: nat, svc: Service) returns (ghost freed: bool)
      requires Valid() && state.At(c) == UnlockRead(svc)
      modifies this
      ensures Valid() && state.At(c) == Idle && old(trace) <= trace
      ensures OutcomeOf(old(calls)).Happened() ==> freed || svc.version != state.service.version
      ensures freed ==> state.service == svc.(lock := None, version := svc.version + 1)
      ensures old(Quiet()) ==> Quiet()
      ensures old(Quiet() && svc == state.service) ==>
                state == old(state).Goto(c, Idle).(service := svc.(lock := None, version := svc.version + 1))
    {
      hide Run;
      var outcome := Interfere(c);
      freed := state.Accepts(svc, outcome);
      Do(UnlockUpdate(c, outcome));
    }

    /** `copy`: the service as it was read, for the specification. */
    method UpdateServiceSelector(c: nat, selector: Labels) returns (ok: bool, ghost copy: Option<Service>)
      requires Valid() && state.At(c).Holding? && MayTakeOver(state.At(c).purpose, state.At(c).locked)
      requires Role(selector) == RoleOf(state.At(c).purpose)
      modifies this
      ensures Valid() && (state.At(c).Holding? || state.At(c).Body?)
      ensures copy.None? ==> !ok
      ensures copy.Some? && SelectorToSave(copy.value).None? ==> !ok
      ensures ok && IsServiceChanged(copy.value, selector, SelectorToSave(copy.value).value) ==>
                && state.service.selector == selector && state.service.saved == SelectorToSave(copy.value)
                && state.service.lock == copy.value.lock
      ensures ok ==> state.watchers != [] && state.watchers[|state.watchers| - 1].target == selector
      ensures old(Quiet()) ==> Quiet() && (ok <==> SelectorToSave(old(state.service)).Some?)
      ensures old(Quiet()) ==>
                if ok then IsTaken(old(state.service), selector, state.service) else state.service == old(state.service)
      ensures old(Quiet()) ==> state.service.lock == old(state.service.lock)
      ensures old(Quiet() && state.service.saved.Some? && state.service.selector == selector) ==>
                ok && state.service == old(state.service)
    {
      hide Run;
      var outcome := Interfere(c);
      if !outcome.Done? {
        return false, None;
      }
      var svc := state.service;
      copy := Some(svc);
      Do(SelectorGet(c, selector));
      ok := SaveAndSwitch(c, svc, selector);
    }

    method SaveAndSwitch(c: nat, svc: Service, selector: Labels) returns (ok: bool)
      requires Valid() && state.At(c).SelectorRead? && state.At(c).copy == svc && state.At(c).target == selector
      requires Role(selector) != ""
      modifies this
      ensures Valid() && state.At(c).Body?
      ensures SelectorToSave(svc).None? ==> !ok
      ensures ok && IsServiceChanged(svc, selector, SelectorToSave(svc).value) ==>
                && state.service.selector == selector && state.service.saved == SelectorToSave(svc)
                && state.service.lock == svc.lock
      ensures ok ==> state.watchers != [] && state.watchers[|state.watchers| - 1].target == selector
      ensures old(Quiet()) ==> Quiet()
      ensures old(Quiet() && svc == state.service) ==>
                && (ok <==> SelectorToSave(svc).Some?) && state.service.lock == svc.lock
                && if ok then IsTaken(svc, selector, state.service) else state.service == svc
      ensures old(Quiet() && svc == state.service) && svc.saved.Some? && svc.selector == selector ==>
                ok && state.service == svc
    {
      hide Run;
      var outcome := Interfere(c);
      var marshaledSelector: Labels;
      if svc.saved.Some? {
        marshaledSelector := svc.saved.value;
      } else if Role(svc.selector) != "" {
        Do(SelectorUpdate(c, outcome));
        return false;
      } else {
        marshaledSelector := svc.selector;
      }
      var changed := svc.(saved := Some(marshaledSelector)).selector != selector;
      ok := !changed || state.Confirms(svc, outcome);
      Do(SelectorUpdate(c, outcome));
    }

    /** `ktctl exchange` by selector. */
    method BySelector(c: nat, selector: Labels, shadowCreated: bool, ghost original: Labels) returns (ok: bool)
      requires Valid() && Initial(start, original) && state.At(c) == Idle && Role(selector) == ROLE_EXCHANGE
      modifies this
      ensures Valid() && state.At(c) == Idle
      ensures Conserves(state.service, original)
      ensures old(Quiet()) ==>
                var may := shadowCreated && old(state.service.saved).None? && Role(old(state.service.selector)) == "";
                IsDone(old(state), may, selector, ok, state)
    {
      hide Run;
      Do(LockStart(c));
      var svc := LockService(c, Exchange, 0);
      ok := false;
      if svc.Some? {
        if svc.value.saved.None? && shadowCreated {
          ghost var copy;
          ok, copy := UpdateServiceSelector(c, selector);
        }
        ghost var read, freed := UnlockService(c);
      }
      SelectorIsConserved(start, trace, original);
    }

    /** What AutoMesh does to the service: lock, guard, the mesh's own resources, takeover, unlock. */
    method ByMesh(c: nat, selector: Labels, prepared: bool, ghost original: Labels) returns (ok: bool)
      requires Valid() && Initial(start, original) && state.At(c) == Idle && Role(selector) == ROLE_ROUTER
      modifies this
      ensures Valid() && state.At(c) == Idle
      ensures Conserves(state.service, original)
      ensures old(Quiet()) ==>
                var may := prepared && (if old(state.service.saved).Some?
                                        then Role(old(state.service.selector)) != ROLE_EXCHANGE
                                        else Role(old(state.service.selector)) == "");
                IsDone(old(state), may, selector, ok, state)
    {
      hide Run;
      Do(LockStart(c));
      var svc := LockService(c, Mesh, 0);
      ok := false;
      if svc.Some? {
        if !(svc.value.saved.Some? && Role(svc.value.selector) == ROLE_EXCHANGE) && prepared {
          ghost var copy;
          ok, copy := UpdateServiceSelector(c, selector);
        }
        ghost var read, freed := UnlockService(c);
      }
      SelectorIsConserved(start, trace, original);
    }

    /** If the update takes effect, reported or not, the selector is the original one again, whatever all the others
        did. */
    method RecoverOriginalService(c: nat, ghost original: Labels) returns (restored: bool)
      requires Valid() && Initial(start, original) && state.At(c) == Idle
      modifies this
      ensures Valid() && state.At(c) == Idle
      ensures restored ==> state.service.selector == original && state.service.saved == None
      ensures old(Quiet()) ==> restored && state.service.lock == old(state.service.lock)
      ensures old(Quiet()) && old(state.service.saved).None? ==> state.service == old(state.service)
    {
      hide Run;
      var outcome := Interfere(c);
      if !outcome.Done? {
        return false;
      }
      var svc := state.service;
      ServiceConserves(start, trace, original);
      Do(RestoreGet(c));
      restored := true;
      if svc.saved.Some? {
        restored := WriteRestored(c, svc, original);
      }
    }

    method WriteRestored(c: nat, svc: Service, ghost original: Labels) returns (restored: bool)
      requires Valid() && state.At(c) == RestoreRead(svc) && svc.saved == Some(original)
      modifies this
      ensures Valid() && state.At(c) == Idle
      ensures restored ==> state.service.selector == original && state.service.saved == None
      ensures old(Quiet() && svc == state.service) ==> restored && state.service.lock == svc.lock
    {
      hide Run;
      var outcome := Interfere(c);
      restored := state.Accepts(svc, outcome);
      Do(RestoreUpdate(c, outcome));
    }

    /** `ktctl recover`; `apps` and `pods` are what listing them gives, and `read` is the service as it was read. An
        update leaves the original selector, no annotation and no lock; without one, that is what the service was like
        when it was read, and still is if it has the same version. If it could not be read, the selector is empty, so
        everything is listed, and nothing is updated. */
    method Recover(c: nat, apps: seq<Workload>, pods: seq<Workload>, ghost original: Labels)
      returns (result: Recovery, ghost read: Option<Service>, ghost found: Target)
      requires Valid() && Initial(start, original) && state.At(c) == Idle
      modifies this
      ensures Valid() && state.At(c) == Idle
      ensures Conserves(state.service, original)
      ensures result.Updated? ==>
                && read.Some? && state.service.selector == original
                && state.service.saved == None && state.service.lock == None
      ensures read.Some? ==> WasStored(start, trace, |old(trace)|, read.value)
      ensures result.Nothing? && read.Some? ==>
                && read.value.selector == original && read.value.saved == None && read.value.lock == None
                && (state.service.version == read.value.version ==> state.service == read.value)
      ensures old(Quiet()) ==>
                IsTarget(found, apps, pods) && read == Some(old(state.service))
                    && result == RecoveryOf(read.value, found)
    {
      hide Run, WasStored;
      found := NoTarget;
      read := ReadService(c, original);
      ghost var before := trace;
      var listed := ListWorkloads(c);
      if !listed {
        result := Failed;
      } else {
        var target := FetchTargetRole(apps, pods);
        found := target;
        if state.At(c).RecoverRead? {
          result := Dispatch(c, target, original);
        } else {
          // an update without a name is an error
          result := if target.role in {ROLE_MESH_SHADOW, ROLE_EXCHANGE} then Failed else Nothing;
        }
      }
      EndRecovery(c, original);
      if read.Some? {
        StoredLater(start, before, trace, |old(trace)|, read.value);
      }
    }

    method ReadService(c: nat, ghost original: Labels) returns (ghost read: Option<Service>)
      requires Valid() && Initial(start, original) && state.At(c) == Idle
      modifies this
      ensures Valid() && old(trace) <= trace
      ensures state.At(c) == if read.Some? then RecoverRead(read.value) else Idle
      ensures read.Some? ==> Conserves(read.value, original) && WasStored(start, trace, |old(trace)|, read.value)
      ensures old(Quiet()) ==> Quiet() && read == Some(old(state.service)) && state.service == old(state.service)
    {
      hide Run, WasStored;
      var outcome := Interfere(c);
      if !outcome.Done? {
        return None;
      }
      SelectorIsConserved(start, trace, original);
      read := Some(state.service);
      StoredNow(start, trace, |old(trace)|);
      ghost var before := trace;
      Do(RecoverGet(c));
      StoredLater(start, before, trace, |old(trace)|, read.value);
    }

    method EndRecovery(c: nat, ghost original: Labels)
      requires Valid() && Initial(start, original) && (state.At(c) == Idle || state.At(c).RecoverRead?)
      modifies this
      ensures Valid() && state.At(c) == Idle && old(trace) <= trace && state.service == old(state.service)
      ensures calls == old(calls)
      ensures Conserves(state.service, original)
      ensures old(state.At(c)).RecoverRead? ==> IsPast(old(state.At(c)).copy, state.service)
    {
      hide Run;
      CopiesArePast(start, trace, original);
      if state.At(c).RecoverRead? {
        Do(RecoverReturn(c));
      }
      SelectorIsConserved(start, trace, original);
    }

    /** The deployments and the pods that the service selects. */
    method ListWorkloads(c: nat) returns (ok: bool)
      requires Valid()
      modifies this
      ensures Valid() && state.At(c) == old(state.At(c)) && old(trace) <= trace
      ensures old(Quiet()) ==> Quiet() && ok && state == old(state)
    {
      hide Run;
      var outcome := Interfere(c);
      ok := outcome.Done?;
      if ok {
        outcome := Interfere(c);
        ok := outcome.Done?;
      }
    }

    method Dispatch(c: nat, target: Target, ghost original: Labels) returns (result: Recovery)
      requires Valid() && Initial(start, original) && state.At(c).RecoverRead? && Conserves(state.At(c).copy, original)
      modifies this
      ensures Valid() && old(trace) <= trace
      ensures state.At(c) == Idle || (state.At(c) == old(state.At(c)) && !result.Updated?)
      ensures state.At(c) == Idle ==> !result.Nothing?
      ensures result.Updated? ==>
                state.service.selector == original && state.service.saved == None && state.service.lock == None
      ensures result.Nothing? ==>
                var svc := old(state.At(c).copy); svc.selector == original && svc.saved == None && svc.lock == None
      ensures old(Quiet() && state.At(c).copy == state.service) ==> result == RecoveryOf(old(state.service), target)
    {
      hide Run;
      var svc := state.At(c).copy;
      if svc.saved.Some? && target.role == ROLE_ROUTER && !target.Pod? {
        // more than a router pod is selected
        return Failed;
      }
      if svc.saved.Some? || target.role in {ROLE_MESH_SHADOW, ROLE_EXCHANGE} || svc.lock.Some? {
        result := WriteRecovered(c, svc, original);
        return;
      }
      return Nothing;
    }

    /** The update at the head of all the recovery sequences. */
    method WriteRecovered(c: nat, svc: Service, ghost original: Labels) returns (result: Recovery)
      requires Valid() && Initial(start, original) && state.At(c) == RecoverRead(svc) && Conserves(svc, original)
      modifies this
      ensures Valid() && state.At(c) == Idle && Conserves(state.service, original) && old(trace) <= trace
      ensures result.Failed? || result.Updated?
      ensures result.Updated? ==>
                state.service.selector == original && state.service.saved == None && state.service.lock == None
      ensures old(Quiet()) && svc == old(state.service) ==> result.Updated?
    {
      hide Run;
      var outcome := Interfere(c);
      result := if state.Confirms(svc, outcome) then Updated else Failed;
      Do(RecoverUpdate(c, outcome));
      SelectorIsConserved(start, trace, original);
    }

    /** The lock that LockService returns is not held by anybody else, on runs in which holders are timely. */
    method Lock(c: nat, purpose: Purpose, ghost original: Labels) returns (svc: Option<Service>)
      requires Valid() && Initial(start, original) && state.At(c) == Idle
      modifies this
      ensures Valid()
      ensures svc.Some? ==> state.At(c).Holds()
      ensures svc.Some? && TimelyRun(start, trace) ==> forall d | d != c :: !state.At(d).Holds()
      ensures Attempts(trace, c) <= MAX_TIMES + 1
    {
      hide Run;
      Do(LockStart(c));
      svc := LockService(c, purpose, 0);
      AttemptsAreBounded(start, trace, original, c);
      if TimelyRun(start, trace) {
        LockIsExclusive(start, trace, original);
      }
    }
  }
}
