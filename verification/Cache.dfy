/** The cache lifecycle of one model on a shared filesystem (internal/modelcontroller/cache.go,
    and the order of steps in model_controller.go), as a state machine.

    Every read and every write of the API server is a step of its own, so the controller may
    crash, or see an error, between any two; both send it back to `Idle`.  Writes of a whole
    object succeed only if its version is still the one that was read.  In between, jobs finish
    or vanish, the user deletes the model or the volume claim, and other models create the claim
    and write their own annotations on it. */
module Cache {
  import opened Wrappers

  /** `name` and `uid` of the model; the annotation of a model on the claim holds its UID. */
  datatype Identity = Identity(name: string, uid: string)

  datatype Claim = Claim(id: nat, version: nat, annotations: map<string, string>, terminating: bool)

  datatype ModelObject = ModelObject(version: nat, finalizer: bool, deleting: bool)

  datatype Job = Job(completed: bool)

  /** `clock` is the next version or object id the server hands out. */
  datatype Server = Server(clock: nat, model: Option<ModelObject>, claim: Option<Claim>, load: Option<Job>, evict: Option<Job>)

  /** Where the controller is.  The names say what the next step does. */
  datatype Pc =
    | Idle
    // reconcileCache
    | GetClaim | CreateClaim | PersistFinalizer | GetLoadJob | Decide | CreateLoadJob | Annotate | DeleteLoadJob | PlanPods
    // finalizeCache
    | GetClaimToFinalize | DeleteJobs | DropFinalizer | GetEvictJob | CreateEvictJob | RemoveAnnotation | RemoveFinalizer | CleanUp

  /** What the controller has read in this pass. */
  datatype Controller = Controller(pc: Pc, model: ModelObject, claim: Option<Claim>, job: Option<Job>)

  datatype State = State(server: Server, ctl: Controller)

  // ----- the controller

  function Stop(s: State): State { s.(ctl := s.ctl.(pc := Idle)) }

  function Goto(s: State, pc: Pc): State { s.(ctl := s.ctl.(pc := pc)) }

  function AnnotationOf(c: Claim, name: string): string { if name in c.annotations then c.annotations[name] else "" }

  predicate Annotated(c: Claim, me: Identity) { AnnotationOf(c, me.name) == me.uid }

  /** Writes back the model with another finalizer flag; fails on a version conflict.  A model
      that is being deleted is gone once its finalizer is. */
  function UpdateModel(s: State, finalizer: bool, next: Pc): State {
    if s.server.model.None? || s.server.model.value.version != s.ctl.model.version then Stop(s)
    else
      var m := ModelObject(s.server.clock, finalizer, s.ctl.model.deleting);
      var gone := m.deleting && !finalizer;
      State(s.server.(clock := s.server.clock + 1, model := if gone then None else Some(m)), s.ctl.(pc := next, model := m))
  }

  /** Writes back the claim with other annotations; fails on a version conflict. */
  function UpdateClaim(s: State, annotations: map<string, string>, next: Pc): State {
    if s.ctl.claim.None? || s.server.claim.None? || s.server.claim.value.version != s.ctl.claim.value.version then Stop(s)
    else
      var c := s.ctl.claim.value.(version := s.server.clock, annotations := annotations);
      State(s.server.(clock := s.server.clock + 1, claim := Some(c)), s.ctl.(pc := next, claim := Some(c)))
  }

  /** The next step of the controller. */
  function Advance(s: State, me: Identity): State {
    match s.ctl.pc
    case Idle =>
      if s.server.model.None? then s
      else
        var m := s.server.model.value;
        s.(ctl := Controller(if m.deleting then GetClaimToFinalize else GetClaim, m, None, None))
    // reconcileCache
    case GetClaim =>
      s.(ctl := s.ctl.(claim := s.server.claim, pc := if s.server.claim.None? then CreateClaim else PersistFinalizer))
    case CreateClaim =>
      if s.server.claim.Some? then Stop(s)
      else
        var c := Claim(s.server.clock, s.server.clock, map[], false);
        State(s.server.(clock := s.server.clock + 1, claim := Some(c)), s.ctl.(claim := Some(c), pc := PersistFinalizer))
    case PersistFinalizer =>
      if s.ctl.model.finalizer then Goto(s, GetLoadJob) else UpdateModel(s, true, GetLoadJob)
    case GetLoadJob => s.(ctl := s.ctl.(job := s.server.load, pc := Decide))
    case Decide =>
      if s.ctl.claim.Some? && Annotated(s.ctl.claim.value, me) then
        Goto(s, if s.ctl.job.Some? then DeleteLoadJob else PlanPods)
      else if s.ctl.job.None? then Goto(s, CreateLoadJob)
      else if !s.ctl.job.value.completed then Stop(s)
      else Goto(s, Annotate)
    case CreateLoadJob =>
      if s.server.load.Some? then Stop(s) else Stop(s.(server := s.server.(load := Some(Job(false)))))
    case Annotate =>
      if s.ctl.claim.None? then Stop(s)
      else UpdateClaim(s, s.ctl.claim.value.annotations[me.name := me.uid], DeleteLoadJob)
    case DeleteLoadJob =>
      if s.server.load.None? then Stop(s) else Goto(s.(server := s.server.(load := None)), PlanPods)
    case PlanPods => Stop(s)
    // finalizeCache
    case GetClaimToFinalize =>
      s.(ctl := s.ctl.(claim := s.server.claim,
                       pc := if s.server.claim.None? || s.server.claim.value.terminating then DeleteJobs
                             else if s.ctl.model.finalizer then GetEvictJob else CleanUp))
    case DeleteJobs =>
      State(s.server.(load := None, evict := None), s.ctl.(pc := if s.ctl.model.finalizer then DropFinalizer else Idle))
    case DropFinalizer => UpdateModel(s, false, Idle)
    case GetEvictJob =>
      s.(ctl := s.ctl.(job := s.server.evict,
                       pc := if s.server.evict.None? then CreateEvictJob
                             else if !s.server.evict.value.completed then Idle
                             else RemoveAnnotation))
    case CreateEvictJob =>
      if s.server.evict.Some? then Stop(s) else Stop(s.(server := s.server.(evict := Some(Job(false)))))
    case RemoveAnnotation =>
      if s.ctl.claim.None? || me.name !in s.ctl.claim.value.annotations then Goto(s, RemoveFinalizer)
      else UpdateClaim(s, s.ctl.claim.value.annotations - {me.name}, RemoveFinalizer)
    case RemoveFinalizer => UpdateModel(s, false, CleanUp)
    case CleanUp => State(s.server.(load := None, evict := None), s.ctl.(pc := Idle))
  }

  // ----- everything else that happens

  datatype Event =
    | Advances
    | Crashes
    | LoadFinishes | EvictFinishes
    | LoadVanishes | EvictVanishes
    | UserDeletesModel
    | UserEditsModel
    | ClaimDeletionRequested
    | ClaimRemoved
    | OthersCreateClaim(annotations: map<string, string>)
    | OthersAnnotate(annotations: map<string, string>)

  /** Other models write only under their own names. */
  predicate Enabled(s: State, e: Event, me: Identity) {
    match e
    case LoadFinishes => s.server.load.Some?
    case EvictFinishes => s.server.evict.Some?
    case UserDeletesModel => s.server.model.Some?
    case UserEditsModel => s.server.model.Some?
    case ClaimDeletionRequested => s.server.claim.Some?
    case ClaimRemoved => s.server.claim.Some? && s.server.claim.value.terminating
    case OthersCreateClaim(a) => s.server.claim.None? && me.name !in a
    case OthersAnnotate(a) =>
      s.server.claim.Some? && (me.name in a <==> me.name in s.server.claim.value.annotations)
      && (me.name in a ==> a[me.name] == s.server.claim.value.annotations[me.name])
    case _ => true
  }

  function Tick(v: Server): Server { v.(clock := v.clock + 1) }

  function Happens(s: State, e: Event, me: Identity): State
    requires Enabled(s, e, me)
  {
    var v := s.server;
    match e
    case Advances => Advance(s, me)
    case Crashes => Stop(s)
    case LoadFinishes => s.(server := v.(load := Some(Job(true))))
    case EvictFinishes => s.(server := v.(evict := Some(Job(true))))
    case LoadVanishes => s.(server := v.(load := None))
    case EvictVanishes => s.(server := v.(evict := None))
    case UserDeletesModel =>
      var m := v.model.value;
      s.(server := Tick(v).(model := if m.finalizer then Some(ModelObject(v.clock, true, true)) else None))
    case UserEditsModel => s.(server := Tick(v).(model := Some(v.model.value.(version := v.clock))))
    case ClaimDeletionRequested => s.(server := Tick(v).(claim := Some(v.claim.value.(version := v.clock, terminating := true))))
    case ClaimRemoved => s.(server := v.(claim := None))
    case OthersCreateClaim(a) => s.(server := Tick(v).(claim := Some(Claim(v.clock, v.clock, a, false))))
    case OthersAnnotate(a) => s.(server := Tick(v).(claim := Some(v.claim.value.(version := v.clock, annotations := a))))
  }

  // ----- the invariant

  /** The eviction finalizer is on the model as the server has it. */
  predicate Persisted(v: Server) { v.model.Some? && v.model.value.finalizer }

  /** A claim that is there to stay lists this model as loaded. */
  predicate Listed(v: Server, me: Identity) { v.claim.Some? && !v.claim.value.terminating && Annotated(v.claim.value, me) }

  /** Versions identify contents: a copy with the server's current version is the server's object. */
  predicate CopiesAreHonest(s: State) {
    && (s.server.model.Some? ==> s.server.model.value.version < s.server.clock)
    && (s.server.claim.Some? ==> s.server.claim.value.version < s.server.clock && s.server.claim.value.id < s.server.clock)
    && (s.ctl.pc != Idle ==>
          && s.ctl.model.version < s.server.clock
          && (s.server.model.Some? && s.server.model.value.version == s.ctl.model.version ==> s.server.model.value == s.ctl.model)
          && (s.ctl.claim.Some? ==>
                && s.ctl.claim.value.version < s.server.clock && s.ctl.claim.value.id < s.server.clock
                && (s.server.claim.Some? && s.server.claim.value.version == s.ctl.claim.value.version ==>
                      s.server.claim == s.ctl.claim)))
  }

  /** The steps of reconcileCache after the finalizer. */
  predicate AfterFinalizer(pc: Pc) {
    pc in {GetLoadJob, Decide, CreateLoadJob, Annotate, DeleteLoadJob, PlanPods}
  }

  /** The steps of a pass that has not yet removed the finalizer. */
  predicate BeforeRemoval(pc: Pc) { pc != Idle && pc != CleanUp }

  /** The steps at which nothing may list the model any more. */
  predicate Unlisting(pc: Pc) { pc in {DeleteJobs, DropFinalizer, RemoveFinalizer} }

  predicate Finalizing(pc: Pc) {
    pc in {GetClaimToFinalize, DeleteJobs, DropFinalizer, GetEvictJob, CreateEvictJob, RemoveAnnotation, RemoveFinalizer}
  }

  /** The claim still is the one this pass has read. */
  predicate SameClaim(s: State) {
    s.server.claim.Some? && s.ctl.claim.Some? && s.server.claim.value.id == s.ctl.claim.value.id
  }

  predicate Inv(s: State, me: Identity) {
    && me.uid != ""
    && CopiesAreHonest(s)
    && (Listed(s.server, me) ==> Persisted(s.server))
    && (BeforeRemoval(s.ctl.pc) && s.ctl.model.finalizer ==> Persisted(s.server))
    && (AfterFinalizer(s.ctl.pc) ==> s.ctl.model.finalizer && s.ctl.claim.Some?)
    && (s.ctl.pc == PersistFinalizer ==> s.ctl.claim.Some?)
    && (Finalizing(s.ctl.pc) ==> s.ctl.model.deleting)
    && (Unlisting(s.ctl.pc) ==> !Listed(s.server, me))
    && (s.ctl.pc in {DropFinalizer, GetEvictJob, CreateEvictJob, RemoveAnnotation, RemoveFinalizer} ==> s.ctl.model.finalizer)
    && (s.ctl.pc in {GetEvictJob, CreateEvictJob, RemoveAnnotation} ==>
          s.ctl.claim.Some? && (me.name !in s.ctl.claim.value.annotations ==> !Listed(s.server, me)))
    && (s.ctl.pc in {DeleteLoadJob, PlanPods} ==> Annotated(s.ctl.claim.value, me))
    && (s.ctl.pc in {DeleteLoadJob, PlanPods} && SameClaim(s) ==> Annotated(s.server.claim.value, me))
    && (s.ctl.pc in {PersistFinalizer, GetLoadJob, Decide} && SameClaim(s) && Annotated(s.ctl.claim.value, me) ==> Annotated(s.server.claim.value, me))
  }

  lemma ReadsKeepInv(s: State, me: Identity)
    requires Inv(s, me) && s.ctl.pc in {Idle, GetClaim, CreateClaim, GetLoadJob, Decide, CreateLoadJob, PlanPods}
    ensures Inv(Advance(s, me), me)
  {
  }

  lemma WritesKeepInv(s: State, me: Identity)
    requires Inv(s, me) && s.ctl.pc in {PersistFinalizer, Annotate, DeleteLoadJob}
    ensures Inv(Advance(s, me), me)
  {
  }

  lemma FinalizeKeepsInv(s: State, me: Identity)
    requires Inv(s, me) && s.ctl.pc in {GetClaimToFinalize, DeleteJobs, GetEvictJob, CreateEvictJob, CleanUp}
    ensures Inv(Advance(s, me), me)
  {
  }

  lemma RemovalKeepsInv(s: State, me: Identity)
    requires Inv(s, me) && s.ctl.pc in {DropFinalizer, RemoveAnnotation, RemoveFinalizer}
    ensures Inv(Advance(s, me), me)
  {
  }

  lemma AdvanceKeepsInv(s: State, me: Identity)
    requires Inv(s, me)
    ensures Inv(Advance(s, me), me)
  {
    hide Inv, Advance;
    match s.ctl.pc
    case Idle | GetClaim | CreateClaim | GetLoadJob | Decide | CreateLoadJob | PlanPods => ReadsKeepInv(s, me);
    case PersistFinalizer | Annotate | DeleteLoadJob => WritesKeepInv(s, me);
    case GetClaimToFinalize | DeleteJobs | GetEvictJob | CreateEvictJob | CleanUp => FinalizeKeepsInv(s, me);
    case DropFinalizer | RemoveAnnotation | RemoveFinalizer => RemovalKeepsInv(s, me);
  }

  lemma JobEventKeepsInv(s: State, e: Event, me: Identity)
    requires Inv(s, me) && Enabled(s, e, me) && e in {Crashes, LoadFinishes, EvictFinishes, LoadVanishes, EvictVanishes}
    ensures Inv(Happens(s, e, me), me)
  {
  }

  lemma ModelEventKeepsInv(s: State, e: Event, me: Identity)
    requires Inv(s, me) && Enabled(s, e, me) && e in {UserDeletesModel, UserEditsModel}
    ensures Inv(Happens(s, e, me), me)
  {
  }

  lemma ClaimEventKeepsInv(s: State, e: Event, me: Identity)
    requires Inv(s, me) && Enabled(s, e, me) && e in {ClaimDeletionRequested, ClaimRemoved}
    ensures Inv(Happens(s, e, me), me)
  {
  }

  lemma OthersKeepInv(s: State, e: Event, me: Identity)
    requires Inv(s, me) && Enabled(s, e, me) && (e.OthersCreateClaim? || e.OthersAnnotate?)
    ensures Inv(Happens(s, e, me), me)
  {
  }

  lemma EventKeepsInv(s: State, e: Event, me: Identity)
    requires Inv(s, me) && Enabled(s, e, me) && e != Advances
    ensures Inv(Happens(s, e, me), me)
  {
    hide Inv, Enabled, Happens;
    match e
    case Crashes | LoadFinishes | EvictFinishes | LoadVanishes | EvictVanishes => JobEventKeepsInv(s, e, me);
    case UserDeletesModel | UserEditsModel => ModelEventKeepsInv(s, e, me);
    case ClaimDeletionRequested | ClaimRemoved => ClaimEventKeepsInv(s, e, me);
    case OthersCreateClaim(_) | OthersAnnotate(_) => OthersKeepInv(s, e, me);
  }

  // ----- every run, with crashes anywhere

  /** Before the first pass: nothing lists the model unless its finalizer is there. */
  predicate Start(s: State, me: Identity) {
    && me.uid != "" && s.ctl.pc == Idle
    && (s.server.model.Some? ==> s.server.model.value.version < s.server.clock)
    && (s.server.claim.Some? ==> s.server.claim.value.version < s.server.clock && s.server.claim.value.id < s.server.clock)
    && (Listed(s.server, me) ==> Persisted(s.server))
  }

  ghost predicate Run(start: State, events: seq<Event>, me: Identity)
    decreases |events|, 0
  {
    if events == [] then Start(start, me)
    else Run(start, events[..|events| - 1], me) && Enabled(After(start, events[..|events| - 1], me), events[|events| - 1], me)
  }

  ghost function After(start: State, events: seq<Event>, me: Identity): State
    requires Run(start, events, me)
    decreases |events|, 1
  {
    if events == [] then start else Happens(After(start, events[..|events| - 1], me), events[|events| - 1], me)
  }

  lemma {:induction false} InvAlways(start: State, events: seq<Event>, me: Identity)
    requires Run(start, events, me)
    ensures Inv(After(start, events, me), me)
    decreases |events|
  {
    if events != [] {
      hide Enabled, Advance, Inv;
      var front, e := events[..|events| - 1], events[|events| - 1];
      InvAlways(start, front, me);
      if e == Advances { AdvanceKeepsInv(After(start, front, me), me); } else { EventKeepsInv(After(start, front, me), e, me); }
    }
  }

  /** `s` is reached by some run, crashes included. */
  ghost predicate Reachable(s: State, me: Identity) {
    exists start, events :: Run(start, events, me) && After(start, events, me) == s
  }

  lemma ReachableInv(s: State, me: Identity)
    requires Reachable(s, me)
    ensures Inv(s, me)
  {
    var start, events :| Run(start, events, me) && After(start, events, me) == s;
    InvAlways(start, events, me);
  }

  /** A load job appears only while the finalizer is persisted on the model. */
  lemma LoadJobOnlyAfterFinalizer(s: State, e: Event, me: Identity)
    requires Reachable(s, me) && Enabled(s, e, me)
    requires s.server.load.None? && Happens(s, e, me).server.load.Some?
    ensures e == Advances && s.ctl.pc == CreateLoadJob && Persisted(s.server) && Persisted(Happens(s, e, me).server)
    ensures s.server.model.Some? && s.server.model.value.finalizer && Happens(s, e, me).server.model == s.server.model
  {
    ReachableInv(s, me);
  }

  /** A claim that is not being deleted lists the model only while the finalizer is persisted:
      no model can vanish and leave its entry behind. */
  lemma ListedOnlyWithFinalizer(s: State, me: Identity)
    requires Reachable(s, me)
    ensures Listed(s.server, me) ==> Persisted(s.server)
    ensures s.server.claim.Some? && !s.server.claim.value.terminating
            && me.name in s.server.claim.value.annotations && s.server.claim.value.annotations[me.name] == me.uid ==>
              s.server.model.Some? && s.server.model.value.finalizer
  {
    ReachableInv(s, me);
  }

  /** Pods are planned only after this pass has read or written the model's entry, and while the
      claim is the one it read the entry is still there. */
  lemma PodsPlannedOnlyWhenListed(s: State, me: Identity)
    requires Reachable(s, me) && s.ctl.pc == PlanPods
    ensures Persisted(s.server)
    ensures s.ctl.claim.Some? && Annotated(s.ctl.claim.value, me)
    ensures SameClaim(s) ==> Annotated(s.server.claim.value, me)
  {
    ReachableInv(s, me);
  }

  /** The controller never removes the claim, never replaces it, and never changes the entry of
      another model. */
  lemma OtherEntriesUntouched(s: State, me: Identity, other: string)
    requires Reachable(s, me) && s.server.claim.Some? && other != me.name
    ensures var c, c' := s.server.claim.value, Advance(s, me).server.claim;
            && c'.Some? && c'.value.id == c.id && c'.value.terminating == c.terminating
            && (other in c'.value.annotations <==> other in c.annotations)
            && (other in c.annotations ==> c'.value.annotations[other] == c.annotations[other])
  {
    ReachableInv(s, me);
  }

  // ----- waiting for the jobs

  /** A pass writes the entry only if the load job it read had completed, and drops the entry
      only if the eviction job it read had. */
  predicate JobWasRead(s: State, me: Identity) {
    && (s.ctl.pc == Annotate ==> s.ctl.job == Some(Job(true)))
    && (s.ctl.pc in {RemoveAnnotation, RemoveFinalizer} ==> s.ctl.job == Some(Job(true)))
  }

  lemma {:induction false} JobWasReadAlways(start: State, events: seq<Event>, me: Identity)
    requires Run(start, events, me)
    ensures JobWasRead(After(start, events, me), me)
    decreases |events|
  {
    if events != [] {
      var front, e := events[..|events| - 1], events[|events| - 1];
      JobWasReadAlways(start, front, me);
      JobWasReadStep(After(start, front, me), e, me);
    }
  }

  lemma JobWasReadStep(s: State, e: Event, me: Identity)
    requires JobWasRead(s, me) && Enabled(s, e, me)
    ensures JobWasRead(Happens(s, e, me), me)
  {
  }

  lemma ReachableJobWasRead(s: State, me: Identity)
    requires Reachable(s, me)
    ensures JobWasRead(s, me)
  {
    var start, events :| Run(start, events, me) && After(start, events, me) == s;
    JobWasReadAlways(start, events, me);
  }

  /** The controller creates a job where there is none, running, or removes one; it never replaces
      or finishes a job. */
  lemma JobsAreCreatedOrRemoved(s: State, me: Identity)
    ensures s.server.load.None? ==> Advance(s, me).server.load in {None, Some(Job(false))}
    ensures s.server.load.Some? ==> Advance(s, me).server.load in {None, s.server.load}
    ensures s.server.evict.None? ==> Advance(s, me).server.evict in {None, Some(Job(false))}
    ensures s.server.evict.Some? ==> Advance(s, me).server.evict in {None, s.server.evict}
  {
  }

  /** The controller goes on to the Pods having read no load job, or by removing the one there is;
      one that has vanished meanwhile stops the pass. */
  lemma PodsAfterLoadJob(s: State, me: Identity)
    requires s.ctl.pc != PlanPods && Advance(s, me).ctl.pc == PlanPods
    ensures (s.ctl.pc == Decide && s.ctl.job.None? && Advance(s, me).server == s.server)
            || (s.server.load.Some? && Advance(s, me).server == s.server.(load := None))
  {
  }

  /** The claim has this entry for the model. */
  predicate HasEntry(c: Option<Claim>, me: Identity, uid: string) {
    c.Some? && me.name in c.value.annotations && c.value.annotations[me.name] == uid
  }

  /** Whatever happens, the claim newly lists the model as loaded only by a step of a pass that
      read the load job as completed. */
  lemma ListedOnlyAfterLoading(s: State, e: Event, me: Identity)
    requires Reachable(s, me) && Enabled(s, e, me)
    requires !HasEntry(s.server.claim, me, me.uid) && HasEntry(Happens(s, e, me).server.claim, me, me.uid)
    ensures e == Advances && s.ctl.pc == Annotate && s.ctl.job.Some? && s.ctl.job.value.completed
  {
    ReachableInv(s, me);
    ReachableJobWasRead(s, me);
  }

  /** The job a pass holds is one the server showed it. */
  lemma JobsAreReadFromServer(s: State, me: Identity)
    requires Advance(s, me).ctl.job != s.ctl.job
    ensures s.ctl.pc in {Idle, GetLoadJob, GetEvictJob}
    ensures Advance(s, me).ctl.job ==
            if s.ctl.pc == GetLoadJob then s.server.load else if s.ctl.pc == GetEvictJob then s.server.evict else None
  {
  }

  /** A controller step drops the model's entry from a claim only in a pass that read the eviction
      job as completed. */
  lemma UnlistedOnlyAfterEviction(s: State, me: Identity)
    requires Reachable(s, me)
    requires s.server.claim.Some? && me.name in s.server.claim.value.annotations
    requires Advance(s, me).server.claim.None? || me.name !in Advance(s, me).server.claim.value.annotations
    ensures s.ctl.pc == RemoveAnnotation && s.ctl.job.Some? && s.ctl.job.value.completed && s.ctl.model.deleting
  {
    ReachableInv(s, me);
    ReachableJobWasRead(s, me);
  }

  /** The finalizer goes only from a model being deleted, and only when no lasting claim lists it. */
  lemma FinalizerGoesLast(s: State, e: Event, me: Identity)
    requires Reachable(s, me) && Enabled(s, e, me)
    requires Persisted(s.server) && !Persisted(Happens(s, e, me).server)
    ensures e == Advances && s.server.model.value.deleting && Happens(s, e, me).server.model.None?
    ensures !Listed(s.server, me) && !Listed(Happens(s, e, me).server, me)
    ensures s.server.claim.Some? && !s.server.claim.value.terminating ==> !HasEntry(s.server.claim, me, me.uid)
  {
    ReachableInv(s, me);
  }

  // ----- what an uninterrupted pass achieves

  function AdvanceBy(s: State, me: Identity, n: nat): State
    decreases n
  {
    if n == 0 then s else AdvanceBy(Advance(s, me), me, n - 1)
  }

  lemma AdvanceTwo(s: State, me: Identity, n: nat)
    ensures AdvanceBy(s, me, n + 2) == AdvanceBy(Advance(Advance(s, me), me), me, n)
  {
    hide Advance;
    assert AdvanceBy(s, me, n + 2) == AdvanceBy(Advance(s, me), me, n + 1);
  }

  lemma AdvanceFour(s: State, me: Identity)
    ensures AdvanceBy(s, me, 4) == Advance(Advance(Advance(Advance(s, me), me), me), me)
  {
    hide Advance;
    AdvanceTwo(s, me, 2);
    AdvanceTwo(Advance(Advance(s, me), me), me, 0);
  }

  /** A pass about to begin for a model being deleted. */
  predicate ReadyToFinalize(s: State) {
    s.ctl.pc == Idle && Persisted(s.server) && s.server.model.value.deleting
  }

  /** Loading takes two passes as well: the first makes sure of the claim, the finalizer and the
      load job; the second, once the job has completed, writes the entry, removes the job and
      goes on to the Pods. */
  lemma LoadingPasses(s: State, me: Identity)
    requires s.ctl.pc == Idle && s.server.model.Some? && !s.server.model.value.deleting && me.uid != ""
    requires s.server.claim.None? || !Annotated(s.server.claim.value, me)
    ensures s.server.load.None? && s.server.claim.Some? ==>
      var r := AdvanceBy(s, me, 6);
      r.ctl.pc == Idle && Persisted(r.server) && r.server.load == Some(Job(false)) && r.server.claim == s.server.claim
    ensures s.server.load.None? && s.server.claim.None? ==>
      var r := AdvanceBy(s, me, 7);
      r.ctl.pc == Idle && Persisted(r.server) && r.server.load == Some(Job(false)) && r.server.claim.Some?
      && r.server.claim.value.annotations == map[] && !r.server.claim.value.terminating
    ensures s.server.load == Some(Job(true)) && s.server.claim.Some? ==>
      var r := AdvanceBy(s, me, 7);
      && r.ctl.pc == PlanPods && Persisted(r.server) && r.server.load.None?
      && r.server.claim.Some? && r.server.claim.value.annotations == s.server.claim.value.annotations[me.name := me.uid]
  {
    var s4 := Advance(Advance(Advance(Advance(s, me), me), me), me);
    var s6 := Advance(Advance(s4, me), me);
    SixAndSeven(s, me);
    assert s.server.claim.Some? ==> s4.ctl.pc == Decide && Persisted(s4.server);
    assert s.server.claim.None? ==> s4.ctl.pc == GetLoadJob && Persisted(s4.server);
  }

  /** A pass that finds the load job unfinished stops and leaves the job and all entries alone. */
  lemma UnfinishedLoadWaits(s: State, me: Identity)
    requires s.ctl.pc == Idle && s.server.model.Some? && !s.server.model.value.deleting && me.uid != ""
    requires s.server.claim.Some? && !HasEntry(s.server.claim, me, me.uid)
    requires s.server.load.Some? && !s.server.load.value.completed
    ensures var r := AdvanceBy(s, me, 5);
            && r.ctl.pc == Idle && Persisted(r.server) && r.server.load == s.server.load
            && r.server.claim == s.server.claim && r.server.evict == s.server.evict
  {
    FiveSteps(s, me);
    var s4 := Advance(Advance(Advance(Advance(s, me), me), me), me);
    assert s4.ctl.pc == Decide && s4.ctl.job == s.server.load && s4.ctl.claim == s.server.claim;
  }

  /** A pass for a model already listed goes on to the Pods and removes the load job, finished or
      not. */
  lemma LoadedPass(s: State, me: Identity)
    requires s.ctl.pc == Idle && s.server.model.Some? && !s.server.model.value.deleting && me.uid != ""
    requires HasEntry(s.server.claim, me, me.uid)
    ensures s.server.load.None? ==>
      var r := AdvanceBy(s, me, 5);
      r.ctl.pc == PlanPods && Persisted(r.server) && r.server.load.None? && r.server.claim == s.server.claim
    ensures s.server.load.Some? ==>
      var r := AdvanceBy(s, me, 6);
      r.ctl.pc == PlanPods && Persisted(r.server) && r.server.load.None? && r.server.claim == s.server.claim
  {
    FiveSteps(s, me);
    SixAndSeven(s, me);
    var s4 := Advance(Advance(Advance(Advance(s, me), me), me), me);
    assert s4.ctl.pc == Decide && s4.ctl.job == s.server.load && s4.ctl.claim == s.server.claim;
  }

  lemma FiveSteps(s: State, me: Identity)
    ensures AdvanceBy(s, me, 5) == Advance(Advance(Advance(Advance(Advance(s, me), me), me), me), me)
  {
    hide Advance;
    AdvanceTwo(s, me, 3);
    AdvanceTwo(Advance(Advance(s, me), me), me, 1);
  }

  /** A pass that finds the eviction job unfinished stops and changes nothing. */
  lemma UnfinishedEvictionWaits(s: State, me: Identity)
    requires ReadyToFinalize(s) && s.server.claim.Some? && !s.server.claim.value.terminating
    requires s.server.evict.Some? && !s.server.evict.value.completed
    ensures AdvanceBy(s, me, 3).ctl.pc == Idle && AdvanceBy(s, me, 3).server == s.server
  {
    AdvanceTwo(s, me, 1);
  }

  /** A model being deleted without the finalizer loses its jobs and nothing else changes. */
  lemma NothingToEvict(s: State, me: Identity)
    requires s.ctl.pc == Idle && s.server.model.Some? && s.server.model.value.deleting && !s.server.model.value.finalizer
    ensures var r := AdvanceBy(s, me, 3); r.ctl.pc == Idle && r.server == s.server.(load := None, evict := None)
  {
    AdvanceTwo(s, me, 1);
  }

  lemma SixAndSeven(s: State, me: Identity)
    ensures var s4 := Advance(Advance(Advance(Advance(s, me), me), me), me);
            && AdvanceBy(s, me, 6) == Advance(Advance(s4, me), me)
            && AdvanceBy(s, me, 7) == Advance(Advance(Advance(s4, me), me), me)
  {
    hide Advance;
    var s2 := Advance(Advance(s, me), me);
    AdvanceTwo(s, me, 4);
    AdvanceFour(s2, me);
    AdvanceTwo(s, me, 5);
    AdvanceTwo(s2, me, 3);
    AdvanceTwo(Advance(Advance(s2, me), me), me, 1);
  }

  /** Deleting a model with a lasting claim takes two passes: the first creates the eviction
      job, the second, once the job has completed, drops the entry and lets the model go. */
  lemma EvictionPasses(s: State, me: Identity)
    requires ReadyToFinalize(s) && s.server.claim.Some? && !s.server.claim.value.terminating
    ensures s.server.evict.None? ==>
      AdvanceBy(s, me, 4).ctl.pc == Idle && AdvanceBy(s, me, 4).server == s.server.(evict := Some(Job(false)))
    ensures s.server.evict == Some(Job(true)) ==>
      var r := AdvanceBy(s, me, 6);
      && r.ctl.pc == Idle && r.server.model.None? && r.server.load.None? && r.server.evict.None?
      && r.server.claim.Some? && r.server.claim.value.annotations == s.server.claim.value.annotations - {me.name}
  {
    var s1 := Advance(s, me);
    var s2 := Advance(s1, me);
    var s3 := Advance(s2, me);
    var s4 := Advance(s3, me);
    AdvanceFour(s, me);
    AdvanceFour(s2, me);
    assert AdvanceBy(s, me, 6) == AdvanceBy(s2, me, 4) by { AdvanceTwo(s, me, 4); }
    assert me.name !in s.server.claim.value.annotations ==>
      s.server.claim.value.annotations - {me.name} == s.server.claim.value.annotations;
  }

  /** Without a lasting claim one pass removes the jobs and lets the model go. */
  lemma FinalizeWithoutClaim(s: State, me: Identity)
    requires ReadyToFinalize(s) && (s.server.claim.None? || s.server.claim.value.terminating)
    ensures var r := AdvanceBy(s, me, 4);
            r.ctl.pc == Idle && r.server.model.None? && r.server.load.None? && r.server.evict.None? && r.server.claim == s.server.claim
  {
    var s1 := Advance(s, me);
    var s2 := Advance(s1, me);
    var s3 := Advance(s2, me);
    AdvanceFour(s, me);
  }
}
