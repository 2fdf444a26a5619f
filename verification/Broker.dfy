/**
 The daemon's delegation sessions as a state machine: opening (checked and committed under
 two separate lock acquisitions), extending, closing, expiry, the serve loop of each session,
 and the requests, reflected and local, that run concurrently through the daemon's chokepoint.
 A request reads its scope, is decided, and executes and audits in separate steps, so every
 interleaving of them is a run.
 */
module Broker {
  import opened Wrappers
  import opened Service
  import AppDef
  import Capabilities
  import Passport
  import Policy

  // ---- who may set a scope ----

  /** The configuration on disk when a scope is checked: registered agents and what surfaces are built from. */
  datatype Setting = Setting(agents: seq<string>, defs: map<string, AppDef.Definition>, rules: seq<Policy.Rule>,
                             targets: seq<Capabilities.Target>)

  /** Some capability the agent's rules advertise covers the requested one. */
  predicate Holds(agent: string, setting: Setting, c: Passport.Capability) {
    exists r | r in setting.rules ::
      && r.agent == agent && r.effect != "deny"
      && Passport.SameVerb(Capabilities.BuildCapability(r, setting.defs, setting.targets), c)
      && Passport.Covers(Capabilities.BuildCapability(r, setting.defs, setting.targets), c)
  }

  /** The scope is inside what the agent itself may do. */
  predicate Delegable(agent: string, setting: Setting, scope: seq<Passport.Capability>) {
    forall i :: 0 <= i < |scope| ==> Holds(agent, setting, scope[i])
  }

  predicate MaySet(agent: string, setting: Setting, scope: seq<Passport.Capability>) {
    agent in setting.agents && scope != [] && Delegable(agent, setting, scope)
  }

  /** The check in front of every open and extend, against the live surface of the agent that asks. */
  method VerifyScope(agent: string, setting: Setting, requested: seq<Passport.Capability>) returns (ok: bool)
    ensures ok <==> MaySet(agent, setting, requested)
  {
    if agent !in setting.agents || requested == [] {
      return false;
    }
    var surface := Capabilities.Build(agent, setting.defs, setting.rules, setting.targets);
    var why: Passport.Refusal;
    ok, why := Passport.Subset(requested, surface.capabilities);
    forall i | 0 <= i < |requested|
      ensures Passport.InSurface(requested[i], surface.capabilities) <==> Holds(agent, setting, requested[i])
    {
      SurfaceHolds(agent, setting, surface.capabilities, requested[i]);
    }
  }

  lemma SurfaceHolds(agent: string, setting: Setting, surface: seq<Passport.Capability>, c: Passport.Capability)
    requires forall a :: a in surface <==> Capabilities.Advertised(agent, setting.defs, setting.rules, setting.targets, a)
    ensures Passport.InSurface(c, surface) <==> Holds(agent, setting, c)
  {
    if Passport.InSurface(c, surface) {
      var i :| 0 <= i < |surface| && Passport.SameVerb(surface[i], c) && Passport.Covers(surface[i], c);
      assert surface[i] in surface;
    }
    if Holds(agent, setting, c) {
      var r :| r in setting.rules && r.agent == agent && r.effect != "deny"
               && Passport.SameVerb(Capabilities.BuildCapability(r, setting.defs, setting.targets), c)
               && Passport.Covers(Capabilities.BuildCapability(r, setting.defs, setting.targets), c);
      var a := Capabilities.BuildCapability(r, setting.defs, setting.targets);
      assert Capabilities.Advertised(agent, setting.defs, setting.rules, setting.targets, a);
      assert a in surface;
    }
  }

  // ---- the machine ----

  /** Where a serve loop stands: testing for cancellation, waiting, holding a frame, or running a request. */
  datatype Pc = Top | Fetching | Handling(req: Option<Request>) | Running(job: nat) | Done

  datatype Loop = Loop(id: string, issuer: Policy.Principal, external: string, scope: seq<Passport.Capability>,
                       cancelled: bool, pc: Pc)

  datatype Origin = Reflected(n: nat) | Local

  /** The configuration a request was decided under, and what its executor answers. */
  datatype Verdict = Verdict(w: World, o: Outcome)

  /** A request in flight: as it arrived, as it is judged, the audit it could not append, and what it has still to do. */
  datatype Job = Job(origin: Origin, raw: Request, req: Request, meta: Meta, verdict: Option<Verdict>,
                     lost: seq<Event>, todo: seq<Event>)

  datatype Entry = Entry(job: nat, event: Event)

  datatype State = State(maxSessions: nat, opening: nat, sessions: map<string, nat>, loops: seq<Loop>,
                         jobs: seq<Job>, log: seq<Entry>)

  datatype Step =
    | BeginOpen
    | FailOpen
    | CommitOpen(id: string, issuer: Policy.Principal, external: string, scope: seq<Passport.Capability>, setting: Setting)
    | Extend(id: string, agent: string, scope: seq<Passport.Capability>, setting: Setting)
    | Close(id: string)
    | Expire(n: nat)
    | TestCancelled(n: nat)
    | FetchFails(n: nat)
    | FetchGives(n: nat, req: Option<Request>)
    | Drop(n: nat)
    | Dispatch(n: nat)
    | LocalRequest(r: Request, m: Meta)
    | Decide(j: nat, w: World, o: Outcome)
    | Emit(j: nat)
    | LoseAudit(j: nat)
    | Reply(n: nat)

  function InitState(maxSessions: nat): State {
    State(maxSessions, 0, map[], [], [], [])
  }

  /** The identity a reflected request claims is overwritten with the session's issuer. */
  function AsIssuer(r: Request, issuer: Policy.Principal): Request {
    r.(agent := issuer.agent, user := issuer.user, groups := issuer.groups)
  }

  function ReflectedMeta(l: Loop): Meta {
    Meta("reflector", l.id, l.external, Some(l.scope))
  }

  predicate FreshId(s: State, id: string) {
    forall n :: 0 <= n < |s.loops| ==> s.loops[n].id != id
  }

  predicate Finished(j: Job) {
    j.verdict.Some? && j.todo == []
  }

  predicate Enabled(s: State, step: Step) {
    match step
    case BeginOpen => |s.sessions| < s.maxSessions
    case FailOpen => s.opening > 0
    case CommitOpen(id, issuer, _, scope, setting) =>
      s.opening > 0 && FreshId(s, id) && MaySet(issuer.agent, setting, scope)
    case Extend(_, agent, scope, setting) => MaySet(agent, setting, scope)
    case Close(_) => true
    case Expire(n) => n < |s.loops|
    case TestCancelled(n) => n < |s.loops| && s.loops[n].pc == Top
    case FetchFails(n) => n < |s.loops| && s.loops[n].pc == Fetching
    case FetchGives(n, _) => n < |s.loops| && s.loops[n].pc == Fetching
    case Drop(n) => n < |s.loops| && s.loops[n].pc == Handling(None)
    case Dispatch(n) => n < |s.loops| && s.loops[n].pc.Handling? && s.loops[n].pc.req.Some?
    case LocalRequest(_, m) => m.transport != "reflector" && m.attenuation.None?
    case Decide(j, _, _) => j < |s.jobs| && s.jobs[j].verdict.None?
    case Emit(j) => j < |s.jobs| && s.jobs[j].todo != []
    case LoseAudit(j) => j < |s.jobs| && s.jobs[j].todo != [] && s.jobs[j].todo[0].Audited?
    case Reply(n) => n < |s.loops| && s.loops[n].pc.Running? && s.loops[n].pc.job < |s.jobs| && Finished(s.jobs[s.loops[n].pc.job])
  }

  function InsertSession(s: State, id: string, issuer: Policy.Principal, external: string,
                         scope: seq<Passport.Capability>): State
    requires s.opening > 0
  {
    s.(opening := s.opening - 1, sessions := s.sessions[id := |s.loops|],
       loops := s.loops + [Loop(id, issuer, external, scope, false, Top)])
  }

  predicate Known(s: State, id: string) {
    id in s.sessions && s.sessions[id] < |s.loops|
  }

  function SetScope(s: State, id: string, scope: seq<Passport.Capability>): State {
    if Known(s, id) then s.(loops := s.loops[s.sessions[id] := s.loops[s.sessions[id]].(scope := scope)]) else s
  }

  function SetPc(s: State, n: nat, pc: Pc): State
    requires n < |s.loops|
  {
    s.(loops := s.loops[n := s.loops[n].(pc := pc)])
  }

  function Cancel(s: State, n: nat): State
    requires n < |s.loops|
  {
    s.(loops := s.loops[n := s.loops[n].(cancelled := true)])
  }

  /** Leaving the serve loop cancels the session and removes its id from the map. */
  function Teardown(s: State, n: nat): State
    requires n < |s.loops|
  {
    s.(sessions := s.sessions - {s.loops[n].id},
       loops := s.loops[n := s.loops[n].(pc := Done, cancelled := true)])
  }

  /** What the chokepoint does with a request under a verdict. */
  function PlanOf(j: Job): seq<Event> {
    if j.verdict.None? then [] else HandleEvents(j.verdict.value.w, j.req, j.meta, j.verdict.value.o).1
  }

  function Decided(j: Job, w: World, o: Outcome): Job {
    var d := j.(verdict := Some(Verdict(w, o)));
    d.(todo := PlanOf(d))
  }

  function Apply(s: State, step: Step): State
    requires Enabled(s, step)
  {
    match step
    case BeginOpen => s.(opening := s.opening + 1)
    case FailOpen => s.(opening := s.opening - 1)
    case CommitOpen(id, issuer, external, scope, _) => InsertSession(s, id, issuer, external, scope)
    case Extend(id, _, scope, _) => SetScope(s, id, scope)
    case Close(id) => if Known(s, id) then Cancel(s, s.sessions[id]) else s
    case Expire(n) => Cancel(s, n)
    case TestCancelled(n) => if s.loops[n].cancelled then Teardown(s, n) else SetPc(s, n, Fetching)
    case FetchFails(n) => Teardown(s, n)
    case FetchGives(n, req) => SetPc(s, n, Handling(req))
    case Drop(n) => SetPc(s, n, Top)
    case Dispatch(n) =>
      var l := s.loops[n];
      var raw := l.pc.req.value;
      SetPc(s, n, Running(|s.jobs|)).(jobs := s.jobs + [Job(Reflected(n), raw, AsIssuer(raw, l.issuer), ReflectedMeta(l), None, [], [])])
    case LocalRequest(r, m) => s.(jobs := s.jobs + [Job(Local, r, r, m, None, [], [])])
    case Decide(j, w, o) => s.(jobs := s.jobs[j := Decided(s.jobs[j], w, o)])
    case Emit(j) =>
      var job := s.jobs[j];
      s.(jobs := s.jobs[j := job.(todo := job.todo[1..])], log := s.log + [Entry(j, job.todo[0])])
    case LoseAudit(j) =>
      var job := s.jobs[j];
      s.(jobs := s.jobs[j := job.(todo := job.todo[1..], lost := job.lost + [job.todo[0]])])
    case Reply(n) => SetPc(s, n, Top)
  }

  ghost predicate StepAt(states: seq<State>, steps: seq<Step>, i: nat)
    requires i < |steps| && |states| == |steps| + 1
  {
    Enabled(states[i], steps[i]) && states[i + 1] == Apply(states[i], steps[i])
  }

  ghost predicate IsRun(states: seq<State>, steps: seq<Step>) {
    && |states| == |steps| + 1
    && states[0] == InitState(states[0].maxSessions)
    && forall i :: 0 <= i < |steps| ==> StepAt(states, steps, i)
  }

  // ---- the invariant ----

  /** The map holds exactly the ids of the loops that are still running. */
  predicate MapOk(s: State) {
    && (forall id :: id in s.sessions ==>
          s.sessions[id] < |s.loops| && s.loops[s.sessions[id]].id == id && s.loops[s.sessions[id]].pc != Done)
    && (forall n :: 0 <= n < |s.loops| && s.loops[n].pc != Done ==>
          s.loops[n].id in s.sessions && s.sessions[s.loops[n].id] == n)
    && (forall n :: 0 <= n < |s.loops| && s.loops[n].pc == Done ==> s.loops[n].cancelled)
    && (forall m, n :: 0 <= m < n < |s.loops| ==> s.loops[m].id != s.loops[n].id)
  }

  /** A reflected request is judged as its session's issuer, under a scope and the session's name. */
  predicate JudgedAsIssuer(loops: seq<Loop>, j: Job) {
    j.origin.Reflected? ==>
      && j.origin.n < |loops| && j.req == AsIssuer(j.raw, loops[j.origin.n].issuer)
      && j.meta.transport == "reflector" && j.meta.sessionID == loops[j.origin.n].id && j.meta.attenuation.Some?
  }

  /** The log entries of one request, in order. */
  function EventsOf(log: seq<Entry>, j: nat): seq<Event>
    decreases |log|
  {
    if log == [] then []
    else
      var front, last := EventsOf(log[..|log| - 1], j), log[|log| - 1];
      if last.job == j then front + [last.event] else front
  }

  /** What a request logged, failed to log and has still to log is what it was decided to do; a lost audit is its last act. */
  predicate OnPlan(log: seq<Entry>, k: nat, j: Job) {
    Follows(log, k, j.lost + j.todo, PlanOf(j)) && (j.lost != [] ==> j.todo == [])
  }

  predicate Follows(log: seq<Entry>, k: nat, rest: seq<Event>, plan: seq<Event>) {
    EventsOf(log, k) + rest == plan
  }

  predicate JobsOk(s: State) {
    && (forall j :: 0 <= j < |s.jobs| ==> JudgedAsIssuer(s.loops, s.jobs[j]) && OnPlan(s.log, j, s.jobs[j]))
    && (forall p :: 0 <= p < |s.log| ==> s.log[p].job < |s.jobs|)
  }

  ghost predicate Inv(s: State) {
    MapOk(s) && JobsOk(s)
  }

  /** The id and issuer of a loop never change once it is open. */
  predicate LoopsGrow(a: seq<Loop>, b: seq<Loop>) {
    |a| <= |b| && forall n :: 0 <= n < |a| ==> b[n].issuer == a[n].issuer && b[n].id == a[n].id
  }

  /** The loop a step changes, and what it changes it to. */
  datatype Touch = Touch(n: nat, l: Loop)

  function Touched(s: State, step: Step): Option<Touch>
    requires Enabled(s, step)
  {
    match step
    case Extend(id, _, scope, _) =>
      if Known(s, id) then Some(Touch(s.sessions[id], s.loops[s.sessions[id]].(scope := scope))) else None
    case Close(id) =>
      if Known(s, id) then Some(Touch(s.sessions[id], s.loops[s.sessions[id]].(cancelled := true))) else None
    case Expire(n) => Some(Touch(n, s.loops[n].(cancelled := true)))
    case TestCancelled(n) =>
      Some(Touch(n, if s.loops[n].cancelled then s.loops[n].(pc := Done, cancelled := true) else s.loops[n].(pc := Fetching)))
    case FetchFails(n) => Some(Touch(n, s.loops[n].(pc := Done, cancelled := true)))
    case FetchGives(n, req) => Some(Touch(n, s.loops[n].(pc := Handling(req))))
    case Drop(n) => Some(Touch(n, s.loops[n].(pc := Top)))
    case Dispatch(n) => Some(Touch(n, s.loops[n].(pc := Running(|s.jobs|))))
    case Reply(n) => Some(Touch(n, s.loops[n].(pc := Top)))
    case _ => None
  }

  /** One step changes at most one loop, or adds one. */
  lemma LoopsAfter(s: State, step: Step)
    requires Enabled(s, step)
    ensures var t := Touched(s, step);
            && (t.Some? ==> t.value.n < |s.loops| && Apply(s, step).loops == s.loops[t.value.n := t.value.l])
            && (t.None? && !step.CommitOpen? ==> Apply(s, step).loops == s.loops)
            && (step.CommitOpen? ==>
                  Apply(s, step).loops == s.loops + [Loop(step.id, step.issuer, step.external, step.scope, false, Top)])
  {
  }

  lemma StepGrowsLoops(s: State, step: Step)
    requires Enabled(s, step)
    ensures LoopsGrow(s.loops, Apply(s, step).loops)
  {
    LoopsAfter(s, step);
  }

  /** The step is the end of a serve loop. */
  predicate Ends(s: State, step: Step) {
    step.FetchFails? || (step.TestCancelled? && step.n < |s.loops| && s.loops[step.n].cancelled)
  }

  /** The same loops under the same ids, none of them ended or revived. */
  predicate LoopsKept(a: seq<Loop>, b: seq<Loop>) {
    && |a| == |b|
    && forall n :: 0 <= n < |a| ==> a[n].id == b[n].id && (a[n].pc == Done <==> b[n].pc == Done) && (a[n].cancelled ==> b[n].cancelled)
  }

  lemma OrdinaryStep(s: State, step: Step)
    requires Enabled(s, step) && !step.CommitOpen? && !Ends(s, step)
    ensures Apply(s, step).sessions == s.sessions && LoopsKept(s.loops, Apply(s, step).loops)
  {
    LoopsAfter(s, step);
  }

  lemma KeptMapOk(s: State, s': State)
    requires MapOk(s) && s'.sessions == s.sessions && LoopsKept(s.loops, s'.loops)
    ensures MapOk(s')
  {
  }

  lemma MapPreserved(s: State, step: Step)
    requires MapOk(s) && Enabled(s, step)
    ensures MapOk(Apply(s, step))
  {
    if step.CommitOpen? {
      InsertKeepsMap(s, step.id, step.issuer, step.external, step.scope);
    } else if Ends(s, step) {
      TeardownKeepsMap(s, step.n);
    } else {
      OrdinaryStep(s, step);
      KeptMapOk(s, Apply(s, step));
    }
  }

  lemma InsertKeepsMap(s: State, id: string, issuer: Policy.Principal, external: string, scope: seq<Passport.Capability>)
    requires MapOk(s) && s.opening > 0 && FreshId(s, id)
    ensures MapOk(InsertSession(s, id, issuer, external, scope))
  {
  }

  lemma TeardownKeepsMap(s: State, n: nat)
    requires MapOk(s) && n < |s.loops| && s.loops[n].pc != Done
    ensures MapOk(Teardown(s, n))
  {
  }

  lemma EventsOfSnoc(log: seq<Entry>, e: Entry, j: nat)
    ensures EventsOf(log + [e], j) == if e.job == j then EventsOf(log, j) + [e.event] else EventsOf(log, j)
  {
    assert (log + [e])[..|log|] == log;
  }

  lemma {:induction false} NoEventsYet(log: seq<Entry>, j: nat)
    requires forall p :: 0 <= p < |log| ==> log[p].job < j
    ensures EventsOf(log, j) == []
    decreases |log|
  {
    if log != [] {
      NoEventsYet(log[..|log| - 1], j);
    }
  }

  lemma NewJobOk(s: State, loops: seq<Loop>, job: Job)
    requires JobsOk(s) && LoopsGrow(s.loops, loops)
    requires JudgedAsIssuer(loops, job) && job.verdict.None? && job.todo == [] && job.lost == []
    ensures JobsOk(s.(loops := loops, jobs := s.jobs + [job]))
  {
    var s' := s.(loops := loops, jobs := s.jobs + [job]);
    NoEventsYet(s.log, |s.jobs|);
    forall j | 0 <= j < |s'.jobs| ensures JudgedAsIssuer(s'.loops, s'.jobs[j]) && OnPlan(s'.log, j, s'.jobs[j]) {
      if j < |s.jobs| {
        assert s'.jobs[j] == s.jobs[j];
        assert JudgedAsIssuer(s.loops, s.jobs[j]);
      }
    }
  }

  lemma DecideKeepsJobs(s: State, k: nat, w: World, o: Outcome)
    requires JobsOk(s) && k < |s.jobs| && s.jobs[k].verdict.None?
    ensures JobsOk(s.(jobs := s.jobs[k := Decided(s.jobs[k], w, o)]))
  {
    assert OnPlan(s.log, k, s.jobs[k]);
    var d := Decided(s.jobs[k], w, o);
    assert EventsOf(s.log, k) == [] && s.jobs[k].lost == [];
    assert [] + ([] + d.todo) == d.todo;
    assert JudgedAsIssuer(s.loops, s.jobs[k]);
  }

  lemma EmitKeepsJobs(s: State, k: nat)
    requires JobsOk(s) && k < |s.jobs| && s.jobs[k].todo != []
    ensures var job := s.jobs[k];
            JobsOk(s.(jobs := s.jobs[k := job.(todo := job.todo[1..])], log := s.log + [Entry(k, job.todo[0])]))
  {
    var job := s.jobs[k];
    var e, next := Entry(k, job.todo[0]), job.(todo := job.todo[1..]);
    var jobs := s.jobs[k := next];
    forall j | 0 <= j < |jobs| ensures JudgedAsIssuer(s.loops, jobs[j]) && OnPlan(s.log + [e], j, jobs[j]) {
      assert OnPlan(s.log, j, s.jobs[j]) && JudgedAsIssuer(s.loops, s.jobs[j]);
      if j == k {
        assert job.lost + job.todo == job.todo && job.lost + job.todo[1..] == job.todo[1..];
        EmitFollows(s.log, k, job.todo, PlanOf(job));
        PlanIgnoresTodo(job, job.lost, job.todo[1..]);
      } else {
        EventsOfSnoc(s.log, e, j);
      }
    }
  }

  lemma EmitFollows(log: seq<Entry>, k: nat, todo: seq<Event>, plan: seq<Event>)
    requires Follows(log, k, todo, plan) && todo != []
    ensures Follows(log + [Entry(k, todo[0])], k, todo[1..], plan)
  {
    EventsOfSnoc(log, Entry(k, todo[0]), k);
    assert (EventsOf(log, k) + [todo[0]]) + todo[1..] == EventsOf(log, k) + todo;
  }

  lemma PlanIgnoresTodo(job: Job, lost: seq<Event>, todo: seq<Event>)
    ensures PlanOf(job.(lost := lost, todo := todo)) == PlanOf(job)
  {
  }

  lemma LoseKeepsJobs(s: State, k: nat)
    requires JobsOk(s) && k < |s.jobs| && s.jobs[k].todo != [] && s.jobs[k].todo[0].Audited?
    ensures var job := s.jobs[k];
            JobsOk(s.(jobs := s.jobs[k := job.(todo := job.todo[1..], lost := job.lost + [job.todo[0]])]))
  {
    var job := s.jobs[k];
    var next := job.(todo := job.todo[1..], lost := job.lost + [job.todo[0]]);
    var jobs := s.jobs[k := next];
    forall j | 0 <= j < |jobs| ensures JudgedAsIssuer(s.loops, jobs[j]) && OnPlan(s.log, j, jobs[j]) {
      assert OnPlan(s.log, j, s.jobs[j]) && JudgedAsIssuer(s.loops, s.jobs[j]);
      if j == k {
        PlanIgnoresTodo(job, next.lost, next.todo);
        AuditIsLast(job, EventsOf(s.log, k));
        assert next.lost + next.todo == job.lost + job.todo;
      }
    }
  }

  /** An audit is the last thing a request does. */
  lemma AuditIsLast(job: Job, seen: seq<Event>)
    requires seen + (job.lost + job.todo) == PlanOf(job) && job.todo != [] && job.todo[0].Audited?
    ensures |job.todo| == 1
  {
    PlanShape(job);
    var plan, at := PlanOf(job), |seen| + |job.lost|;
    assert plan[at] == job.todo[0] && |plan| == at + |job.todo|;
  }

  lemma SameJobsOk(s: State, s': State)
    requires JobsOk(s) && s'.jobs == s.jobs && s'.log == s.log && LoopsGrow(s.loops, s'.loops)
    ensures JobsOk(s')
  {
    forall j | 0 <= j < |s'.jobs| ensures JudgedAsIssuer(s'.loops, s'.jobs[j]) {
      assert JudgedAsIssuer(s.loops, s.jobs[j]);
    }
  }

  lemma JobsPreserved(s: State, step: Step)
    requires JobsOk(s) && Enabled(s, step)
    ensures JobsOk(Apply(s, step))
  {
    StepGrowsLoops(s, step);
    match step
    case Dispatch(n) =>
      var l := s.loops[n];
      var raw := l.pc.req.value;
      var loops := SetPc(s, n, Running(|s.jobs|)).loops;
      NewJobOk(s, loops, Job(Reflected(n), raw, AsIssuer(raw, l.issuer), ReflectedMeta(l), None, [], []));
    case LocalRequest(r, m) => NewJobOk(s, s.loops, Job(Local, r, r, m, None, [], []));
    case Decide(j, w, o) => DecideKeepsJobs(s, j, w, o);
    case Emit(j) => EmitKeepsJobs(s, j);
    case LoseAudit(j) => LoseKeepsJobs(s, j);
    case _ => SameJobsOk(s, Apply(s, step));
  }

  lemma {:induction false} RunInvariant(states: seq<State>, steps: seq<Step>, i: nat)
    requires IsRun(states, steps) && i < |states|
    ensures Inv(states[i])
    decreases i
  {
    if i > 0 {
      assert StepAt(states, steps, i - 1);
      RunInvariant(states, steps, i - 1);
      MapPreserved(states[i - 1], steps[i - 1]);
      JobsPreserved(states[i - 1], steps[i - 1]);
    }
  }

  // ---- execution and audit, in every interleaving ----

  /** A decided request runs nothing, or executes once and then audits once. */
  lemma PlanShape(j: Job)
    requires j.verdict.Some?
    ensures var plan := PlanOf(j);
            if MayRun(j.verdict.value.w, j.req, j.meta)
            then |plan| == 2 && plan[0].Executed? && AuditFor(plan[1], plan[0])
            else |plan| <= 1 && forall e :: e in plan ==> !e.Executed?
  {
    var v := j.verdict.value;
    ExecutorReachedExactly(v.w, j.req, j.meta, v.o);
    if MayRun(v.w, j.req, j.meta) {
      assert PlanOf(j)[1] == AuditOf(j.req, j.meta, v.w.defs.value[j.req.app].name, AppDefContext(v.w, j.req), "allow", OutcomeResult(v.o));
    }
  }

  function AppDefContext(w: World, r: Request): map<string, string>
    requires w.defs.Some? && r.app in w.defs.value
  {
    AppDef.DefinitionContext(w.defs.value[r.app], r.action, r.params)
  }

  /** The record of an execution: allowed, for the same agent, app and action. */
  predicate AuditFor(a: Event, e: Event) {
    && a.Audited? && e.Executed? && a.decision == "allow"
    && a.agent == e.principal.agent && a.app == e.app && a.action == e.action
  }

  /** Where the entries of one request stand, when there is one of them. */
  lemma {:induction false} OneEntry(log: seq<Entry>, j: nat, p: nat)
    requires p < |log| && log[p].job == j && |EventsOf(log, j)| == 1
    ensures log[p].event == EventsOf(log, j)[0] && forall q :: 0 <= q < |log| && q != p ==> log[q].job != j
    decreases |log|
  {
    var n := |log| - 1;
    if p < n {
      HasEntry(log[..n], j, p);
      OneEntry(log[..n], j, p);
      assert forall q :: 0 <= q < n ==> log[..n][q] == log[q];
    } else {
      forall q | 0 <= q < n ensures log[q].job != j {
        if log[q].job == j {
          HasEntry(log[..n], j, q);
        }
      }
    }
  }

  lemma {:induction false} HasEntry(log: seq<Entry>, j: nat, p: nat)
    requires p < |log| && log[p].job == j
    ensures EventsOf(log, j) != []
    decreases |log|
  {
    if p < |log| - 1 {
      HasEntry(log[..|log| - 1], j, p);
    }
  }

  /** Two entries of one request stand in the order they were planned, and there are no others. */
  lemma {:induction false} TwoEntries(log: seq<Entry>, j: nat) returns (p: nat, q: nat)
    requires |EventsOf(log, j)| == 2
    ensures p < q < |log| && log[p] == Entry(j, EventsOf(log, j)[0]) && log[q] == Entry(j, EventsOf(log, j)[1])
    ensures forall k :: 0 <= k < |log| && k != p && k != q ==> log[k].job != j
    decreases |log|
  {
    var n := |log| - 1;
    if log[n].job == j {
      q := n;
      p := FindEntry(log[..n], j);
      OneEntry(log[..n], j, p);
      assert forall k :: 0 <= k < n ==> log[..n][k] == log[k];
    } else {
      p, q := TwoEntries(log[..n], j);
      assert forall k :: 0 <= k < n ==> log[..n][k] == log[k];
    }
  }

  lemma {:induction false} FindEntry(log: seq<Entry>, j: nat) returns (p: nat)
    requires EventsOf(log, j) != []
    ensures p < |log| && log[p].job == j
    decreases |log|
  {
    var n := |log| - 1;
    if log[n].job == j {
      p := n;
    } else {
      p := FindEntry(log[..n], j);
    }
  }

  /** The one audit record of the execution at `p`, if it is there already. */
  ghost predicate AuditedOnce(log: seq<Entry>, p: nat, q: nat)
    requires p < |log|
  {
    && p < q < |log| && log[q].job == log[p].job && AuditFor(log[q].event, log[p].event)
    && forall k :: 0 <= k < |log| && k != p && k != q ==> log[k].job != log[p].job
  }

  /** Nothing else of the request that executed at `p` is in the log. */
  ghost predicate AuditPending(log: seq<Entry>, p: nat)
    requires p < |log|
  {
    forall k :: 0 <= k < |log| && k != p ==> log[k].job != log[p].job
  }

  /** How an execution at `p` stands with its audit. */
  ghost predicate AccountedFor(log: seq<Entry>, p: nat, job: Job)
    requires p < |log|
  {
    if !Finished(job) then AuditPending(log, p) && job.lost == [] && |job.todo| == 1 && AuditFor(job.todo[0], log[p].event)
    else if job.lost != [] then AuditPending(log, p) && |job.lost| == 1 && AuditFor(job.lost[0], log[p].event)
    else exists q :: AuditedOnce(log, p, q)
  }

  /**
   In every run, however requests interleave, a request executes at most once, and once it is
   done its execution is followed by exactly one audit record of its own, exactly if appending
   that record worked; until then the audit is the one thing it has still to do.
   */
  lemma EveryExecutionIsAudited(states: seq<State>, steps: seq<Step>, i: nat, p: nat)
    requires IsRun(states, steps) && i < |states| && p < |states[i].log| && states[i].log[p].event.Executed?
    ensures var s := states[i];
            && s.log[p].job < |s.jobs|
            && var job := s.jobs[s.log[p].job];
            && AccountedFor(s.log, p, job)
            && (Finished(job) ==> (job.lost == [] <==> exists q :: AuditedOnce(s.log, p, q)))
  {
    RunInvariant(states, steps, i);
    ExecutionIsAudited(states[i], p);
  }

  lemma ExecutionIsAudited(s: State, p: nat)
    requires JobsOk(s) && p < |s.log| && s.log[p].event.Executed?
    ensures s.log[p].job < |s.jobs| && AccountedFor(s.log, p, s.jobs[s.log[p].job])
  {
    var j := s.log[p].job;
    var job, seen := s.jobs[j], EventsOf(s.log, j);
    HasEntry(s.log, j, p);
    EntryIsSeen(s.log, j, p);
    assert OnPlan(s.log, j, job);
    assert s.log[p].event in seen + (job.lost + job.todo);
    PlanShape(job);
    if |seen| == 2 {
      assert job.lost + job.todo == [] && seen + [] == seen;
      var a, q := TwoEntries(s.log, j);
      assert p == a;
      assert AuditedOnce(s.log, p, q);
    } else {
      OneEntry(s.log, j, p);
      assert (seen + (job.lost + job.todo))[1..] == job.lost + job.todo;
    }
  }

  /**
   An execution without a record: the log can be written when the request is checked, and its
   append fails afterwards.  For every request that may run there is such a run.
   */
  lemma UnrecordedExecution(w: World, r: Request, m: Meta, o: Outcome) returns (states: seq<State>, steps: seq<Step>)
    requires MayRun(w, r, m) && m.transport != "reflector" && m.attenuation.None?
    ensures IsRun(states, steps) && |states| == 5
    ensures var s := states[4]; |s.jobs| == 1 && Finished(s.jobs[0]) && |s.log| == 1 && s.log[0].event.Executed?
  {
    var s0, job := InitState(4), Job(Local, r, r, m, None, [], []);
    var done := Decided(job, w, o);
    PlanShape(done);
    var plan := PlanOf(done);
    assert plan == [plan[0], plan[1]] && plan[1..] == [plan[1]] && plan[1..][1..] == [];
    var s1 := s0.(jobs := [job]);
    var s2 := s0.(jobs := [done]);
    var s3 := s0.(jobs := [done.(todo := plan[1..])], log := [Entry(0, plan[0])]);
    var s4 := s3.(jobs := [done.(todo := [], lost := [plan[1]])]);
    StartsAndDecides(s0, s1, s2, job, w, o);
    EmitsAndLoses(s2, s3, s4, done, plan);
    states, steps := [s0, s1, s2, s3, s4], [LocalRequest(r, m), Decide(0, w, o), Emit(0), LoseAudit(0)];
    forall i | 0 <= i < |steps| ensures StepAt(states, steps, i) {
      assert i == 0 || i == 1 || i == 2 || i == 3;
    }
  }

  lemma StartsAndDecides(s0: State, s1: State, s2: State, job: Job, w: World, o: Outcome)
    requires s0 == InitState(4) && s1 == s0.(jobs := [job]) && s2 == s0.(jobs := [Decided(job, w, o)])
    requires job == Job(Local, job.req, job.req, job.meta, None, [], [])
    requires job.meta.transport != "reflector" && job.meta.attenuation.None?
    ensures Enabled(s0, LocalRequest(job.req, job.meta)) && Apply(s0, LocalRequest(job.req, job.meta)) == s1
    ensures Enabled(s1, Decide(0, w, o)) && Apply(s1, Decide(0, w, o)) == s2
  {
  }

  lemma EmitsAndLoses(s2: State, s3: State, s4: State, job: Job, plan: seq<Event>)
    requires s2 == InitState(4).(jobs := [job]) && job.todo == plan && job.lost == [] && |plan| == 2 && plan[1].Audited?
    requires s3 == s2.(jobs := [job.(todo := plan[1..])], log := [Entry(0, plan[0])])
    requires s4 == s3.(jobs := [job.(todo := [], lost := [plan[1]])])
    ensures Enabled(s2, Emit(0)) && Apply(s2, Emit(0)) == s3
    ensures Enabled(s3, LoseAudit(0)) && Apply(s3, LoseAudit(0)) == s4
  {
    assert plan[1..] == [plan[1]] && plan[1..][1..] == [];
    assert [] + [plan[1]] == [plan[1]];
    assert s3.jobs[0].lost + [s3.jobs[0].todo[0]] == [plan[1]];
  }

  lemma {:induction false} EntryIsSeen(log: seq<Entry>, j: nat, p: nat)
    requires p < |log| && log[p].job == j
    ensures log[p].event in EventsOf(log, j)
    decreases |log|
  {
    if p < |log| - 1 {
      EntryIsSeen(log[..|log| - 1], j, p);
    }
  }

  /** What a reflected request was entitled to do when it executed. */
  predicate WithinAuthority(issuer: Policy.Principal, job: Job, e: Event) {
    && job.verdict.Some? && job.meta.attenuation.Some?
    && var w := job.verdict.value.w;
       && w.defs.Some? && w.rules.Some? && job.raw.app in w.defs.value
       && var def := w.defs.value[job.raw.app];
          && e == Executed(issuer, def.name, job.raw.action, job.raw.params)
          && Passport.InScope(job.meta.attenuation.value, def.name, job.raw.action, AppDefContext(w, job.raw))
          && Policy.Authorized(w.rules.value, def, job.raw.action, issuer, job.raw.params)
  }

  /**
   In every run of open, extend, close, expiry and concurrent requests, a reflected request
   reaches an executor only as the issuer of its session, only inside the scope it read, and
   only when the policy it was decided under authorizes that issuer.
   */
  lemma ReflectedAuthority(states: seq<State>, steps: seq<Step>, i: nat, p: nat)
    requires IsRun(states, steps) && i < |states| && p < |states[i].log| && states[i].log[p].event.Executed?
    ensures var s := states[i];
            && s.log[p].job < |s.jobs|
            && var job := s.jobs[s.log[p].job];
            job.origin.Reflected? ==>
              job.origin.n < |s.loops| && WithinAuthority(s.loops[job.origin.n].issuer, job, s.log[p].event)
  {
    RunInvariant(states, steps, i);
    StateAuthority(states[i], p);
  }

  lemma StateAuthority(s: State, p: nat)
    requires JobsOk(s) && p < |s.log| && s.log[p].event.Executed?
    ensures s.log[p].job < |s.jobs|
    ensures var job := s.jobs[s.log[p].job];
            job.origin.Reflected? ==>
              job.origin.n < |s.loops| && WithinAuthority(s.loops[job.origin.n].issuer, job, s.log[p].event)
  {
    var j := s.log[p].job;
    var job := s.jobs[j];
    EntryIsSeen(s.log, j, p);
    assert OnPlan(s.log, j, job) && JudgedAsIssuer(s.loops, job);
    assert s.log[p].event in EventsOf(s.log, j) + (job.lost + job.todo);
    assert s.log[p].event in PlanOf(job);
    if job.origin.Reflected? {
      ExecutedWithinAuthority(s.loops[job.origin.n].issuer, job, s.log[p].event);
    }
  }

  lemma ExecutedWithinAuthority(issuer: Policy.Principal, job: Job, e: Event)
    requires job.req == AsIssuer(job.raw, issuer) && job.meta.attenuation.Some?
    requires e in PlanOf(job) && e.Executed?
    ensures WithinAuthority(issuer, job, e)
  {
    var v := job.verdict.value;
    ExecutorReachedExactly(v.w, job.req, job.meta, v.o);
    assert PrincipalOf(job.req) == issuer;
    if MayRun(v.w, job.req, job.meta) {
      assert e == PlanOf(job)[0];
    }
  }

  // ---- which scope that is ----

  /** Step `t` dispatched what became request `j`, which took the scope its session held just then. */
  ghost predicate ReadAt(states: seq<State>, steps: seq<Step>, t: nat, j: nat, job: Job)
    requires t < |steps| && |states| == |steps| + 1
  {
    && job.origin.Reflected? && steps[t] == Dispatch(job.origin.n) && |states[t].jobs| == j
    && job.origin.n < |states[t].loops|
    && states[t].loops[job.origin.n].pc == Handling(Some(job.raw))
    && job.meta.attenuation == Some(states[t].loops[job.origin.n].scope)
  }

  /** What a request is never changes; only its verdict and what it has still to do. */
  predicate SameRequest(a: Job, b: Job) {
    a.origin == b.origin && a.raw == b.raw && a.req == b.req && a.meta == b.meta
  }

  lemma JobsKeepRequests(s: State, step: Step)
    requires Enabled(s, step)
    ensures var s' := Apply(s, step);
            && |s.jobs| <= |s'.jobs| && (forall j :: 0 <= j < |s.jobs| ==> SameRequest(s.jobs[j], s'.jobs[j]))
            && (|s'.jobs| > |s.jobs| ==> step.Dispatch? || step.LocalRequest?)
  {
    if !(step.Dispatch? || step.LocalRequest? || step.Decide? || step.Emit? || step.LoseAudit?) {
      JobsUntouched(s, step);
    }
  }

  lemma JobsUntouched(s: State, step: Step)
    requires Enabled(s, step) && !(step.Dispatch? || step.LocalRequest? || step.Decide? || step.Emit? || step.LoseAudit?)
    ensures Apply(s, step).jobs == s.jobs && Apply(s, step).log == s.log
  {
  }

  /**
   In every run, the scope a reflected request is held to is the one its session had at the step
   that dispatched it, whatever extends that session before the request is decided or executed.
   */
  lemma {:induction false} ScopeReadAtDispatch(states: seq<State>, steps: seq<Step>, i: nat, j: nat)
    requires IsRun(states, steps) && i < |states| && j < |states[i].jobs| && states[i].jobs[j].origin.Reflected?
    ensures exists t :: 0 <= t < i && ReadAt(states, steps, t, j, states[i].jobs[j])
    decreases i
  {
    if i > 0 {
      var s, step := states[i - 1], steps[i - 1];
      assert StepAt(states, steps, i - 1);
      JobsKeepRequests(s, step);
      if j < |s.jobs| {
        ScopeReadAtDispatch(states, steps, i - 1, j);
        var t :| 0 <= t < i - 1 && ReadAt(states, steps, t, j, s.jobs[j]);
        assert ReadAt(states, steps, t, j, states[i].jobs[j]);
      } else {
        assert ReadAt(states, steps, i - 1, j, states[i].jobs[j]);
      }
    }
  }

  // ---- who set it ----

  /** The step gives loop `n` its scope. */
  predicate SetsScope(s: State, step: Step, n: nat) {
    match step
    case CommitOpen(_, _, _, _, _) => n == |s.loops|
    case Extend(id, _, _, _) => Known(s, id) && s.sessions[id] == n
    case _ => false
  }

  function Setter(step: Step): string
    requires step.CommitOpen? || step.Extend?
  {
    if step.CommitOpen? then step.issuer.agent else step.agent
  }

  /** Step `t` is the last one that set the scope of loop `n`, and its agent could delegate that scope. */
  ghost predicate LastSetAt(states: seq<State>, steps: seq<Step>, i: nat, t: nat, n: nat, scope: seq<Passport.Capability>)
    requires t < i <= |steps| && |states| == |steps| + 1
  {
    && SetsScope(states[t], steps[t], n) && steps[t].scope == scope
    && MaySet(Setter(steps[t]), steps[t].setting, scope)
    && forall u :: t < u < i ==> !SetsScope(states[u], steps[u], n)
  }

  lemma ScopeKept(s: State, step: Step, n: nat)
    requires Enabled(s, step) && n < |s.loops| && !SetsScope(s, step, n)
    ensures n < |Apply(s, step).loops| && Apply(s, step).loops[n].scope == s.loops[n].scope
  {
    LoopsAfter(s, step);
  }

  lemma ScopeSet(s: State, step: Step, n: nat)
    requires Enabled(s, step) && SetsScope(s, step, n)
    ensures n < |Apply(s, step).loops| && Apply(s, step).loops[n].scope == step.scope
    ensures MaySet(Setter(step), step.setting, step.scope)
  {
  }

  /**
   In every run, the scope in force was set by the last open or extend of its session, and was
   then inside the surface of the agent that asked for it.
   */
  lemma {:induction false} ScopeWasChecked(states: seq<State>, steps: seq<Step>, i: nat, n: nat)
    requires IsRun(states, steps) && i < |states| && n < |states[i].loops|
    ensures exists t :: 0 <= t < i && LastSetAt(states, steps, i, t, n, states[i].loops[n].scope)
    decreases i
  {
    if i > 0 {
      var s, step := states[i - 1], steps[i - 1];
      assert StepAt(states, steps, i - 1);
      if SetsScope(s, step, n) {
        ScopeSet(s, step, n);
        assert LastSetAt(states, steps, i, i - 1, n, states[i].loops[n].scope);
      } else {
        assert n < |s.loops|;
        ScopeKept(s, step, n);
        ScopeWasChecked(states, steps, i - 1, n);
        var t :| 0 <= t < i - 1 && LastSetAt(states, steps, i - 1, t, n, s.loops[n].scope);
        assert LastSetAt(states, steps, i, t, n, states[i].loops[n].scope);
      }
    }
  }

  /** Everything the setter's rules advertise is covered by something the issuer's rules advertise. */
  predicate AdvertisedWithin(setter: string, issuer: string, setting: Setting) {
    forall r | r in setting.rules && r.agent == setter && r.effect != "deny" ::
      Holds(issuer, setting, Capabilities.BuildCapability(r, setting.defs, setting.targets))
  }

  predicate DistinctlyKeyed(setter: string, setting: Setting) {
    forall r | r in setting.rules && r.agent == setter && r.effect != "deny" ::
      Passport.DistinctParams(Capabilities.BuildCapability(r, setting.defs, setting.targets).params)
  }

  lemma HoldsTransitive(setter: string, issuer: string, setting: Setting, c: Passport.Capability)
    requires AdvertisedWithin(setter, issuer, setting) && Holds(setter, setting, c)
    ensures Holds(issuer, setting, c)
  {
    var r :| r in setting.rules && r.agent == setter && r.effect != "deny"
             && Passport.SameVerb(Capabilities.BuildCapability(r, setting.defs, setting.targets), c)
             && Passport.Covers(Capabilities.BuildCapability(r, setting.defs, setting.targets), c);
    var mine := Capabilities.BuildCapability(r, setting.defs, setting.targets);
    assert Holds(issuer, setting, mine);
    var q :| q in setting.rules && q.agent == issuer && q.effect != "deny"
             && Passport.SameVerb(Capabilities.BuildCapability(q, setting.defs, setting.targets), mine)
             && Passport.Covers(Capabilities.BuildCapability(q, setting.defs, setting.targets), mine);
    Passport.CoversTransitive(Capabilities.BuildCapability(q, setting.defs, setting.targets), mine, c);
  }

  /** The agent may set its own advertised capability as a scope. */
  lemma OwnCapabilityIsDelegable(agent: string, setting: Setting, r: Policy.Rule)
    requires r in setting.rules && r.agent == agent && r.effect != "deny" && DistinctlyKeyed(agent, setting)
    ensures Delegable(agent, setting, [Capabilities.BuildCapability(r, setting.defs, setting.targets)])
  {
    var c := Capabilities.BuildCapability(r, setting.defs, setting.targets);
    Passport.CoversItself(c);
    assert Holds(agent, setting, c);
  }

  /**
   Under one configuration, every scope a registered agent may set is inside the issuer's surface
   exactly when each capability the agent's rules advertise is covered by one the issuer's do.
   */
  lemma SetterStaysInsideExactly(setter: string, issuer: string, setting: Setting)
    requires setter in setting.agents && DistinctlyKeyed(setter, setting)
    ensures (forall scope :: MaySet(setter, setting, scope) ==> Delegable(issuer, setting, scope))
            <==> AdvertisedWithin(setter, issuer, setting)
  {
    if AdvertisedWithin(setter, issuer, setting) {
      forall scope | MaySet(setter, setting, scope) ensures Delegable(issuer, setting, scope) {
        forall i | 0 <= i < |scope| ensures Holds(issuer, setting, scope[i]) {
          HoldsTransitive(setter, issuer, setting, scope[i]);
        }
      }
    } else {
      var r :| r in setting.rules && r.agent == setter && r.effect != "deny"
               && !Holds(issuer, setting, Capabilities.BuildCapability(r, setting.defs, setting.targets));
      var scope := [Capabilities.BuildCapability(r, setting.defs, setting.targets)];
      OwnCapabilityIsDelegable(setter, setting, r);
      assert MaySet(setter, setting, scope) && !Holds(issuer, setting, scope[0]) && !Delegable(issuer, setting, scope);
    }
  }

  /** Whatever the configuration, only the issuer itself is sure to set a scope inside its own surface. */
  lemma OnlyTheIssuerStaysInside(setter: string, issuer: string)
    ensures (forall setting, scope :: MaySet(setter, setting, scope) ==> Delegable(issuer, setting, scope)) <==> setter == issuer
  {
    if setter != issuer {
      var setting := Setting([setter], map[], [PlainRule(setter, "x")], []);
      PlainHolds(setter, setting, "x");
      PlainHolds(issuer, setting, "x");
      assert MaySet(setter, setting, PlainScope("x")) && !Delegable(issuer, setting, PlainScope("x"));
    }
  }

  /**
   In every run, the scope in force is inside the issuer's surface when the agent that set it last
   is the issuer, or advertises nothing the issuer does not cover.
   */
  lemma ScopeInsideIssuers(states: seq<State>, steps: seq<Step>, i: nat, n: nat, t: nat)
    requires IsRun(states, steps) && i < |states| && n < |states[i].loops|
    requires t < i && SetsScope(states[t], steps[t], n) && forall u :: t < u < i ==> !SetsScope(states[u], steps[u], n)
    requires var issuer := states[i].loops[n].issuer.agent;
             Setter(steps[t]) == issuer || AdvertisedWithin(Setter(steps[t]), issuer, steps[t].setting)
    ensures Delegable(states[i].loops[n].issuer.agent, steps[t].setting, states[i].loops[n].scope)
  {
    ScopeWasChecked(states, steps, i, n);
    var last :| 0 <= last < i && LastSetAt(states, steps, i, last, n, states[i].loops[n].scope);
    assert last == t;
    var issuer, scope := states[i].loops[n].issuer.agent, states[i].loops[n].scope;
    if Setter(steps[t]) != issuer {
      forall k | 0 <= k < |scope| ensures Holds(issuer, steps[t].setting, scope[k]) {
        HoldsTransitive(Setter(steps[t]), issuer, steps[t].setting, scope[k]);
      }
    }
  }

  /** An allow rule without constraints, and the capability it advertises for a verb nobody defined. */
  function PlainRule(agent: string, app: string): Policy.Rule {
    Policy.Rule("allow", agent, "", [], app, "run", map[])
  }

  function PlainScope(app: string): seq<Passport.Capability> {
    [Passport.Capability(app, "run", [])]
  }

  lemma PlainHolds(agent: string, setting: Setting, app: string)
    requires setting.defs == map[] && setting.targets == []
    ensures PlainRule(agent, app) in setting.rules ==> Delegable(agent, setting, PlainScope(app))
    ensures (forall r :: r in setting.rules && r.agent == agent ==> r.app != app) ==> !Delegable(agent, setting, PlainScope(app))
  {
    var c := PlainScope(app)[0];
    if PlainRule(agent, app) in setting.rules {
      var r := PlainRule(agent, app);
      assert Capabilities.BuildCapability(r, setting.defs, setting.targets) == c;
      assert Passport.Covers(c, c) && Passport.SameVerb(c, c);
      assert Holds(agent, setting, c);
    }
    if forall r :: r in setting.rules && r.agent == agent ==> r.app != app {
      assert !Holds(agent, setting, c);
    }
  }

  /**
   Wherever an agent advertises something the issuer does not cover, its extend can take the
   issuer's session outside what the issuer may do.
   */
  lemma StrangerWidensScope(issuer: string, stranger: string, setting: Setting, first: seq<Passport.Capability>)
    returns (states: seq<State>, steps: seq<Step>)
    requires MaySet(issuer, setting, first) && stranger in setting.agents
    requires DistinctlyKeyed(stranger, setting) && !AdvertisedWithin(stranger, issuer, setting)
    ensures IsRun(states, steps) && |steps| == 3 && |states[3].loops| == 1 && states[3].loops[0].issuer.agent == issuer
    ensures steps[2].Extend? && steps[2].agent == stranger && steps[2].setting == setting
    ensures Delegable(stranger, setting, states[3].loops[0].scope) && !Delegable(issuer, setting, states[3].loops[0].scope)
  {
    SetterStaysInsideExactly(stranger, issuer, setting);
    var wider :| MaySet(stranger, setting, wider) && !Delegable(issuer, setting, wider);
    var open := CommitOpen("s", Policy.Principal(issuer, "", []), "e", first, setting);
    var extend := Extend("s", stranger, wider, setting);
    BeginsFirst();
    OpensFirst(open);
    ExtendsOnly(extend, issuer, first);
    var s1, s2, s3 := InitState(1).(opening := 1), OneSession(issuer, first), OneSession(issuer, wider);
    ThreeSteps(InitState(1), BeginOpen, s1, open, s2, extend, s3);
    states, steps := [InitState(1), s1, s2, s3], [BeginOpen, open, extend];
  }

  lemma ThreeSteps(s0: State, a: Step, s1: State, b: Step, s2: State, c: Step, s3: State)
    requires s0 == InitState(s0.maxSessions)
    requires Enabled(s0, a) && s1 == Apply(s0, a) && Enabled(s1, b) && s2 == Apply(s1, b) && Enabled(s2, c) && s3 == Apply(s2, c)
    ensures IsRun([s0, s1, s2, s3], [a, b, c])
  {
    var states, steps := [s0, s1, s2, s3], [a, b, c];
    forall i | 0 <= i < |steps| ensures StepAt(states, steps, i) {
      assert i == 0 || i == 1 || i == 2;
    }
  }

  lemma BeginsFirst()
    ensures Enabled(InitState(1), BeginOpen) && Apply(InitState(1), BeginOpen) == InitState(1).(opening := 1)
  {
  }

  /** One session of an agent, just opened, with this scope. */
  function OneSession(issuer: string, scope: seq<Passport.Capability>): State {
    State(1, 0, map["s" := 0], [Loop("s", Policy.Principal(issuer, "", []), "e", scope, false, Top)], [], [])
  }

  lemma OpensFirst(open: Step)
    requires open.CommitOpen? && open.id == "s" && open.external == "e"
    requires open.issuer == Policy.Principal(open.issuer.agent, "", []) && MaySet(open.issuer.agent, open.setting, open.scope)
    ensures var s := InitState(1).(opening := 1);
            Enabled(s, open) && Apply(s, open) == OneSession(open.issuer.agent, open.scope)
  {
    assert FreshId(InitState(1).(opening := 1), "s");
  }

  lemma ExtendsOnly(extend: Step, issuer: string, scope: seq<Passport.Capability>)
    requires extend.Extend? && extend.id == "s" && MaySet(extend.agent, extend.setting, extend.scope)
    ensures Enabled(OneSession(issuer, scope), extend) && Apply(OneSession(issuer, scope), extend) == OneSession(issuer, extend.scope)
  {
  }

  // ---- cancellation ----

  /** How many requests were dispatched on loop `n`, in the first `i` steps, after it was cancelled. */
  ghost function LateDispatches(states: seq<State>, steps: seq<Step>, i: nat, n: nat): nat
    requires i <= |steps| && |states| == |steps| + 1
  {
    if i == 0 then 0
    else LateDispatches(states, steps, i - 1, n) + LateOne(states[i - 1], steps[i - 1], n)
  }

  function LateOne(s: State, step: Step, n: nat): nat {
    if step == Dispatch(n) && n < |s.loops| && s.loops[n].cancelled then 1 else 0
  }

  /** A cancelled loop that is past its late dispatch goes nowhere but out. */
  predicate LateOk(loops: seq<Loop>, n: nat, late: nat) {
    if n >= |loops| then late == 0
    else
      && (!loops[n].cancelled ==> late == 0)
      && late <= if loops[n].pc.Top? || loops[n].pc.Running? || loops[n].pc.Done? then 1 else 0
  }

  /** How one step moves a serve loop. */
  predicate Moves(a: Loop, b: Loop, dispatched: bool) {
    && (a.cancelled ==> b.cancelled)
    && if dispatched then a.pc.Handling? && b.pc.Running? && b.cancelled == a.cancelled
       else
         || b.pc == a.pc
         || (a.pc.Top? && b.pc.Fetching? && !a.cancelled && !b.cancelled)
         || (a.pc.Fetching? && b.pc.Handling?)
         || (b.pc.Top? && (a.pc.Handling? || a.pc.Running?))
         || b.pc.Done?
  }

  lemma LoopMoves(s: State, step: Step, n: nat)
    requires Enabled(s, step) && n < |s.loops|
    ensures n < |Apply(s, step).loops| && Moves(s.loops[n], Apply(s, step).loops[n], step == Dispatch(n))
  {
    LoopsAfter(s, step);
  }

  lemma LateStep(s: State, step: Step, s': State, n: nat, late: nat)
    requires Enabled(s, step) && s' == Apply(s, step) && LateOk(s.loops, n, late)
    ensures LateOk(s'.loops, n, late + LateOne(s, step, n))
  {
    if n < |s.loops| {
      LoopMoves(s, step, n);
    }
  }

  lemma LateStepAt(states: seq<State>, steps: seq<Step>, i: nat, n: nat, late: nat)
    requires IsRun(states, steps) && i < |steps| && LateOk(states[i].loops, n, late)
    ensures LateOk(states[i + 1].loops, n, late + LateOne(states[i], steps[i], n))
  {
    assert StepAt(states, steps, i);
    LateStep(states[i], steps[i], states[i + 1], n, late);
  }

  lemma {:induction false} LateInvariant(states: seq<State>, steps: seq<Step>, i: nat, n: nat)
    requires IsRun(states, steps) && i < |states|
    ensures LateOk(states[i].loops, n, LateDispatches(states, steps, i, n))
    decreases i
  {
    if i > 0 {
      LateInvariant(states, steps, i - 1, n);
      LateStepAt(states, steps, i - 1, n, LateDispatches(states, steps, i - 1, n));
    }
  }

  /**
   In every run, after a session is cancelled at most one more request is dispatched on it, and
   a serve loop that ended has left the map.
   */
  lemma AtMostOneLateDispatch(states: seq<State>, steps: seq<Step>, i: nat, n: nat)
    requires IsRun(states, steps) && i < |states| && n < |states[i].loops|
    ensures LateDispatches(states, steps, i, n) <= 1
    ensures states[i].loops[n].pc == Done ==>
              states[i].loops[n].cancelled && forall id :: id in states[i].sessions ==> states[i].sessions[id] != n
  {
    RunInvariant(states, steps, i);
    LateInvariant(states, steps, i, n);
  }

  // ---- how many sessions run ----

  /** The serve loops that have not ended. */
  function RunningLoops(s: State): set<int> {
    set n | 0 <= n < |s.loops| && s.loops[n].pc != Done
  }

  /** As many ids in the map as loops running. */
  lemma CountPreserved(s: State, step: Step)
    requires MapOk(s) && Enabled(s, step) && |RunningLoops(s)| == |s.sessions|
    ensures |RunningLoops(Apply(s, step))| == |Apply(s, step).sessions|
    ensures |Apply(s, step).sessions| == |s.sessions| + (if step.CommitOpen? then 1 else 0) - (if Ends(s, step) then 1 else 0)
  {
    if step.CommitOpen? {
      InsertCounts(s, step.id, step.issuer, step.external, step.scope);
    } else if Ends(s, step) {
      TeardownCounts(s, step.n);
    } else {
      OrdinaryStep(s, step);
      SameRunning(s, Apply(s, step));
    }
  }

  lemma SameRunning(s: State, s': State)
    requires LoopsKept(s.loops, s'.loops)
    ensures RunningLoops(s') == RunningLoops(s)
  {
  }

  lemma InsertCounts(s: State, id: string, issuer: Policy.Principal, external: string, scope: seq<Passport.Capability>)
    requires MapOk(s) && s.opening > 0 && FreshId(s, id)
    ensures var s' := InsertSession(s, id, issuer, external, scope);
            |RunningLoops(s')| == |RunningLoops(s)| + 1 && |s'.sessions| == |s.sessions| + 1
  {
    assert id !in s.sessions;
    AddedKeyCounts(s.sessions, id, |s.loops|);
    InsertedLoopRuns(s, Loop(id, issuer, external, scope, false, Top), InsertSession(s, id, issuer, external, scope));
  }

  lemma AddedKeyCounts(m: map<string, nat>, id: string, n: nat)
    requires id !in m
    ensures |m[id := n]| == |m| + 1
  {
    assert m[id := n].Keys == m.Keys + {id};
    assert |m[id := n]| == |m[id := n].Keys| && |m| == |m.Keys|;
  }

  lemma InsertedLoopRuns(s: State, l: Loop, s': State)
    requires s'.loops == s.loops + [l] && l.pc != Done
    ensures |RunningLoops(s')| == |RunningLoops(s)| + 1
  {
    assert RunningLoops(s') == RunningLoops(s) + {|s.loops|};
  }

  lemma TeardownCounts(s: State, n: nat)
    requires MapOk(s) && n < |s.loops| && s.loops[n].pc != Done
    ensures var s' := Teardown(s, n);
            |RunningLoops(s')| == |RunningLoops(s)| - 1 && |s'.sessions| == |s.sessions| - 1
  {
    var s', id := Teardown(s, n), s.loops[n].id;
    assert n in RunningLoops(s) && RunningLoops(s') == RunningLoops(s) - {n};
    assert id in s.sessions && s'.sessions.Keys == s.sessions.Keys - {id};
    assert |s'.sessions| == |s'.sessions.Keys| && |s.sessions| == |s.sessions.Keys|;
  }

  /**
   With at most k opens in flight at any time, the running serve loops, and with them the live
   sessions, never exceed MaxSessions + k - 1; serialised opens keep the configured maximum.
   */
  lemma {:induction false} SessionBound(states: seq<State>, steps: seq<Step>, i: nat, k: nat)
    requires IsRun(states, steps) && i < |states| && k > 0 && states[0].maxSessions > 0
    requires forall j :: 0 <= j <= i ==> states[j].opening <= k
    ensures states[i].maxSessions == states[0].maxSessions
    ensures |RunningLoops(states[i])| == |states[i].sessions|
    ensures |RunningLoops(states[i])| + states[i].opening <= states[0].maxSessions + k - 1
    decreases i
  {
    if i == 0 {
      assert RunningLoops(states[0]) == {};
    } else {
      assert StepAt(states, steps, i - 1);
      SessionBound(states, steps, i - 1, k);
      RunInvariant(states, steps, i - 1);
      CountPreserved(states[i - 1], steps[i - 1]);
      OpeningStep(states[i - 1], steps[i - 1]);
      assert states[i].opening <= k;
    }
  }

  lemma OpeningStep(s: State, step: Step)
    requires Enabled(s, step)
    ensures var s' := Apply(s, step);
            && s'.maxSessions == s.maxSessions
            && s'.opening == s.opening + (if step.BeginOpen? then 1 else 0) - (if step.FailOpen? || step.CommitOpen? then 1 else 0)
            && (step.BeginOpen? ==> |s.sessions| < s.maxSessions)
  {
  }

  // ---- the bound is reached ----

  /** `steps` lead from `s` to `t`. */
  ghost predicate Leads(s: State, steps: seq<Step>, t: State)
    decreases |steps|
  {
    if steps == [] then s == t else Enabled(s, steps[0]) && Leads(Apply(s, steps[0]), steps[1..], t)
  }

  lemma {:induction false} LeadsConcat(s: State, a: seq<Step>, t: State, b: seq<Step>, u: State)
    requires Leads(s, a, t) && Leads(t, b, u)
    ensures Leads(s, a + b, u)
    decreases |a|
  {
    if a == [] {
      assert a + b == b;
    } else {
      var s1 := LeadsFirst(s, a, t);
      LeadsConcat(s1, a[1..], t, b, u);
      LeadsThen(s, a, s1, b, u);
    }
  }

  lemma LeadsFirst(s: State, steps: seq<Step>, t: State) returns (s1: State)
    requires steps != [] && Leads(s, steps, t)
    ensures Enabled(s, steps[0]) && s1 == Apply(s, steps[0]) && Leads(s1, steps[1..], t)
  {
    s1 := Apply(s, steps[0]);
  }

  lemma LeadsThen(s: State, a: seq<Step>, s1: State, b: seq<Step>, u: State)
    requires a != [] && Enabled(s, a[0]) && s1 == Apply(s, a[0]) && Leads(s1, a[1..] + b, u)
    ensures Leads(s, a + b, u)
  {
    assert (a + b)[0] == a[0] && (a + b)[1..] == a[1..] + b;
  }

  lemma {:induction false} BeginMany(s: State, k: nat) returns (steps: seq<Step>)
    requires |s.sessions| < s.maxSessions
    ensures Leads(s, steps, s.(opening := s.opening + k))
    decreases k
  {
    if k == 0 {
      steps := [];
    } else {
      var rest := BeginMany(Apply(s, BeginOpen), k - 1);
      steps := [BeginOpen] + rest;
      assert steps[1..] == rest;
    }
  }

  /** Every loop runs, under an id shorter than the number of loops. */
  predicate AllRunning(s: State) {
    && MapOk(s) && |RunningLoops(s)| == |s.sessions|
    && forall n :: 0 <= n < |s.loops| ==> |s.loops[n].id| < |s.loops|
  }

  function LongId(n: nat): (id: string)
    ensures |id| == n
  {
    seq(n, i => 'x')
  }

  const OpenAll: Setting := Setting(["a"], map[], [PlainRule("a", "x")], [])

  lemma CommitOne(s: State) returns (step: Step)
    requires s.opening > 0 && AllRunning(s)
    ensures step.CommitOpen? && Enabled(s, step) && AllRunning(Apply(s, step))
    ensures |Apply(s, step).sessions| == |s.sessions| + 1 && Apply(s, step).opening == s.opening - 1
    ensures Apply(s, step).maxSessions == s.maxSessions
  {
    var id := LongId(|s.loops|);
    var issuer := Policy.Principal("a", "", []);
    PlainHolds("a", OpenAll, "x");
    assert PlainRule("a", "x") in OpenAll.rules;
    step := CommitOpen(id, issuer, "e", PlainScope("x"), OpenAll);
    assert FreshId(s, id);
    InsertCounts(s, id, issuer, "e", PlainScope("x"));
    InsertKeepsMap(s, id, issuer, "e", PlainScope("x"));
  }

  lemma {:induction false} CommitMany(s: State, k: nat) returns (steps: seq<Step>, t: State)
    requires s.opening >= k && AllRunning(s)
    ensures Leads(s, steps, t) && AllRunning(t) && t.maxSessions == s.maxSessions
    ensures |t.sessions| == |s.sessions| + k && t.opening == s.opening - k
    decreases k
  {
    if k == 0 {
      steps, t := [], s;
    } else {
      var step := CommitOne(s);
      var rest;
      rest, t := CommitMany(Apply(s, step), k - 1);
      steps := [step] + rest;
      assert steps[1..] == rest;
    }
  }

  /** The check and the insertion are separate, so k concurrent opens really reach the bound. */
  lemma RacingOpensReachBound(maxSessions: nat, k: nat) returns (steps: seq<Step>, t: State)
    requires maxSessions > 0 && k > 0
    ensures Leads(InitState(maxSessions), steps, t)
    ensures |RunningLoops(t)| == maxSessions + k - 1
  {
    var s := InitState(maxSessions);
    var m := maxSessions - 1;
    var begin := BeginMany(s, m);
    var s0 := s.(opening := m);
    assert RunningLoops(s0) == {} && AllRunning(s0);
    var commit, s1 := CommitMany(s0, m);
    LeadsConcat(s, begin, s0, commit, s1);
    var begin2 := BeginMany(s1, k);
    var s2 := s1.(opening := s1.opening + k);
    assert RunningLoops(s2) == RunningLoops(s1);
    LeadsConcat(s, begin + commit, s1, begin2, s2);
    var commit2: seq<Step>;
    commit2, t := CommitMany(s2, k);
    LeadsConcat(s, begin + commit + begin2, s2, commit2, t);
    steps := begin + commit + begin2 + commit2;
  }

  // ---- the manager ----

  /** The live-session table and its serve loops; the scopes it is given were checked by its callers. */
  class Manager {
    const maxSessions: nat
    var opening: nat
    var sessions: map<string, nat>
    var loops: seq<Loop>
    var jobs: seq<Job>
    var log: seq<Entry>

    constructor (maxSessions: nat)
      ensures Value() == InitState(if maxSessions == 0 then 4 else maxSessions)
    {
      this.maxSessions := if maxSessions == 0 then 4 else maxSessions;
      opening, sessions, loops, jobs, log := 0, map[], [], [], [];
    }

    function Value(): State
      reads this
    {
      State(maxSessions, opening, sessions, loops, jobs, log)
    }

    /** First half of `Open`: refused when the table is full. */
    method CheckRoom() returns (ok: bool)
      modifies this
      ensures ok <==> Enabled(old(Value()), BeginOpen)
      ensures Value() == if ok then Apply(old(Value()), BeginOpen) else old(Value())
    {
      if |sessions| >= maxSessions {
        return false;
      }
      opening := opening + 1;
      ok := true;
    }

    /** Second half of `Open`: the session enters the table and its loop starts. */
    method Insert(id: string, issuer: Policy.Principal, external: string, scope: seq<Passport.Capability>)
      requires opening > 0
      modifies this
      ensures Value() == InsertSession(old(Value()), id, issuer, external, scope)
      ensures old(MapOk(Value()) && FreshId(Value(), id)) ==> MapOk(Value()) && id in sessions && loops[sessions[id]].scope == scope
    {
      ghost var before := Value();
      opening := opening - 1;
      sessions := sessions[id := |loops|];
      loops := loops + [Loop(id, issuer, external, scope, false, Top)];
      if MapOk(before) && FreshId(before, id) {
        InsertKeepsMap(before, id, issuer, external, scope);
      }
    }

    method CloseSession(id: string) returns (ok: bool)
      requires MapOk(Value())
      modifies this
      ensures ok <==> id in old(sessions)
      ensures Value() == Apply(old(Value()), Close(id))
      ensures ok ==> sessions == old(sessions) && loops[sessions[id]].cancelled
    {
      if id !in sessions {
        return false;
      }
      var n := sessions[id];
      loops := loops[n := loops[n].(cancelled := true)];
      ok := true;
    }

    method ExtendSession(id: string, scope: seq<Passport.Capability>) returns (ok: bool)
      requires MapOk(Value())
      modifies this
      ensures ok <==> id in old(sessions)
      ensures Value() == SetScope(old(Value()), id, scope)
      ensures ok ==> sessions == old(sessions) && loops[sessions[id]].scope == scope
    {
      if id !in sessions {
        return false;
      }
      var n := sessions[id];
      loops := loops[n := loops[n].(scope := scope)];
      ok := true;
    }

    method TearDown(n: nat)
      requires n < |loops|
      modifies this
      ensures Value() == Teardown(old(Value()), n)
      ensures loops[n].id !in sessions
    {
      sessions := sessions - {loops[n].id};
      loops := loops[n := loops[n].(pc := Done, cancelled := true)];
    }
  }
}
