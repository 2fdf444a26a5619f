/**
 The channel and the daemon behind it as one machine: the serve loop of session `n` fetches the
 frames the relay delivers to protocol session `n`, runs what its channel opens to a request, and
 seals the answer only when that run is done.  Together they tie every execution to the client
 that sealed the request, and every response a client gets to the run that computed it.
 */
module EndToEnd {
  import opened Wrappers
  import RecordLayer
  import SymbolicCrypto
  import P = Protocol
  import PS = ProtocolSafety
  import B = Broker
  import Service

  type Record = RecordLayer.Record<P.Message>

  /** How the daemon reads the text of a request, and how it writes the answer of a finished run. */
  datatype Codec = Codec(parse: P.Request -> Service.Request, answer: B.Job -> P.Response)

  /** `held` keeps, for each session, the record whose request its loop is working on. */
  datatype State = State(p: P.State, b: B.State, held: seq<Option<Record>>)

  datatype Step =
    | Channel(relay: P.Step)
    | Daemon(own: B.Step)
    | Open(rendezvous: string, open: B.Step)
    | Hs1Frame(n: nat, ran: P.Ran, sendOk: bool)
    | DataFrame(n: nat, rec: Record)
    | OtherFrame(n: nat)
    | Answer(n: nat)

  /** The request a data frame carries, if the channel opens it to one. */
  function Given(c: Codec, t: P.Session, rec: Record): Option<Service.Request> {
    if t.channel.None? then None
    else
      var pt := RecordLayer.Open(t.channel.value.ch, rec).1;
      if pt.Some? && pt.value.Req? then Some(c.parse(pt.value.req)) else None
  }

  predicate Enabled(c: Codec, s: State, step: Step) {
    match step
    case Channel(relay) =>
      P.Enabled(s.p, relay) && !relay.OpenSession? && !relay.ReceiveHs1? && !relay.ReceiveData?
    case Daemon(own) => B.Enabled(s.b, own) && !own.CommitOpen? && !own.FetchGives? && !own.Reply?
    case Open(_, open) => open.CommitOpen? && B.Enabled(s.b, open)
    case Hs1Frame(n, ran, sendOk) => P.Enabled(s.p, P.ReceiveHs1(n, ran, sendOk)) && B.Enabled(s.b, B.FetchGives(n, None))
    case DataFrame(n, rec) => P.Enabled(s.p, P.ReceiveData(n, rec, "")) && B.Enabled(s.b, B.FetchGives(n, None)) && n < |s.held|
    case OtherFrame(n) => B.Enabled(s.b, B.FetchGives(n, None))
    case Answer(n) =>
      && B.Enabled(s.b, B.Reply(n)) && n < |s.held| && s.held[n].Some?
      && P.Enabled(s.p, P.ReceiveData(n, s.held[n].value, Written(c, s.b, n)))
  }

  /** The answer of the run that loop `n` waits for. */
  function Written(c: Codec, b: B.State, n: nat): P.Response
    requires B.Enabled(b, B.Reply(n))
  {
    c.answer(b.jobs[b.loops[n].pc.job])
  }

  /** A frame that carries no request is dealt with at once; a request is held until it is answered. */
  function Apply(c: Codec, s: State, step: Step): State
    requires Enabled(c, s, step)
  {
    match step
    case Channel(relay) => s.(p := P.Apply(s.p, relay))
    case Daemon(own) => s.(b := B.Apply(s.b, own))
    case Open(rendezvous, open) =>
      State(P.Apply(s.p, P.OpenSession(rendezvous)), B.Apply(s.b, open), s.held + [None])
    case Hs1Frame(n, ran, sendOk) =>
      s.(p := P.Apply(s.p, P.ReceiveHs1(n, ran, sendOk)), b := B.Apply(s.b, B.FetchGives(n, None)))
    case DataFrame(n, rec) =>
      var given := Given(c, s.p.sessions[n], rec);
      if given.Some? then s.(b := B.Apply(s.b, B.FetchGives(n, given)), held := s.held[n := Some(rec)])
      else s.(p := P.Apply(s.p, P.ReceiveData(n, rec, "")), b := B.Apply(s.b, B.FetchGives(n, None)))
    case OtherFrame(n) => s.(b := B.Apply(s.b, B.FetchGives(n, None)))
    case Answer(n) =>
      s.(p := P.Apply(s.p, P.ReceiveData(n, s.held[n].value, Written(c, s.b, n))), b := B.Apply(s.b, B.Reply(n)))
  }

  ghost predicate StepAt(c: Codec, states: seq<State>, steps: seq<Step>, i: nat)
    requires i < |steps| && |states| == |steps| + 1
  {
    Enabled(c, states[i], steps[i]) && states[i + 1] == Apply(c, states[i], steps[i])
  }

  ghost predicate IsRun(c: Codec, states: seq<State>, steps: seq<Step>) {
    && |states| == |steps| + 1
    && states[0] == State(P.Init, B.InitState(states[0].b.maxSessions), [])
    && forall i :: 0 <= i < |steps| ==> StepAt(c, states, steps, i)
  }

  // ---- what the two halves share ----

  /** The requests of session `n`, by their number, in the order the daemon took them up. */
  function RunsOf(jobs: seq<B.Job>, n: nat): (r: seq<nat>)
    ensures forall i :: 0 <= i < |r| ==> r[i] < |jobs| && jobs[r[i]].origin == B.Reflected(n)
    decreases |jobs|
  {
    if jobs == [] then []
    else
      var front := RunsOf(jobs[..|jobs| - 1], n);
      if jobs[|jobs| - 1].origin == B.Reflected(n) then front + [|jobs| - 1] else front
  }

  /** The run did what the dispatch says: it is done, was of that request, and gave that answer. */
  predicate Answered(c: Codec, job: B.Job, d: P.Dispatch) {
    B.Finished(job) && job.raw == c.parse(d.req) && c.answer(job) == d.resp
  }

  /** The runs are the dispatches of the channel, one by one. */
  predicate AnswersFrom(c: Codec, jobs: seq<B.Job>, runs: seq<nat>, ds: seq<P.Dispatch>) {
    |runs| == |ds| && forall i :: 0 <= i < |runs| ==> runs[i] < |jobs| && Answered(c, jobs[runs[i]], ds[i])
  }

  /** The held record can still be opened, and gives this request. */
  ghost predicate HeldGives(c: Codec, p: P.State, t: P.Session, held: Option<Record>, raw: Service.Request) {
    held.Some? && P.CanInject(p, held.value) && Given(c, t, held.value) == Some(raw)
  }

  /** Every run of session `n` is one answered dispatch of its channel, but for the one in progress. */
  ghost predicate LinkedAt(c: Codec, p: P.State, t: P.Session, jobs: seq<B.Job>, n: nat, pc: B.Pc, held: Option<Record>) {
    var runs := RunsOf(jobs, n);
    if pc.Running? then
      && |runs| > 0 && runs[|runs| - 1] == pc.job
      && AnswersFrom(c, jobs, runs[..|runs| - 1], t.dispatched) && HeldGives(c, p, t, held, jobs[pc.job].raw)
    else
      && AnswersFrom(c, jobs, runs, t.dispatched)
      && (pc.Handling? && pc.req.Some? ==> HeldGives(c, p, t, held, pc.req.value))
  }

  ghost predicate Linked(c: Codec, s: State) {
    && |s.p.sessions| == |s.b.loops| == |s.held|
    && forall n :: 0 <= n < |s.b.loops| ==>
         LinkedAt(c, s.p, s.p.sessions[n], s.b.jobs, n, s.b.loops[n].pc, s.held[n])
  }

  // ---- the runs of a session ----

  lemma RunsSnoc(jobs: seq<B.Job>, job: B.Job, n: nat)
    ensures RunsOf(jobs + [job], n) == if job.origin == B.Reflected(n) then RunsOf(jobs, n) + [|jobs|] else RunsOf(jobs, n)
  {
    assert (jobs + [job])[..|jobs|] == jobs;
  }

  lemma {:induction false} RunsKept(a: seq<B.Job>, b: seq<B.Job>, n: nat)
    requires |a| == |b| && forall j :: 0 <= j < |a| ==> B.SameRequest(a[j], b[j])
    ensures RunsOf(a, n) == RunsOf(b, n)
    decreases |a|
  {
    if a != [] {
      RunsKept(a[..|a| - 1], b[..|b| - 1], n);
    }
  }

  lemma {:induction false} NoRunsYet(jobs: seq<B.Job>, loops: seq<B.Loop>, n: nat)
    requires |loops| <= n && forall j :: 0 <= j < |jobs| ==> B.JudgedAsIssuer(loops, jobs[j])
    ensures RunsOf(jobs, n) == []
    decreases |jobs|
  {
    if jobs != [] {
      NoRunsYet(jobs[..|jobs| - 1], loops, n);
    }
  }

  lemma {:induction false} RunIsThere(jobs: seq<B.Job>, j: nat, n: nat)
    requires j < |jobs| && jobs[j].origin == B.Reflected(n)
    ensures j in RunsOf(jobs, n)
    decreases |jobs|
  {
    if j < |jobs| - 1 {
      RunIsThere(jobs[..|jobs| - 1], j, n);
    }
  }

  // ---- the relay keeps what it can present ----

  lemma CanStillInject(p: P.State, p': P.State, rec: Record)
    requires P.CanInject(p, rec) && p.bodies <= p'.bodies && p.leaked <= p'.leaked
    ensures P.CanInject(p', rec)
  {
  }

  lemma KnowledgeGrows(p: P.State, step: P.Step)
    requires P.Enabled(p, step)
    ensures p.bodies <= P.Apply(p, step).bodies && p.leaked <= P.Apply(p, step).leaked
  {
  }

  /** A step of the protocol that leaves a session alone leaves its link alone. */
  lemma OtherSessionKept(c: Codec, p: P.State, p': P.State, t: P.Session, jobs: seq<B.Job>, n: nat, pc: B.Pc,
                         held: Option<Record>)
    requires LinkedAt(c, p, t, jobs, n, pc, held) && p.bodies <= p'.bodies && p.leaked <= p'.leaked
    ensures LinkedAt(c, p', t, jobs, n, pc, held)
  {
    if held.Some? && P.CanInject(p, held.value) {
      CanStillInject(p, p', held.value);
    }
  }

  lemma RelayKeepsSessions(p: P.State, relay: P.Step)
    requires P.Enabled(p, relay) && !relay.OpenSession? && !relay.ReceiveHs1? && !relay.ReceiveData?
    ensures P.Apply(p, relay).sessions == p.sessions
  {
  }

  lemma FrameTouchesOne(p: P.State, step: P.Step, n: nat)
    requires P.Enabled(p, step) && ((step.ReceiveHs1? && step.j == n) || (step.ReceiveData? && step.j == n))
    ensures |P.Apply(p, step).sessions| == |p.sessions|
    ensures forall m :: 0 <= m < |p.sessions| && m != n ==> P.Apply(p, step).sessions[m] == p.sessions[m]
  {
  }

  lemma Hs1KeepsDispatched(t: P.Session, j: nat, ran: P.Ran, sendOk: bool)
    ensures P.SessionOnHs1(j, t, ran, sendOk).0.dispatched == t.dispatched
  {
  }

  /** Taking up a record dispatches exactly the request it gives. */
  lemma DataDispatches(c: Codec, t: P.Session, rec: Record, resp: P.Response)
    ensures var ds, given := P.SessionOnData(t, rec, resp).0.dispatched, Given(c, t, rec);
            if given.None? then ds == t.dispatched
            else |ds| == |t.dispatched| + 1 && ds[..|t.dispatched|] == t.dispatched
                 && c.parse(ds[|t.dispatched|].req) == given.value && ds[|t.dispatched|].resp == resp
  {
  }

  // ---- the link is kept by the daemon ----

  /** A program counter that is neither holding a request nor running one. */
  predicate Idle(pc: B.Pc) {
    !pc.Running? && !(pc.Handling? && pc.req.Some?)
  }

  lemma AnswersKept(c: Codec, a: seq<B.Job>, b: seq<B.Job>, runs: seq<nat>, ds: seq<P.Dispatch>)
    requires AnswersFrom(c, a, runs, ds) && |a| <= |b|
    requires forall j :: 0 <= j < |a| && B.Finished(a[j]) ==> b[j] == a[j]
    ensures AnswersFrom(c, b, runs, ds)
  {
    forall i | 0 <= i < |runs| ensures runs[i] < |b| && Answered(c, b[runs[i]], ds[i]) {
      assert Answered(c, a[runs[i]], ds[i]);
    }
  }

  /** Requests that are done never change again, and no request becomes another one. */
  lemma FinishedJobsKept(b: B.State, own: B.Step)
    requires B.Enabled(b, own)
    ensures var jobs := B.Apply(b, own).jobs;
            |b.jobs| <= |jobs| && forall j :: 0 <= j < |b.jobs| && B.Finished(b.jobs[j]) ==> jobs[j] == b.jobs[j]
  {
    if !(own.Dispatch? || own.LocalRequest? || own.Decide? || own.Emit? || own.LoseAudit?) {
      B.JobsUntouched(b, own);
    }
  }

  /** The daemon on its own, but for taking a request up: the loop keeps what it holds and runs. */
  lemma StepKeepsPc(b: B.State, own: B.Step, n: nat)
    requires B.Enabled(b, own) && n < |b.loops|
    requires !own.CommitOpen? && !own.FetchGives? && !own.Reply? && !(own.Dispatch? && own.n == n)
    ensures |B.Apply(b, own).loops| == |b.loops|
    ensures B.Apply(b, own).loops[n].pc == b.loops[n].pc || (Idle(b.loops[n].pc) && Idle(B.Apply(b, own).loops[n].pc))
  {
    B.LoopsAfter(b, own);
  }

  lemma LinkMoves(c: Codec, p: P.State, t: P.Session, a: seq<B.Job>, b: seq<B.Job>, n: nat, pc: B.Pc, pc': B.Pc,
                  held: Option<Record>)
    requires LinkedAt(c, p, t, a, n, pc, held) && RunsOf(a, n) == RunsOf(b, n) && |a| <= |b|
    requires forall j :: 0 <= j < |a| ==> B.SameRequest(a[j], b[j]) && (B.Finished(a[j]) ==> b[j] == a[j])
    requires pc' == pc || (Idle(pc) && Idle(pc'))
    ensures LinkedAt(c, p, t, b, n, pc', held)
  {
    var runs := RunsOf(a, n);
    if pc.Running? {
      AnswersKept(c, a, b, runs[..|runs| - 1], t.dispatched);
      assert runs[|runs| - 1] < |a|;
    } else {
      AnswersKept(c, a, b, runs, t.dispatched);
    }
  }

  lemma SameRunsAfter(b: B.State, own: B.Step, n: nat)
    requires B.Enabled(b, own) && !(own.Dispatch? && own.n == n)
    ensures RunsOf(B.Apply(b, own).jobs, n) == RunsOf(b.jobs, n)
  {
    var jobs := B.Apply(b, own).jobs;
    B.JobsKeepRequests(b, own);
    if |jobs| > |b.jobs| {
      NewJobIs(b, own);
      RunsSnoc(b.jobs, jobs[|b.jobs|], n);
    } else {
      RunsKept(b.jobs, jobs, n);
    }
  }

  lemma NewJobIs(b: B.State, own: B.Step)
    requires B.Enabled(b, own) && (own.Dispatch? || own.LocalRequest?)
    ensures var jobs := B.Apply(b, own).jobs;
            && |jobs| == |b.jobs| + 1 && jobs == b.jobs + [jobs[|b.jobs|]]
            && jobs[|b.jobs|].origin == (if own.Dispatch? then B.Reflected(own.n) else B.Local)
            && (own.Dispatch? ==> jobs[|b.jobs|].raw == b.loops[own.n].pc.req.value)
  {
  }

  lemma DaemonKeepsLink(c: Codec, p: P.State, b: B.State, own: B.Step, n: nat, t: P.Session, held: Option<Record>)
    requires B.Enabled(b, own) && !own.CommitOpen? && !own.FetchGives? && !own.Reply? && n < |b.loops|
    requires LinkedAt(c, p, t, b.jobs, n, b.loops[n].pc, held)
    ensures |B.Apply(b, own).loops| == |b.loops|
    ensures LinkedAt(c, p, t, B.Apply(b, own).jobs, n, B.Apply(b, own).loops[n].pc, held)
  {
    B.LoopsAfter(b, own);
    if own.Dispatch? && own.n == n {
      DispatchKeepsLink(c, p, b, n, t, held);
    } else {
      StepKeepsPc(b, own, n);
      SameRunsAfter(b, own, n);
      B.JobsKeepRequests(b, own);
      FinishedJobsKept(b, own);
      LinkMoves(c, p, t, b.jobs, B.Apply(b, own).jobs, n, b.loops[n].pc, B.Apply(b, own).loops[n].pc, held);
    }
  }

  lemma DispatchKeepsLink(c: Codec, p: P.State, b: B.State, n: nat, t: P.Session, held: Option<Record>)
    requires B.Enabled(b, B.Dispatch(n)) && LinkedAt(c, p, t, b.jobs, n, b.loops[n].pc, held)
    ensures var b' := B.Apply(b, B.Dispatch(n)); LinkedAt(c, p, t, b'.jobs, n, b'.loops[n].pc, held)
  {
    NewJobIs(b, B.Dispatch(n));
    NewRunLinked(c, p, t, b.jobs, B.Apply(b, B.Dispatch(n)).jobs[|b.jobs|], n, b.loops[n].pc.req.value, held);
  }

  lemma NewRunLinked(c: Codec, p: P.State, t: P.Session, jobs: seq<B.Job>, job: B.Job, n: nat, raw: Service.Request,
                     held: Option<Record>)
    requires LinkedAt(c, p, t, jobs, n, B.Handling(Some(raw)), held) && job.origin == B.Reflected(n) && job.raw == raw
    ensures LinkedAt(c, p, t, jobs + [job], n, B.Running(|jobs|), held)
  {
    var runs := RunsOf(jobs, n);
    RunsSnoc(jobs, job, n);
    assert (runs + [|jobs|])[..|runs|] == runs;
    AnswersKept(c, jobs, jobs + [job], runs, t.dispatched);
  }

  // ---- the link is kept by frames and answers ----

  lemma FetchMoves(b: B.State, n: nat, given: Option<Service.Request>)
    requires B.Enabled(b, B.FetchGives(n, given))
    ensures var b' := B.Apply(b, B.FetchGives(n, given));
            && b'.jobs == b.jobs && |b'.loops| == |b.loops| && b.loops[n].pc == B.Fetching && b'.loops[n].pc == B.Handling(given)
            && forall m :: 0 <= m < |b.loops| && m != n ==> b'.loops[m].pc == b.loops[m].pc
  {
  }

  /** A frame without a request, which may still have moved the channel. */
  lemma EmptyFrameKeepsLink(c: Codec, s: State, n: nat, p': P.State)
    requires Linked(c, s) && B.Enabled(s.b, B.FetchGives(n, None)) && n < |s.p.sessions|
    requires |p'.sessions| == |s.p.sessions| && s.p.bodies <= p'.bodies && s.p.leaked <= p'.leaked
    requires p'.sessions[n].dispatched == s.p.sessions[n].dispatched
    requires forall m :: 0 <= m < |s.p.sessions| && m != n ==> p'.sessions[m] == s.p.sessions[m]
    ensures Linked(c, s.(p := p', b := B.Apply(s.b, B.FetchGives(n, None))))
  {
    FetchMoves(s.b, n, None);
    var b' := B.Apply(s.b, B.FetchGives(n, None));
    forall m | 0 <= m < |s.b.loops| ensures LinkedAt(c, p', p'.sessions[m], b'.jobs, m, b'.loops[m].pc, s.held[m]) {
      assert LinkedAt(c, s.p, s.p.sessions[m], s.b.jobs, m, s.b.loops[m].pc, s.held[m]);
      if m != n {
        OtherSessionKept(c, s.p, p', s.p.sessions[m], s.b.jobs, m, s.b.loops[m].pc, s.held[m]);
      }
    }
  }

  lemma RequestFrameKeepsLink(c: Codec, s: State, n: nat, rec: Record, given: Option<Service.Request>)
    requires Linked(c, s) && n < |s.held| && P.CanInject(s.p, rec)
    requires given.Some? && given == Given(c, s.p.sessions[n], rec) && B.Enabled(s.b, B.FetchGives(n, given))
    ensures Linked(c, s.(b := B.Apply(s.b, B.FetchGives(n, given)), held := s.held[n := Some(rec)]))
  {
    FetchMoves(s.b, n, given);
    var b' := B.Apply(s.b, B.FetchGives(n, given));
    var held' := s.held[n := Some(rec)];
    forall m | 0 <= m < |s.b.loops| ensures LinkedAt(c, s.p, s.p.sessions[m], b'.jobs, m, b'.loops[m].pc, held'[m]) {
      assert LinkedAt(c, s.p, s.p.sessions[m], s.b.jobs, m, s.b.loops[m].pc, s.held[m]);
    }
  }

  lemma ReplyMoves(b: B.State, n: nat)
    requires B.Enabled(b, B.Reply(n))
    ensures var b' := B.Apply(b, B.Reply(n));
            && b'.jobs == b.jobs && |b'.loops| == |b.loops| && b'.loops[n].pc == B.Top
            && forall m :: 0 <= m < |b.loops| && m != n ==> b'.loops[m].pc == b.loops[m].pc
  {
  }

  /** The answer of a finished run is sealed as the response of its dispatch. */
  lemma AnswerLinks(c: Codec, p: P.State, p': P.State, t: P.Session, t': P.Session, jobs: seq<B.Job>, n: nat, j: nat, rec: Record)
    requires LinkedAt(c, p, t, jobs, n, B.Running(j), Some(rec)) && j < |jobs| && B.Finished(jobs[j])
    requires t' == P.SessionOnData(t, rec, c.answer(jobs[j])).0
    ensures LinkedAt(c, p', t', jobs, n, B.Top, Some(rec))
  {
    var runs, k := RunsOf(jobs, n), |t.dispatched|;
    DataDispatches(c, t, rec, c.answer(jobs[j]));
    forall i | 0 <= i < |runs| ensures runs[i] < |jobs| && Answered(c, jobs[runs[i]], t'.dispatched[i]) {
      if i < k {
        assert runs[..k][i] == runs[i] && t'.dispatched[..k][i] == t'.dispatched[i];
      }
    }
  }

  lemma AnswerKeepsLink(c: Codec, s: State, n: nat)
    requires Linked(c, s) && Enabled(c, s, Answer(n))
    ensures Linked(c, Apply(c, s, Answer(n)))
  {
    var j, rec := s.b.loops[n].pc.job, s.held[n].value;
    var step := P.ReceiveData(n, rec, Written(c, s.b, n));
    var p', b' := P.Apply(s.p, step), B.Apply(s.b, B.Reply(n));
    ReplyMoves(s.b, n);
    KnowledgeGrows(s.p, step);
    FrameTouchesOne(s.p, step, n);
    forall m | 0 <= m < |s.b.loops| ensures LinkedAt(c, p', p'.sessions[m], b'.jobs, m, b'.loops[m].pc, s.held[m]) {
      assert LinkedAt(c, s.p, s.p.sessions[m], s.b.jobs, m, s.b.loops[m].pc, s.held[m]);
      if m == n {
        AnswerLinks(c, s.p, p', s.p.sessions[n], p'.sessions[n], s.b.jobs, n, j, rec);
      } else {
        OtherSessionKept(c, s.p, p', s.p.sessions[m], s.b.jobs, m, s.b.loops[m].pc, s.held[m]);
      }
    }
  }

  lemma OpenKeepsLink(c: Codec, s: State, rendezvous: string, open: B.Step)
    requires Linked(c, s) && B.JobsOk(s.b) && open.CommitOpen? && B.Enabled(s.b, open)
    ensures Linked(c, State(P.Apply(s.p, P.OpenSession(rendezvous)), B.Apply(s.b, open), s.held + [None]))
  {
    var l := B.Loop(open.id, open.issuer, open.external, open.scope, false, B.Top);
    B.LoopsAfter(s.b, open);
    B.JobsUntouched(s.b, open);
    NoRunsYet(s.b.jobs, s.b.loops, |s.b.loops|);
    NewPairLinked(c, s, P.Apply(s.p, P.OpenSession(rendezvous)), B.Apply(s.b, open), l, P.Session(rendezvous, {}, None, []));
  }

  lemma NewPairLinked(c: Codec, s: State, p': P.State, b': B.State, l: B.Loop, t: P.Session)
    requires Linked(c, s) && p'.sessions == s.p.sessions + [t] && b'.loops == s.b.loops + [l] && b'.jobs == s.b.jobs
    requires s.p.bodies <= p'.bodies && s.p.leaked <= p'.leaked
    requires RunsOf(s.b.jobs, |s.b.loops|) == [] && l.pc == B.Top && t.dispatched == []
    ensures Linked(c, State(p', b', s.held + [None]))
  {
    var held' := s.held + [None];
    forall n | 0 <= n < |b'.loops| ensures LinkedAt(c, p', p'.sessions[n], b'.jobs, n, b'.loops[n].pc, held'[n]) {
      if n < |s.b.loops| {
        assert LinkedAt(c, s.p, s.p.sessions[n], s.b.jobs, n, s.b.loops[n].pc, s.held[n]);
        OtherSessionKept(c, s.p, p', s.p.sessions[n], s.b.jobs, n, s.b.loops[n].pc, s.held[n]);
      }
    }
  }

  lemma ChannelStepKeepsLink(c: Codec, s: State, relay: P.Step)
    requires Linked(c, s) && Enabled(c, s, Channel(relay))
    ensures Linked(c, s.(p := P.Apply(s.p, relay)))
  {
    var p' := P.Apply(s.p, relay);
    RelayKeepsSessions(s.p, relay);
    KnowledgeGrows(s.p, relay);
    forall n | 0 <= n < |s.b.loops| ensures LinkedAt(c, p', p'.sessions[n], s.b.jobs, n, s.b.loops[n].pc, s.held[n]) {
      OtherSessionKept(c, s.p, p', s.p.sessions[n], s.b.jobs, n, s.b.loops[n].pc, s.held[n]);
    }
  }

  lemma DaemonStepKeepsLink(c: Codec, s: State, own: B.Step)
    requires Linked(c, s) && Enabled(c, s, Daemon(own))
    ensures Linked(c, s.(b := B.Apply(s.b, own)))
  {
    var b' := B.Apply(s.b, own);
    B.LoopsAfter(s.b, own);
    forall n | 0 <= n < |s.b.loops|
      ensures |b'.loops| == |s.b.loops| && LinkedAt(c, s.p, s.p.sessions[n], b'.jobs, n, b'.loops[n].pc, s.held[n])
    {
      DaemonKeepsLink(c, s.p, s.b, own, n, s.p.sessions[n], s.held[n]);
    }
  }

  lemma Hs1FrameKeepsLink(c: Codec, s: State, n: nat, ran: P.Ran, sendOk: bool)
    requires Linked(c, s) && Enabled(c, s, Hs1Frame(n, ran, sendOk))
    ensures Linked(c, Apply(c, s, Hs1Frame(n, ran, sendOk)))
  {
    var step := P.ReceiveHs1(n, ran, sendOk);
    KnowledgeGrows(s.p, step);
    FrameTouchesOne(s.p, step, n);
    Hs1KeepsDispatched(s.p.sessions[n], n, ran, sendOk);
    EmptyFrameKeepsLink(c, s, n, P.Apply(s.p, step));
  }

  lemma DataFrameKeepsLink(c: Codec, s: State, n: nat, rec: Record)
    requires Linked(c, s) && Enabled(c, s, DataFrame(n, rec))
    ensures Linked(c, Apply(c, s, DataFrame(n, rec)))
  {
    var given := Given(c, s.p.sessions[n], rec);
    if given.Some? {
      RequestFrameKeepsLink(c, s, n, rec, given);
    } else {
      var step := P.ReceiveData(n, rec, "");
      KnowledgeGrows(s.p, step);
      FrameTouchesOne(s.p, step, n);
      DataDispatches(c, s.p.sessions[n], rec, "");
      EmptyFrameKeepsLink(c, s, n, P.Apply(s.p, step));
    }
  }

  lemma LinkPreserved(c: Codec, s: State, step: Step)
    requires Linked(c, s) && B.JobsOk(s.b) && Enabled(c, s, step)
    ensures Linked(c, Apply(c, s, step))
  {
    match step
    case Channel(relay) => ChannelStepKeepsLink(c, s, relay);
    case Daemon(own) => DaemonStepKeepsLink(c, s, own);
    case Open(rendezvous, open) => OpenKeepsLink(c, s, rendezvous, open);
    case Hs1Frame(n, ran, sendOk) => Hs1FrameKeepsLink(c, s, n, ran, sendOk);
    case DataFrame(n, rec) => DataFrameKeepsLink(c, s, n, rec);
    case OtherFrame(n) => EmptyFrameKeepsLink(c, s, n, s.p);
    case Answer(n) => AnswerKeepsLink(c, s, n);
  }

  // ---- runs ----

  /** One step of the whole is at most one step of each half. */
  lemma HalvesStep(c: Codec, s: State, step: Step)
    requires Enabled(c, s, step)
    ensures var s' := Apply(c, s, step);
            && (s'.p == s.p || exists ps :: P.Enabled(s.p, ps) && s'.p == P.Apply(s.p, ps))
            && (s'.b == s.b || exists bs :: B.Enabled(s.b, bs) && s'.b == B.Apply(s.b, bs))
  {
    match step
    case Channel(relay) =>
    case Daemon(own) =>
    case Open(rendezvous, open) => assert P.Enabled(s.p, P.OpenSession(rendezvous));
    case Hs1Frame(n, ran, sendOk) => assert P.Enabled(s.p, P.ReceiveHs1(n, ran, sendOk)) && B.Enabled(s.b, B.FetchGives(n, None));
    case DataFrame(n, rec) =>
      assert P.Enabled(s.p, P.ReceiveData(n, rec, "")) && B.Enabled(s.b, B.FetchGives(n, None));
      assert B.Enabled(s.b, B.FetchGives(n, Given(c, s.p.sessions[n], rec)));
    case OtherFrame(n) => assert B.Enabled(s.b, B.FetchGives(n, None));
    case Answer(n) =>
      assert P.Enabled(s.p, P.ReceiveData(n, s.held[n].value, Written(c, s.b, n))) && B.Enabled(s.b, B.Reply(n));
  }

  ghost predicate Inv(c: Codec, s: State) {
    P.Inv(s.p) && B.Inv(s.b) && Linked(c, s)
  }

  lemma ChannelHalf(p: P.State, p': P.State)
    requires p' == p || exists ps :: P.Enabled(p, ps) && p' == P.Apply(p, ps)
    requires P.NoWrap(p')
    ensures P.NoWrap(p) && (P.Inv(p) ==> P.Inv(p'))
  {
    if p' != p {
      var ps :| P.Enabled(p, ps) && p' == P.Apply(p, ps);
      P.StepGrows(p, ps);
      P.NoWrapEarlier(p, p');
      if P.Inv(p) {
        P.InvPreserved(p, ps);
      }
    }
  }

  lemma DaemonHalf(b: B.State, b': B.State)
    requires b' == b || exists bs :: B.Enabled(b, bs) && b' == B.Apply(b, bs)
    requires B.Inv(b)
    ensures B.Inv(b')
  {
    if b' != b {
      var bs :| B.Enabled(b, bs) && b' == B.Apply(b, bs);
      B.MapPreserved(b, bs);
      B.JobsPreserved(b, bs);
    }
  }

  lemma StepInvariant(c: Codec, s: State, step: Step, s': State)
    requires Enabled(c, s, step) && s' == Apply(c, s, step) && P.NoWrap(s'.p)
    ensures P.NoWrap(s.p) && (Inv(c, s) ==> Inv(c, s'))
  {
    HalvesStep(c, s, step);
    ChannelHalf(s.p, s'.p);
    if Inv(c, s) {
      DaemonHalf(s.b, s'.b);
      LinkPreserved(c, s, step);
    }
  }

  lemma StartInvariant(c: Codec, maxSessions: nat)
    ensures Inv(c, State(P.Init, B.InitState(maxSessions), []))
  {
  }

  lemma RunStepInvariant(c: Codec, states: seq<State>, steps: seq<Step>, i: nat)
    requires IsRun(c, states, steps) && i < |steps| && P.NoWrap(states[i + 1].p)
    ensures P.NoWrap(states[i].p) && (Inv(c, states[i]) ==> Inv(c, states[i + 1]))
  {
    assert StepAt(c, states, steps, i);
    StepInvariant(c, states[i], steps[i], states[i + 1]);
  }

  lemma {:induction false} RunInvariant(c: Codec, states: seq<State>, steps: seq<Step>, i: nat)
    requires IsRun(c, states, steps) && i < |states| && P.NoWrap(states[i].p)
    ensures Inv(c, states[i])
    decreases i
  {
    if i == 0 {
      StartInvariant(c, states[0].b.maxSessions);
    } else {
      RunStepInvariant(c, states, steps, i - 1);
      RunInvariant(c, states, steps, i - 1);
    }
  }

  // ---- every run is of a sealed request ----

  function RawsOf(jobs: seq<B.Job>, n: nat): (r: seq<Service.Request>)
    ensures |r| == |RunsOf(jobs, n)| && forall i :: 0 <= i < |r| ==> r[i] == jobs[RunsOf(jobs, n)[i]].raw
  {
    seq(|RunsOf(jobs, n)|, i requires 0 <= i < |RunsOf(jobs, n)| => jobs[RunsOf(jobs, n)[i]].raw)
  }

  function Parsed(c: Codec, reqs: seq<P.Request>): (r: seq<Service.Request>)
    ensures |r| == |reqs| && forall i :: 0 <= i < |reqs| ==> r[i] == c.parse(reqs[i])
  {
    seq(|reqs|, i requires 0 <= i < |reqs| => c.parse(reqs[i]))
  }

  /** The requests run for session `n` are a selection, in order and without repetition, of what one client sealed. */
  ghost predicate RunsWhatOneClientSealed(c: Codec, s: State, n: nat)
    requires n < |s.p.sessions|
  {
    exists k: nat, picked: seq<nat> ::
      && k < |s.p.clients| && P.MirrorsClient(s.p.sessions[n], s.p.clients[k])
      && PS.Selects(RawsOf(s.b.jobs, n), Parsed(c, s.p.clients[k].sent), picked)
  }

  /**
   In every run of relay, clients and daemon together, the requests the daemon took up on a
   session whose connect secret did not leak, the one in progress included, are an
   order-preserving, duplicate-free selection of the requests one single client sealed for it.
   */
  lemma DaemonRunsSealedRequests(c: Codec, states: seq<State>, steps: seq<Step>, i: nat, n: nat)
    requires IsRun(c, states, steps) && i < |states| && P.NoWrap(states[i].p)
    requires n < |states[i].b.loops| && n !in states[i].p.leaked && RunsOf(states[i].b.jobs, n) != []
    ensures n < |states[i].p.sessions| && RunsWhatOneClientSealed(c, states[i], n)
  {
    RunInvariant(c, states, steps, i);
    RunsAreSealed(c, states[i], n);
  }

  lemma RunsAreSealed(c: Codec, s: State, n: nat)
    requires Inv(c, s) && P.NoWrap(s.p) && n < |s.b.loops| && n !in s.p.leaked && RunsOf(s.b.jobs, n) != []
    ensures n < |s.p.sessions| && RunsWhatOneClientSealed(c, s, n)
  {
    var t := s.p.sessions[n];
    assert LinkedAt(c, s.p, t, s.b.jobs, n, s.b.loops[n].pc, s.held[n]);
    if s.b.loops[n].pc.Running? {
      var p' := AfterTakingUp(s.p, n, s.held[n].value);
      TakenUp(c, s, n, p');
      SealedForSession(c, s, n, p');
    } else {
      PS.SessionFacts(s.p, n);
      AnsweredRaws(c, s.b.jobs, n, t.dispatched);
      SealedForSession(c, s, n, s.p);
    }
  }

  /** What the protocol would know of the session had it taken the held record up already. */
  lemma AfterTakingUp(p: P.State, n: nat, rec: Record) returns (p': P.State)
    requires P.Inv(p) && P.NoWrap(p) && n < |p.sessions| && P.CanInject(p, rec)
    ensures P.Enabled(p, P.ReceiveData(n, rec, "")) && p' == P.Apply(p, P.ReceiveData(n, rec, ""))
    ensures n < |p'.sessions| && P.SessionOk(n, p'.sessions[n]) && P.AuthenticSession(p', p'.sessions[n])
  {
    var step := P.ReceiveData(n, rec, "");
    p' := P.Apply(p, step);
    FrameTouchesOne(p, step, n);
    P.InvPreserved(p, step);
    PS.SessionFacts(p', n);
  }

  lemma AnsweredRaws(c: Codec, jobs: seq<B.Job>, n: nat, ds: seq<P.Dispatch>)
    requires AnswersFrom(c, jobs, RunsOf(jobs, n), ds)
    ensures RawsOf(jobs, n) == Parsed(c, PS.RequestsOf(ds))
  {
  }

  /** With the request in progress dispatched as well, the channel has dispatched every run. */
  lemma TakenUp(c: Codec, s: State, n: nat, p': P.State)
    requires n < |s.b.loops| == |s.p.sessions| == |s.held| && s.b.loops[n].pc.Running?
    requires LinkedAt(c, s.p, s.p.sessions[n], s.b.jobs, n, s.b.loops[n].pc, s.held[n])
    requires P.Enabled(s.p, P.ReceiveData(n, s.held[n].value, "")) && p' == P.Apply(s.p, P.ReceiveData(n, s.held[n].value, ""))
    ensures n < |p'.sessions| && RawsOf(s.b.jobs, n) == Parsed(c, PS.RequestsOf(p'.sessions[n].dispatched))
    ensures p'.clients == s.p.clients && p'.leaked == s.p.leaked
    ensures forall k :: 0 <= k < |s.p.clients| && P.MirrorsClient(p'.sessions[n], s.p.clients[k]) ==>
              P.MirrorsClient(s.p.sessions[n], s.p.clients[k])
  {
    var t, rec := s.p.sessions[n], s.held[n].value;
    DataDispatches(c, t, rec, "");
    var runs, ds, k := RunsOf(s.b.jobs, n), p'.sessions[n].dispatched, |t.dispatched|;
    forall i | 0 <= i < |runs| ensures s.b.jobs[runs[i]].raw == c.parse(ds[i].req) {
      if i < k {
        assert runs[..k][i] == runs[i] && ds[..k][i] == ds[i];
        assert Answered(c, s.b.jobs[runs[i]], t.dispatched[i]);
      }
    }
    assert RawsOf(s.b.jobs, n) == Parsed(c, PS.RequestsOf(ds));
  }

  lemma SealedForSession(c: Codec, s: State, n: nat, p': P.State)
    requires n < |s.p.sessions| && n < |p'.sessions| && n !in p'.leaked && RunsOf(s.b.jobs, n) != []
    requires RawsOf(s.b.jobs, n) == Parsed(c, PS.RequestsOf(p'.sessions[n].dispatched)) && p'.clients == s.p.clients
    requires forall k :: 0 <= k < |s.p.clients| && P.MirrorsClient(p'.sessions[n], s.p.clients[k]) ==>
               P.MirrorsClient(s.p.sessions[n], s.p.clients[k])
    requires P.SessionOk(n, p'.sessions[n]) && P.AuthenticSession(p', p'.sessions[n])
    ensures RunsWhatOneClientSealed(c, s, n)
  {
    var reqs := PS.RequestsOf(p'.sessions[n].dispatched);
    assert |RawsOf(s.b.jobs, n)| == |reqs| > 0;
    PS.DispatchesOf(p', n);
    var k: nat, picked: seq<nat> :| k < |p'.clients| && P.MirrorsClient(p'.sessions[n], p'.clients[k])
                                    && PS.Selects(reqs, p'.clients[k].sent, picked);
    assert PS.Selects(RawsOf(s.b.jobs, n), Parsed(c, s.p.clients[k].sent), picked);
  }

  /** Some client whose channel end mirrors session `n` sealed text that reads as this request. */
  ghost predicate SealedBySome(c: Codec, p: P.State, n: nat, raw: Service.Request)
    requires n < |p.sessions|
  {
    exists k: nat, x: nat ::
      && k < |p.clients| && P.MirrorsClient(p.sessions[n], p.clients[k])
      && x < |p.clients[k].sent| && c.parse(p.clients[k].sent[x]) == raw
  }

  lemma OneOfTheSealed(c: Codec, s: State, n: nat, j: nat)
    requires n < |s.p.sessions| && RunsWhatOneClientSealed(c, s, n) && j in RunsOf(s.b.jobs, n) && j < |s.b.jobs|
    ensures SealedBySome(c, s.p, n, s.b.jobs[j].raw)
  {
    var k: nat, picked: seq<nat> :| k < |s.p.clients| && P.MirrorsClient(s.p.sessions[n], s.p.clients[k])
                                    && PS.Selects(RawsOf(s.b.jobs, n), Parsed(c, s.p.clients[k].sent), picked);
    var y :| 0 <= y < |RunsOf(s.b.jobs, n)| && RunsOf(s.b.jobs, n)[y] == j;
    assert c.parse(s.p.clients[k].sent[picked[y]]) == RawsOf(s.b.jobs, n)[y];
  }

  /**
   In every run, an execution on behalf of a reflected session is of a request that a client
   holding the session's channel sealed, within the authority of the session's issuer.
   */
  lemma ExecutedRequestWasSealed(c: Codec, states: seq<State>, steps: seq<Step>, i: nat, q: nat)
    requires IsRun(c, states, steps) && i < |states| && P.NoWrap(states[i].p)
    requires q < |states[i].b.log| && states[i].b.log[q].event.Executed? && states[i].b.log[q].job < |states[i].b.jobs|
    requires var job := states[i].b.jobs[states[i].b.log[q].job];
             job.origin.Reflected? && job.origin.n !in states[i].p.leaked
    ensures var s := states[i];
            var job := s.b.jobs[s.b.log[q].job];
            && job.origin.n < |s.b.loops| == |s.p.sessions|
            && B.WithinAuthority(s.b.loops[job.origin.n].issuer, job, s.b.log[q].event)
            && SealedBySome(c, s.p, job.origin.n, job.raw)
  {
    RunInvariant(c, states, steps, i);
    var s := states[i];
    var j := s.b.log[q].job;
    var n := s.b.jobs[j].origin.n;
    B.StateAuthority(s.b, q);
    RunIsThere(s.b.jobs, j, n);
    RunsAreSealed(c, s, n);
    OneOfTheSealed(c, s, n, j);
  }

  // ---- every response is the answer of a run ----

  /** The run of session `n` that computed a response: done, of that request, all it was decided to do accounted for. */
  ghost predicate ComputedBy(c: Codec, b: B.State, n: nat, x: nat, req: P.Request, resp: P.Response) {
    && x < |b.jobs| && b.jobs[x].origin == B.Reflected(n) && B.Finished(b.jobs[x])
    && b.jobs[x].raw == c.parse(req) && c.answer(b.jobs[x]) == resp
    && B.EventsOf(b.log, x) + b.jobs[x].lost == B.PlanOf(b.jobs[x])
  }

  ghost predicate ComputedBySome(c: Codec, b: B.State, n: nat, req: P.Request, resp: P.Response) {
    exists x: nat :: ComputedBy(c, b, n, x, req, resp)
  }

  /**
   In every run, each response a client's `Call` returned is the answer of a finished run, on the
   session its handle names, of exactly that call's request; the run has executed, if it was
   decided that it may, before the response was sealed.
   */
  lemma ReturnedResponseIsOfItsRun(c: Codec, states: seq<State>, steps: seq<Step>, i: nat, k: nat, n: nat, a: nat)
    requires IsRun(c, states, steps) && i < |states| && P.NoWrap(states[i].p)
    requires k < |states[i].p.clients| && a < |states[i].p.clients[k].returned|
    requires states[i].p.clients[k].pending.daemonPub == SymbolicCrypto.PublicOctets(SymbolicCrypto.DaemonKey(n))
    ensures var s, cl := states[i], states[i].p.clients[k];
            var ret := cl.returned[a];
            1 <= ret.id <= |cl.sent| && ComputedBySome(c, s.b, n, cl.sent[ret.id - 1], ret.resp)
  {
    RunInvariant(c, states, steps, i);
    var y := AnsweringDispatch(states[i].p, k, n, a);
    DispatchWasRun(c, states[i], n, y);
  }

  lemma AnsweringDispatch(p: P.State, k: nat, n: nat, a: nat) returns (y: nat)
    requires P.Inv(p) && k < |p.clients| && a < |p.clients[k].returned|
    requires p.clients[k].pending.daemonPub == SymbolicCrypto.PublicOctets(SymbolicCrypto.DaemonKey(n))
    ensures n < |p.sessions| && y < |p.sessions[n].dispatched|
    ensures P.Answers(p.sessions[n].dispatched[y], p.clients[k].returned[a], p.clients[k])
  {
    PS.ClientFacts(p, k);
    PS.ReturnsOf(p, k, n);
    assert PS.AnsweredBy(p, n, p.clients[k], p.clients[k].returned[a]);
    y :| y < |p.sessions[n].dispatched| && P.Answers(p.sessions[n].dispatched[y], p.clients[k].returned[a], p.clients[k]);
  }

  lemma DispatchWasRun(c: Codec, s: State, n: nat, y: nat)
    requires Linked(c, s) && B.JobsOk(s.b) && n < |s.p.sessions| && y < |s.p.sessions[n].dispatched|
    ensures ComputedBySome(c, s.b, n, s.p.sessions[n].dispatched[y].req, s.p.sessions[n].dispatched[y].resp)
  {
    var t, runs := s.p.sessions[n], RunsOf(s.b.jobs, n);
    assert LinkedAt(c, s.p, t, s.b.jobs, n, s.b.loops[n].pc, s.held[n]);
    var x := runs[y];
    if s.b.loops[n].pc.Running? {
      assert runs[..|runs| - 1][y] == x;
    }
    assert Answered(c, s.b.jobs[x], t.dispatched[y]);
    assert B.OnPlan(s.b.log, x, s.b.jobs[x]);
    assert s.b.jobs[x].lost + [] == s.b.jobs[x].lost;
    assert ComputedBy(c, s.b, n, x, t.dispatched[y].req, t.dispatched[y].resp);
  }
}
