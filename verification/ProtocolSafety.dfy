/**
 What every run of the reflector protocol guarantees, whatever the relay does, and what a
 faithful relay adds.
 */
module ProtocolSafety {
  import opened Wrappers
  import opened SymbolicCrypto
  import opened RecordLayer
  import opened Handshake
  import opened Protocol

  function RequestsOf(ds: seq<Dispatch>): seq<Request> {
    seq(|ds|, i requires 0 <= i < |ds| => ds[i].req)
  }

  /** `picked` is a strictly increasing choice of positions of `from`, and `xs` is what it picks. */
  predicate Selects<T(==)>(xs: seq<T>, from: seq<T>, picked: seq<nat>) {
    && |picked| == |xs|
    && (forall i, j :: 0 <= i < j < |picked| ==> picked[i] < picked[j])
    && (forall i :: 0 <= i < |xs| ==> picked[i] < |from| && xs[i] == from[picked[i]])
  }

  lemma UnleakedIsUnknown(j: nat, t: Session, leaked: set<nat>)
    requires SessionOk(j, t) && t.channel.Some? && j !in leaked
    ensures !KnowsKey(leaked, SessionEnds(t).recvKey)
  {
    var transcript := SessionEnds(t).recvKey.transcript.preimage;
    assert transcript[|transcript| - 1] == SecretOctets(j)[SECRET_LENGTH - 1];
  }

  lemma HonestPairIsUnknown(k: nat, c: Client, j: nat, leaked: set<nat>)
    requires ClientOk(k, c) && c.phase.Established? && c.pending.daemonPub == PublicOctets(DaemonKey(j))
    ensures !KnowsKey(leaked, ClientEnds(c).recvKey)
  {
    assert ParsePublic(c.pending.daemonPub) == Some(DaemonKey(j));
    assert ClientEnds(c).recvKey.prk.z == Dh({ClientKey(k), DaemonKey(j)});
  }

  /**
   In every run, whatever the relay does, the requests dispatched on a session whose connect
   secret did not leak are an order-preserving, duplicate-free selection of the requests one
   single client sealed, and that client's channel end mirrors the session's.
   */
  lemma DispatchesComeFromOneClient(states: seq<State>, steps: seq<Step>, n: nat, j: nat)
    requires IsRun(states, steps) && n < |states| && NoWrap(states[n])
    requires j < |states[n].sessions| && j !in states[n].leaked
    requires states[n].sessions[j].dispatched != []
    ensures exists k: nat, picked: seq<nat> ::
              && k < |states[n].clients|
              && MirrorsClient(states[n].sessions[j], states[n].clients[k])
              && Selects(RequestsOf(states[n].sessions[j].dispatched), states[n].clients[k].sent, picked)
  {
    RunInvariant(states, steps, n);
    SessionFacts(states[n], j);
    DispatchesOf(states[n], j);
  }

  lemma SessionFacts(s: State, j: nat)
    requires Inv(s) && j < |s.sessions|
    ensures Structure(s) && SessionOk(j, s.sessions[j]) && AuthenticSession(s, s.sessions[j])
  {
  }

  lemma ClientFacts(s: State, k: nat)
    requires Inv(s) && k < |s.clients|
    ensures Structure(s) && ClientOk(k, s.clients[k]) && AuthenticClient(s, s.clients[k])
  {
  }

  lemma DispatchesOf(s: State, j: nat)
    requires j < |s.sessions| && j !in s.leaked && s.sessions[j].dispatched != []
    requires SessionOk(j, s.sessions[j]) && AuthenticSession(s, s.sessions[j])
    ensures exists k: nat, picked: seq<nat> ::
              && k < |s.clients|
              && MirrorsClient(s.sessions[j], s.clients[k])
              && Selects(RequestsOf(s.sessions[j].dispatched), s.clients[k].sent, picked)
  {
    var t := s.sessions[j];
    UnleakedIsUnknown(j, t, s.leaked);
    var k: nat :| k < |s.clients| && AllCallsOf(t, s.clients[k]);
    var picked: seq<nat> := seq(|t.dispatched|, i requires 0 <= i < |t.dispatched| => t.dispatched[i].ctr as nat);
    forall i | 0 <= i < |t.dispatched|
      ensures picked[i] < |s.clients[k].sent| && RequestsOf(t.dispatched)[i] == s.clients[k].sent[picked[i]]
    {
      assert IsCallOf(t.dispatched[i], s.clients[k]);
    }
    assert Selects(RequestsOf(t.dispatched), s.clients[k].sent, picked);
  }

  /** The return carries what session `j` dispatched and computed for exactly that call. */
  predicate AnsweredBy(s: State, j: nat, c: Client, r: Return) {
    j < |s.sessions| && exists i :: 0 <= i < |s.sessions[j].dispatched| && Answers(s.sessions[j].dispatched[i], r, c)
  }

  /**
   In every run, each response a client's `Call` returned was computed by the daemon named in
   its handle for exactly that call's request, and no call returns twice.  This needs only
   that the handle names an honest daemon key, not that the connect secret stayed secret.
   */
  lemma EveryReturnAnswersItsCall(states: seq<State>, steps: seq<Step>, n: nat, k: nat, j: nat)
    requires IsRun(states, steps) && n < |states| && NoWrap(states[n])
    requires k < |states[n].clients|
    requires states[n].clients[k].pending.daemonPub == PublicOctets(DaemonKey(j))
    ensures var s, c := states[n], states[n].clients[k];
            && (forall a, b :: 0 <= a < b < |c.returned| ==> c.returned[a].id < c.returned[b].id)
            && (forall a :: 0 <= a < |c.returned| ==> AnsweredBy(s, j, c, c.returned[a]))
  {
    RunInvariant(states, steps, n);
    ClientFacts(states[n], k);
    ReturnsOf(states[n], k, j);
  }

  lemma ReturnsOf(s: State, k: nat, j: nat)
    requires Structure(s) && k < |s.clients| && ClientOk(k, s.clients[k]) && AuthenticClient(s, s.clients[k])
    requires s.clients[k].pending.daemonPub == PublicOctets(DaemonKey(j))
    ensures var c := s.clients[k];
            forall a :: 0 <= a < |c.returned| ==> AnsweredBy(s, j, c, c.returned[a])
  {
    var c := s.clients[k];
    forall a | 0 <= a < |c.returned| ensures AnsweredBy(s, j, c, c.returned[a]) {
      HonestPairIsUnknown(k, c, j, s.leaked);
      assert AnsweredBySome(s, c, c.returned[a]);
      var j', i :| 0 <= j' < |s.sessions| && 0 <= i < |s.sessions[j'].dispatched|
                   && MirrorsClient(s.sessions[j'], c) && Answers(s.sessions[j'].dispatched[i], c.returned[a], c);
      assert SessionOk(j', s.sessions[j']);
      MirrorNamesTheDaemon(s, j', k, j);
    }
  }

  lemma MirrorNamesTheDaemon(s: State, j': nat, k: nat, j: nat)
    requires j' < |s.sessions| && k < |s.clients| && SessionOk(j', s.sessions[j']) && ClientOk(k, s.clients[k])
    requires MirrorsClient(s.sessions[j'], s.clients[k])
    requires s.clients[k].pending.daemonPub == PublicOctets(DaemonKey(j))
    ensures j' == j
  {
    var t, c := s.sessions[j'], s.clients[k];
    assert ParsePublic(c.pending.daemonPub) == Some(DaemonKey(j));
    assert ClientEnds(c).recvKey.prk.z.ends == {ClientKey(k), DaemonKey(j)};
    assert DaemonKey(j') in SessionEnds(t).recvKey.prk.z.ends;
  }

  /**
   In every run, a client that established a channel under a handle naming an honest daemon
   agrees with a handshake that daemon really ran: same rendezvous, ephemeral keys and connect
   secret, mirror-image channel ends, and the same nonces exactly when the nonce that reached
   the daemon was 16 octets long.
   */
  lemma EstablishedMeansAgreed(states: seq<State>, steps: seq<Step>, n: nat, k: nat, j: nat)
    requires IsRun(states, steps) && n < |states| && NoWrap(states[n])
    requires k < |states[n].clients| && states[n].clients[k].phase.Established?
    requires states[n].clients[k].pending.daemonPub == PublicOctets(DaemonKey(j))
    ensures j < |states[n].sessions|
    ensures var c, t := states[n].clients[k], states[n].sessions[j];
            && c.pending.rendezvous == t.rendezvous && c.pending.secret == SecretOctets(j)
            && exists r :: r in t.ran
                           && r.hs1.ephPub == PublicOctets(ClientKey(k))
                           && DaemonRun(j, t.rendezvous, r).Some?
                           && Mirror(ClientEnds(c), DaemonRun(j, t.rendezvous, r).value.0)
                           && ((c.pending.nonce == r.hs1.nonce && c.phase.hs2.nonce == r.nD)
                               <==> |r.hs1.nonce| == 16)
  {
    var s := states[n];
    RunInvariant(states, steps, n);
    var c := s.clients[k];
    ClientFacts(s, k);
    HonestPairIsUnknown(k, c, j, s.leaked);
    var j': nat, r :| ConfirmedBy(s, j', r, c.phase.hs2.mac);
    var t := s.sessions[j'];
    assert SessionOk(j', t);
    FinishAgrees(c.pending, c.phase.hs2, DaemonKey(j'), t.rendezvous, SecretOctets(j'), r.hs1, r.nD);
    assert PublicOctets(DaemonKey(j))[0] == PublicOctets(DaemonKey(j'))[0];
  }

  /** The answer decides a client's one attempt: it is established on the accepted ends, or it gives up. */
  lemma Hs2Decides(s: State, k: nat, hs2: HandshakeMsg)
    requires Enabled(s, ReceiveHs2(k, hs2))
    ensures var c, c' := s.clients[k], Apply(s, ReceiveHs2(k, hs2)).clients[k];
            && (c.phase.Awaiting? && Finish(c.pending, hs2).Some? ==>
                  c' == c.(phase := Established(hs2, Channel(Finish(c.pending, hs2).value, 0, 0))))
            && (c.phase.Awaiting? && Finish(c.pending, hs2).None? ==> c' == c.(phase := Aborted))
            && (!c.phase.Awaiting? ==> c' == c)
  {
  }

  /** What became of an attempt stays: given up for good, or established on the same ends. */
  predicate PhaseStays(a: Phase, b: Phase) {
    && (a.Aborted? ==> b.Aborted?)
    && (a.Established? ==> b.Established? && b.hs2 == a.hs2 && b.ch.ends == a.ch.ends)
  }

  lemma StepKeepsPhase(s: State, step: Step, k: nat)
    requires Enabled(s, step) && k < |s.clients|
    ensures k < |Apply(s, step).clients| && PhaseStays(s.clients[k].phase, Apply(s, step).clients[k].phase)
  {
  }

  /** In every run a client decides once: a client that gave up stays so, and an established one keeps its ends. */
  lemma {:induction false} AttemptIsFinal(states: seq<State>, steps: seq<Step>, i: nat, n: nat, k: nat)
    requires IsRun(states, steps) && i <= n < |states| && k < |states[i].clients|
    ensures k < |states[n].clients| && PhaseStays(states[i].clients[k].phase, states[n].clients[k].phase)
    decreases n - i
  {
    if i < n {
      AttemptIsFinal(states, steps, i, n - 1, k);
      StepKeepsPhase(states[n - 1], steps[n - 1], k);
    }
  }

  // ---- what a leaked secret gives away ----

  lemma KnowsConcat(leaked: set<nat>, a: Octets, b: Octets)
    requires KnowsOctets(leaked, a) && KnowsOctets(leaked, b)
    ensures KnowsOctets(leaked, a + b)
  {
  }

  /** The relay in the client's place: its own key pair and the connect secret that leaked. */
  function RelayRan(): Ran {
    Ran(HandshakeMsg("client", PublicOctets(AdversaryKey(0)), [Raw(0)], None), seq(16, i => Raw(0)))
  }

  lemma RelayKnowsTranscript(rendezvous: string)
    ensures KnowsOctets({0}, Transcript(rendezvous, PublicOctets(DaemonKey(0)), PublicOctets(AdversaryKey(0)),
                                        RelayRan().hs1.nonce, RelayRan().nD, SecretOctets(0)))
  {
    var head := StringOctets(TRANSCRIPT_PREFIX) + StringOctets(rendezvous);
    KnowsConcat({0}, StringOctets(TRANSCRIPT_PREFIX), StringOctets(rendezvous));
    KnowsConcat({0}, head, PublicOctets(DaemonKey(0)));
    var keys := head + PublicOctets(DaemonKey(0)) + PublicOctets(AdversaryKey(0));
    KnowsConcat({0}, head + PublicOctets(DaemonKey(0)), PublicOctets(AdversaryKey(0)));
    KnowsConcat({0}, keys, RelayRan().hs1.nonce);
    KnowsConcat({0}, keys + RelayRan().hs1.nonce, RelayRan().nD);
    KnowsConcat({0}, keys + RelayRan().hs1.nonce + RelayRan().nD, SecretOctets(0));
  }

  /** The record a relay that holds the session's receiving key can make for any request. */
  function Forged(e: Ends, req: Request): Record<Message> {
    Record(0, Sealed(e.recvKey, Nonce(e.recvPrefix, 0), Aad(e.recvDir, 0, e.transcript), Req(1, req)))
  }

  lemma RelayRuns(rendezvous: string)
    ensures var out := DaemonRun(0, rendezvous, RelayRan());
            out.Some? && KnowsKey({0}, out.value.0.recvKey) && |RelayRan().nD| == 16
  {
    assert ParsePublic(PublicOctets(AdversaryKey(0))) == Some(AdversaryKey(0));
    RelayKnowsTranscript(rendezvous);
  }

  /**
   Why the connect secret matters: once it leaks, there is a run in which the daemon dispatches
   any request the relay likes, although no client ever started.
   */
  lemma LeakedSecretLetsRelayIn(rendezvous: string, req: Request, resp: Response)
    returns (states: seq<State>, steps: seq<Step>)
    ensures IsRun(states, steps) && |states| == 5
    ensures states[4].clients == [] && states[4].leaked == {0} && |states[4].sessions| == 1
    ensures RequestsOf(states[4].sessions[0].dispatched) == [req]
  {
    RelayRuns(rendezvous);
    var ends := DaemonRun(0, rendezvous, RelayRan()).value.0;
    var s1 := Apply(Init, OpenSession(rendezvous));
    var s2 := Apply(s1, LeakSecret(0));
    var s3 := Apply(s2, ReceiveHs1(0, RelayRan(), true));
    var rec := Forged(ends, req);
    assert s3.sessions[0].channel == Some(Live(RelayRan(), Channel(ends, 0, 0)));
    assert s3.leaked == {0} && CanInject(s3, rec);
    var s4 := Apply(s3, ReceiveData(0, rec, resp));
    steps := [OpenSession(rendezvous), LeakSecret(0), ReceiveHs1(0, RelayRan(), true), ReceiveData(0, rec, resp)];
    states := [Init, s1, s2, s3, s4];
  }

  /** In every run, no key is ever used to seal twice under one nonce. */
  lemma NoNonceReuse(states: seq<State>, steps: seq<Step>, n: nat, a: nat, b: nat)
    requires IsRun(states, steps) && n < |states| && NoWrap(states[n])
    requires a < b < |states[n].seals|
    ensures states[n].seals[a].key != states[n].seals[b].key || states[n].seals[a].nonce != states[n].seals[b].nonce
  {
    var s := states[n];
    RunInvariant(states, steps, n);
    var x, y := s.seals[a], s.seals[b];
    assert SealOk(s, x) && SealOk(s, y);
    if x.key == y.key {
      SealerIsUnique(s, x, y);
      assert x.index < y.index < U64;
      assert x.index % U64 == x.index && y.index % U64 == y.index;
    }
  }

  lemma SealerIsUnique(s: State, x: SealEvent, y: SealEvent)
    requires Structure(s) && NoWrap(s) && SealOk(s, x) && SealOk(s, y) && x.key == y.key
    ensures x.party == y.party && y.index < U64
  {
    SealPurpose(s, x);
    SealPurpose(s, y);
    match (x.party, y.party)
    case (ByClient(k1), ByClient(k2)) => ClientKeysDiffer(s, k1, k2);
    case (ByDaemon(j1), ByDaemon(j2)) => SessionKeysDiffer(s, j1, j2);
    case _ =>
  }

  lemma SealPurpose(s: State, e: SealEvent)
    requires Structure(s) && NoWrap(s) && SealOk(s, e)
    ensures e.key.purpose == (if e.party.ByClient? then KeyC2D else KeyD2C)
    ensures e.index < U64
  {
  }

  /** The transcript names the client's ephemeral key, so two clients never share a key. */
  lemma ClientKeysDiffer(s: State, k1: nat, k2: nat)
    requires Structure(s) && k1 < |s.clients| && k2 < |s.clients|
    requires s.clients[k1].phase.Established? && s.clients[k2].phase.Established?
    requires ClientEnds(s.clients[k1]).sendKey == ClientEnds(s.clients[k2]).sendKey
    ensures k1 == k2
  {
    var c1, c2 := s.clients[k1], s.clients[k2];
    assert ClientOk(k1, c1) && ClientOk(k2, c2);
    var p1, p2 := c1.pending, c2.pending;
    TranscriptDetermines(p1.rendezvous, ParsePublic(p1.daemonPub).value, p1.eph, p1.nonce, c1.phase.hs2.nonce, p1.secret,
                         p2.rendezvous, ParsePublic(p2.daemonPub).value, p2.eph, p2.nonce, c2.phase.hs2.nonce, p2.secret);
  }

  /** The transcript names the daemon's per-session key, so two sessions never share a key. */
  lemma SessionKeysDiffer(s: State, j1: nat, j2: nat)
    requires Structure(s) && j1 < |s.sessions| && j2 < |s.sessions|
    requires s.sessions[j1].channel.Some? && s.sessions[j2].channel.Some?
    requires SessionEnds(s.sessions[j1]).sendKey == SessionEnds(s.sessions[j2]).sendKey
    ensures j1 == j2
  {
    var t1, t2 := s.sessions[j1], s.sessions[j2];
    assert SessionOk(j1, t1) && SessionOk(j2, t2);
    var r1, r2 := t1.channel.value.ran, t2.channel.value.ran;
    TranscriptDetermines(t1.rendezvous, DaemonKey(j1), ParsePublic(r1.hs1.ephPub).value, r1.hs1.nonce, r1.nD, SecretOctets(j1),
                         t2.rendezvous, DaemonKey(j2), ParsePublic(r2.hs1.ephPub).value, r2.hs1.nonce, r2.nD, SecretOctets(j2));
  }

  /** The record `Call` seals for its next request, and the one the daemon seals in answer. */
  function CallRecord(c: Client, req: Request): Record<Message>
    requires c.phase.Established?
  {
    Seal(c.phase.ch, Req(|c.sent| + 1, req)).1
  }

  function ReplyRecord(t: Session, id: nat, resp: Response): Record<Message>
    requires t.channel.Some?
  {
    Seal(t.channel.value.ch, Resp(id, resp)).1
  }

  /** Client `k` and session `j` mirror each other and neither receiver is ahead of its sender. */
  predicate InStep(c: Client, t: Session) {
    && MirrorsClient(t, c)
    && c.phase.ch.sendCtr == |c.sent| && t.channel.value.ch.sendCtr == |t.dispatched|
    && t.channel.value.ch.recvCtr <= |c.sent| && c.phase.ch.recvCtr <= |t.dispatched|
  }

  /**
   In every reachable state, a call between mirror-image ends completes under a relay that
   forwards the two frames: the daemon dispatches exactly this request and the call returns
   exactly its response.
   */
  lemma FaithfulRelayCompletesCall(states: seq<State>, steps: seq<Step>, n: nat, k: nat, j: nat,
                                   req: Request, resp: Response)
    requires IsRun(states, steps) && n < |states| && NoWrap(states[n])
    requires k < |states[n].clients| && j < |states[n].sessions|
    requires MirrorsClient(states[n].sessions[j], states[n].clients[k]) && !states[n].clients[k].calling
    requires states[n].clients[k].pending.daemonPub == PublicOctets(DaemonKey(j))
    requires |states[n].clients[k].sent| + 1 < U64
    ensures CallCompletes(states[n], k, j, req, resp)
  {
    RunInvariant(states, steps, n);
    CountersInStep(states[n], k, j);
    InStepCompletes(states[n], k, j, req, resp);
  }

  /** Call, dispatch and reply are possible in this order and do what they should. */
  ghost predicate CallCompletes(s: State, k: nat, j: nat, req: Request, resp: Response)
    requires k < |s.clients| && j < |s.sessions| && s.clients[k].phase.Established? && s.sessions[j].channel.Some?
  {
    var c, t := s.clients[k], s.sessions[j];
    var call, reply := CallRecord(c, req), ReplyRecord(t, |c.sent| + 1, resp);
    && Enabled(s, StartCall(k, req))
    && var s1 := Apply(s, StartCall(k, req));
    && Enabled(s1, ReceiveData(j, call, resp))
    && var s2 := Apply(s1, ReceiveData(j, call, resp));
    && s2.sessions[j].dispatched == t.dispatched + [Dispatch(call.ctr, |c.sent| + 1, req, resp)]
    && Enabled(s2, ReceiveReply(k, reply))
    && var s3 := Apply(s2, ReceiveReply(k, reply));
    s3.clients[k].returned == c.returned + [Return(|c.sent| + 1, resp)] && !s3.clients[k].calling
  }

  lemma InStepCompletes(s: State, k: nat, j: nat, req: Request, resp: Response)
    requires k < |s.clients| && j < |s.sessions| && InStep(s.clients[k], s.sessions[j]) && !s.clients[k].calling
    requires |s.clients[k].sent| + 1 < U64
    ensures CallCompletes(s, k, j, req, resp)
  {
    var c, t := s.clients[k], s.sessions[j];
    var call, reply := CallRecord(c, req), ReplyRecord(t, |c.sent| + 1, resp);
    CallReachesDaemon(s, k, j, req, resp);
    var s2 := OnData(OnCall(s, k, req), j, call, resp);
    ReplyReachesClient(s2, k, reply, resp);
  }

  lemma CallReachesDaemon(s: State, k: nat, j: nat, req: Request, resp: Response)
    requires k < |s.clients| && j < |s.sessions| && InStep(s.clients[k], s.sessions[j]) && !s.clients[k].calling
    requires |s.clients[k].sent| + 1 < U64
    ensures var c, t := s.clients[k], s.sessions[j];
            var call := CallRecord(c, req);
            var s1 := OnCall(s, k, req);
            && CanInject(s1, call)
            && var s2 := OnData(s1, j, call, resp);
            && s2.sessions[j].dispatched == t.dispatched + [Dispatch(call.ctr, |c.sent| + 1, req, resp)]
            && s2.clients == s1.clients
            && CanInject(s2, ReplyRecord(t, |c.sent| + 1, resp))
            && Open(s2.clients[k].phase.ch, ReplyRecord(t, |c.sent| + 1, resp)).1 == Some(Resp(|c.sent| + 1, resp))
  {
    var t := s.sessions[j];
    var call := CallRecord(s.clients[k], req);
    var s1 := OnCall(s, k, req);
    assert call.body in s1.bodies && s1.sessions[j] == t;
    assert Open(t.channel.value.ch, call).1 == Some(Req(|s.clients[k].sent| + 1, req));
  }

  lemma ReplyReachesClient(s: State, k: nat, reply: Record<Message>, resp: Response)
    requires Enabled(s, ReceiveReply(k, reply))
    requires Open(s.clients[k].phase.ch, reply).1 == Some(Resp(|s.clients[k].sent|, resp))
    ensures var c, c' := s.clients[k], OnReply(s, k, reply).clients[k];
            c'.returned == c.returned + [Return(|c.sent|, resp)] && !c'.calling
  {
  }

  /** In reachable states the sending counters count what was sent, and nobody reads ahead. */
  lemma CountersInStep(s: State, k: nat, j: nat)
    requires Inv(s) && NoWrap(s) && k < |s.clients| && j < |s.sessions|
    requires MirrorsClient(s.sessions[j], s.clients[k])
    requires s.clients[k].pending.daemonPub == PublicOctets(DaemonKey(j))
    ensures InStep(s.clients[k], s.sessions[j])
  {
    var c, t := s.clients[k], s.sessions[j];
    ClientFacts(s, k);
    SessionFacts(s, j);
    HonestPairIsUnknown(k, c, j, s.leaked);
    MirrorSharesSecrets(k, c, j, t);
    DaemonNotAhead(s, k, j);
    ClientNotAhead(s, k, j);
    SmallCount(|c.sent|);
    SmallCount(|t.dispatched|);
  }

  lemma SmallCount(n: nat)
    requires n < U64
    ensures n % U64 == n
  {
  }

  lemma DaemonNotAhead(s: State, k: nat, j: nat)
    requires Structure(s) && k < |s.clients| && j < |s.sessions|
    requires MirrorsClient(s.sessions[j], s.clients[k]) && AuthenticSession(s, s.sessions[j])
    requires !KnowsKey(s.leaked, ClientEnds(s.clients[k]).recvKey)
    ensures s.sessions[j].channel.value.ch.recvCtr <= |s.clients[k].sent|
  {
    var t := s.sessions[j];
    MirrorSharesSecrets(k, s.clients[k], j, t);
    if t.dispatched != [] {
      DispatchIsOwnCall(s, j, k, |t.dispatched| - 1);
    }
  }

  lemma ClientNotAhead(s: State, k: nat, j: nat)
    requires Structure(s) && k < |s.clients| && j < |s.sessions|
    requires MirrorsClient(s.sessions[j], s.clients[k]) && HeardBySome(s, s.clients[k])
    requires s.clients[k].pending.daemonPub == PublicOctets(DaemonKey(j))
    ensures s.clients[k].phase.ch.recvCtr <= |s.sessions[j].dispatched|
  {
    var c := s.clients[k];
    if c.phase.ch.recvCtr != 0 {
      var j' :| 0 <= j' < |s.sessions| && MirrorsClient(s.sessions[j'], c)
                && c.phase.ch.recvCtr <= |s.sessions[j'].dispatched|;
      MirrorNamesTheDaemon(s, j', k, j);
    }
  }
}
