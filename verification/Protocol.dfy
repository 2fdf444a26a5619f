/**
 The reflector protocol as a state machine: any number of daemon sessions and external
 clients, joined only by a relay that may drop, repeat, reorder, splice and inject frames.
 The relay also owns key pairs of its own and may learn connect secrets.
 */
module Protocol {
  import opened Wrappers
  import opened SymbolicCrypto
  import opened RecordLayer
  import opened Handshake

  type Request = string
  type Response = string

  /** The plaintext of a data record; call ids are written by their number. */
  datatype Message = Req(id: nat, req: Request) | Resp(id: nat, resp: Response) | OtherMessage

  /** A handshake the daemon ran: the HS1 it was given and the nonce it answered with. */
  datatype Ran = Ran(hs1: HandshakeMsg, nD: Octets)

  datatype Live = Live(ran: Ran, ch: Channel)

  /** One request the daemon executed, with the counter and id it arrived under. */
  datatype Dispatch = Dispatch(ctr: Counter, id: nat, req: Request, resp: Response)

  /** A daemon session; session `j` owns `DaemonKey(j)` and the connect secret `j`. */
  datatype Session = Session(rendezvous: string, ran: set<Ran>, channel: Option<Live>,
                             dispatched: seq<Dispatch>)

  datatype Phase = Awaiting | Established(hs2: HandshakeMsg, ch: Channel) | Aborted

  datatype Return = Return(id: nat, resp: Response)

  /** An external client; client `k` owns `ClientKey(k)` and numbers its calls from 1. */
  datatype Client = Client(pending: ClientPending, phase: Phase, sent: seq<Request>,
                           calling: bool, returned: seq<Return>)

  datatype Party = ByDaemon(j: nat) | ByClient(k: nat)

  datatype SealEvent = SealEvent(party: Party, index: nat, key: Key, nonce: Nonce)

  /** `macs` and `bodies` are everything honest parties ever put on the wire. */
  datatype State = State(sessions: seq<Session>, clients: seq<Client>,
                         macs: set<Mac>, bodies: set<Ciphertext<Message>>,
                         seals: seq<SealEvent>, leaked: set<nat>)

  const Init: State := State([], [], {}, {}, [], {})

  // ---- the relay ----

  /** A MAC the relay can present: one it saw, or one under a key it can compute. */
  predicate CanPresent(s: State, hs: HandshakeMsg) {
    hs.mac.Some? ==> hs.mac.value in s.macs || KnowsKey(s.leaked, hs.mac.value.key)
  }

  /** A record body the relay can present, glued to any counter it likes. */
  predicate CanInject(s: State, rec: Record<Message>) {
    rec.Record? && rec.body.Sealed? ==> rec.body in s.bodies || KnowsKey(s.leaked, rec.body.key)
  }

  // ---- the daemon ----

  function DaemonRun(j: nat, rendezvous: string, r: Ran): Option<(Ends, HandshakeMsg)> {
    DaemonHandshake(DaemonKey(j), rendezvous, SecretOctets(j), r.hs1, r.nD)
  }

  /** The session after an HS1 frame, and the HS2 it answers with; a second HS1 is ignored. */
  function SessionOnHs1(j: nat, t: Session, r: Ran, sendOk: bool): (Session, Option<HandshakeMsg>) {
    var out := DaemonRun(j, t.rendezvous, r);
    if t.channel.Some? || out.None? then (t, None)
    else
      (t.(ran := t.ran + {r}, channel := if sendOk then Some(Live(r, Channel(out.value.0, 0, 0))) else None),
       Some(out.value.1))
  }

  /** The session after a data frame, and the sealed reply when the frame was a request. */
  function SessionOnData(t: Session, rec: Record<Message>, resp: Response): (Session, Option<Record<Message>>) {
    if t.channel.None? then (t, None)
    else
      var live := t.channel.value;
      var (ch1, pt) := Open(live.ch, rec);
      if pt.None? then (t, None)
      else if !pt.value.Req? then (t.(channel := Some(live.(ch := ch1))), None)
      else
        var (ch2, reply) := Seal(ch1, Resp(pt.value.id, resp));
        (t.(channel := Some(live.(ch := ch2)),
            dispatched := t.dispatched + [Dispatch(rec.ctr, pt.value.id, pt.value.req, resp)]),
         Some(reply))
  }

  function OnHs1(s: State, j: nat, r: Ran, sendOk: bool): State
    requires j < |s.sessions|
  {
    var (t', hs2) := SessionOnHs1(j, s.sessions[j], r, sendOk);
    s.(sessions := s.sessions[j := t'],
       macs := if hs2.Some? then s.macs + {hs2.value.mac.value} else s.macs)
  }

  function OnData(s: State, j: nat, rec: Record<Message>, resp: Response): State
    requires j < |s.sessions|
  {
    var t := s.sessions[j];
    var (t', reply) := SessionOnData(t, rec, resp);
    if reply.None? then s.(sessions := s.sessions[j := t'])
    else
      s.(sessions := s.sessions[j := t'], bodies := s.bodies + {reply.value.body},
         seals := s.seals + [SealEvent(ByDaemon(j), |t.dispatched|, reply.value.body.key, reply.value.body.nonce)])
  }

  // ---- the client ----

  function OnHs2(s: State, k: nat, hs2: HandshakeMsg): State
    requires k < |s.clients|
  {
    var c := s.clients[k];
    if !c.phase.Awaiting? then s
    else
      var ends := Finish(c.pending, hs2);
      var phase := if ends.Some? then Established(hs2, Channel(ends.value, 0, 0)) else Aborted;
      s.(clients := s.clients[k := c.(phase := phase)])
  }

  /** The client after sealing its next call, and the record it sends. */
  function ClientOnCall(c: Client, req: Request): (Client, Record<Message>)
    requires c.phase.Established?
  {
    var (ch1, rec) := Seal(c.phase.ch, Req(|c.sent| + 1, req));
    (c.(phase := c.phase.(ch := ch1), sent := c.sent + [req], calling := true), rec)
  }

  /** The client after one fetched data frame while a call is waiting. */
  function ClientOnReply(c: Client, rec: Record<Message>): Client
    requires c.phase.Established?
  {
    var (ch1, pt) := Open(c.phase.ch, rec);
    if pt.None? then c
    else
      var c1 := c.(phase := c.phase.(ch := ch1));
      if pt.value.Resp? && pt.value.id == |c.sent|
      then c1.(calling := false, returned := c.returned + [Return(pt.value.id, pt.value.resp)])
      else c1
  }

  function OnCall(s: State, k: nat, req: Request): State
    requires k < |s.clients| && s.clients[k].phase.Established? && !s.clients[k].calling
  {
    var (c', rec) := ClientOnCall(s.clients[k], req);
    s.(clients := s.clients[k := c'], bodies := s.bodies + {rec.body},
       seals := s.seals + [SealEvent(ByClient(k), |s.clients[k].sent|, rec.body.key, rec.body.nonce)])
  }

  function OnReply(s: State, k: nat, rec: Record<Message>): State
    requires k < |s.clients| && s.clients[k].phase.Established? && s.clients[k].calling
  {
    s.(clients := s.clients[k := ClientOnReply(s.clients[k], rec)])
  }

  // ---- runs ----

  datatype Step =
    | OpenSession(rendezvous: string)
    | LeakSecret(j: nat)
    | ReceiveHs1(j: nat, ran: Ran, sendOk: bool)
    | ReceiveData(j: nat, rec: Record<Message>, resp: Response)
    | StartClient(pending: ClientPending)
    | ReceiveHs2(k: nat, hs2: HandshakeMsg)
    | StartCall(k: nat, req: Request)
    | ReceiveReply(k: nat, rec: Record<Message>)
    | AbandonCall(k: nat)

  predicate Enabled(s: State, step: Step) {
    match step
    case OpenSession(_) => true
    case LeakSecret(_) => true
    case ReceiveHs1(j, ran, _) => j < |s.sessions| && |ran.nD| == NONCE_LENGTH && CanPresent(s, ran.hs1)
    case ReceiveData(j, rec, _) => j < |s.sessions| && CanInject(s, rec)
    case StartClient(p) => p.eph == ClientKey(|s.clients|) && |p.nonce| == NONCE_LENGTH
    case ReceiveHs2(k, hs2) => k < |s.clients| && CanPresent(s, hs2)
    case StartCall(k, _) => k < |s.clients| && s.clients[k].phase.Established? && !s.clients[k].calling
    case ReceiveReply(k, rec) =>
      k < |s.clients| && s.clients[k].phase.Established? && s.clients[k].calling && CanInject(s, rec)
    case AbandonCall(k) => k < |s.clients|
  }

  function Apply(s: State, step: Step): State
    requires Enabled(s, step)
  {
    match step
    case OpenSession(rendezvous) => s.(sessions := s.sessions + [Session(rendezvous, {}, None, [])])
    case LeakSecret(j) => s.(leaked := s.leaked + {j})
    case ReceiveHs1(j, ran, sendOk) => OnHs1(s, j, ran, sendOk)
    case ReceiveData(j, rec, resp) => OnData(s, j, rec, resp)
    case StartClient(p) => s.(clients := s.clients + [Client(p, Awaiting, [], false, [])])
    case ReceiveHs2(k, hs2) => OnHs2(s, k, hs2)
    case StartCall(k, req) => OnCall(s, k, req)
    case ReceiveReply(k, rec) => OnReply(s, k, rec)
    case AbandonCall(k) => s.(clients := s.clients[k := s.clients[k].(calling := false)])
  }

  ghost predicate IsRun(states: seq<State>, steps: seq<Step>) {
    && |states| == |steps| + 1
    && states[0] == Init
    && forall i :: 0 <= i < |steps| ==> Enabled(states[i], steps[i]) && states[i + 1] == Apply(states[i], steps[i])
  }

  /** No end of a channel has sealed 2^64 records, so no counter has wrapped. */
  predicate NoWrap(s: State) {
    && (forall j :: 0 <= j < |s.sessions| ==> |s.sessions[j].dispatched| < U64)
    && (forall k :: 0 <= k < |s.clients| ==> |s.clients[k].sent| < U64)
  }

  // ---- the invariant ----

  function SessionEnds(t: Session): Ends
    requires t.channel.Some?
  {
    t.channel.value.ch.ends
  }

  function ClientEnds(c: Client): Ends
    requires c.phase.Established?
  {
    c.phase.ch.ends
  }

  predicate SessionOk(j: nat, t: Session) {
    && (forall r :: r in t.ran ==> DaemonRun(j, t.rendezvous, r).Some? && |r.nD| == NONCE_LENGTH)
    && (t.channel.None? ==> t.dispatched == [])
    && (t.channel.Some? ==>
          var live := t.channel.value;
          && live.ran in t.ran
          && live.ch.ends == DaemonRun(j, t.rendezvous, live.ran).value.0
          && live.ch.sendCtr == |t.dispatched| % U64)
  }

  predicate ClientOk(k: nat, c: Client) {
    && c.pending.eph == ClientKey(k)
    && |c.pending.nonce| == NONCE_LENGTH
    && (!c.phase.Established? ==> c.sent == [] && c.returned == [] && !c.calling)
    && (c.phase.Established? ==>
          && Finish(c.pending, c.phase.hs2) == Some(ClientEnds(c))
          && c.phase.ch.sendCtr == |c.sent| % U64)
    && (forall i :: 0 <= i < |c.returned| ==> 1 <= c.returned[i].id <= |c.sent|)
    && (c.calling ==> 0 < |c.sent| && forall i :: 0 <= i < |c.returned| ==> c.returned[i].id < |c.sent|)
    && (forall i, j :: 0 <= i < j < |c.returned| ==> c.returned[i].id < c.returned[j].id)
  }

  /** Dispatch `d` of session `t` is client `c`'s own call number `d.ctr + 1`. */
  predicate IsCallOf(d: Dispatch, c: Client) {
    d.ctr < |c.sent| && d.id == d.ctr + 1 && d.req == c.sent[d.ctr]
  }

  predicate Increasing(ds: seq<Dispatch>) {
    forall i, j :: 0 <= i < j < |ds| ==> ds[i].ctr < ds[j].ctr
  }

  /** On a channel whose key the relay cannot compute, every dispatch is a call of one client. */
  predicate AuthenticSession(s: State, t: Session) {
    t.channel.Some? && !KnowsKey(s.leaked, SessionEnds(t).recvKey) ==>
      && Increasing(t.dispatched)
      && t.channel.value.ch.recvCtr == (if t.dispatched == [] then 0 else t.dispatched[|t.dispatched| - 1].ctr + 1)
      && (t.dispatched != [] ==>
            exists k :: 0 <= k < |s.clients| && AllCallsOf(t, s.clients[k]))
  }

  predicate AllCallsOf(t: Session, c: Client) {
    MirrorsClient(t, c) && forall i :: 0 <= i < |t.dispatched| ==> IsCallOf(t.dispatched[i], c)
  }

  predicate MirrorsClient(t: Session, c: Client) {
    t.channel.Some? && c.phase.Established? && Mirror(ClientEnds(c), SessionEnds(t))
  }

  predicate Answers(d: Dispatch, r: Return, c: Client) {
    1 <= r.id <= |c.sent| && d.id == r.id && d.resp == r.resp && d.req == c.sent[r.id - 1]
  }

  predicate AnsweredBySome(s: State, c: Client, r: Return) {
    exists j, i :: 0 <= j < |s.sessions| && 0 <= i < |s.sessions[j].dispatched|
                   && MirrorsClient(s.sessions[j], c) && Answers(s.sessions[j].dispatched[i], r, c)
  }

  ghost predicate AuthenticClient(s: State, c: Client) {
    c.phase.Established? && !KnowsKey(s.leaked, ClientEnds(c).recvKey) ==>
      && (exists j, r :: ConfirmedBy(s, j, r, c.phase.hs2.mac))
      && (forall i :: 0 <= i < |c.returned| ==> AnsweredBySome(s, c, c.returned[i]))
      && HeardBySome(s, c)
  }

  /** The client's receive counter never runs ahead of what its daemon sealed. */
  predicate HeardBySome(s: State, c: Client)
    requires c.phase.Established?
  {
    c.phase.ch.recvCtr == 0 ||
    exists j :: 0 <= j < |s.sessions| && MirrorsClient(s.sessions[j], c)
                && c.phase.ch.recvCtr <= |s.sessions[j].dispatched|
  }

  predicate ConfirmedBy(s: State, j: nat, r: Ran, m: Option<Mac>) {
    && j < |s.sessions| && r in s.sessions[j].ran
    && DaemonRun(j, s.sessions[j].rendezvous, r).Some?
    && DaemonRun(j, s.sessions[j].rendezvous, r).value.1.mac == m
  }

  predicate SentBody(s: State, k: nat, i: nat, body: Ciphertext<Message>) {
    && k < |s.clients| && s.clients[k].phase.Established? && i < |s.clients[k].sent|
    && body == Encrypt(ClientEnds(s.clients[k]), i % U64, Req(i + 1, s.clients[k].sent[i]))
  }

  predicate ReplyBody(s: State, j: nat, i: nat, body: Ciphertext<Message>) {
    && j < |s.sessions| && s.sessions[j].channel.Some? && i < |s.sessions[j].dispatched|
    && var d := s.sessions[j].dispatched[i];
       body == Encrypt(SessionEnds(s.sessions[j]), i % U64, Resp(d.id, d.resp))
  }

  predicate SealOk(s: State, e: SealEvent) {
    match e.party
    case ByClient(k) =>
      && k < |s.clients| && s.clients[k].phase.Established? && e.index < |s.clients[k].sent|
      && e.key == ClientEnds(s.clients[k]).sendKey
      && e.nonce == Nonce(ClientEnds(s.clients[k]).sendPrefix, e.index % U64)
    case ByDaemon(j) =>
      && j < |s.sessions| && s.sessions[j].channel.Some? && e.index < |s.sessions[j].dispatched|
      && e.key == SessionEnds(s.sessions[j]).sendKey
      && e.nonce == Nonce(SessionEnds(s.sessions[j]).sendPrefix, e.index % U64)
  }

  ghost predicate Structure(s: State) {
    && (forall j :: 0 <= j < |s.sessions| ==> SessionOk(j, s.sessions[j]))
    && (forall k :: 0 <= k < |s.clients| ==> ClientOk(k, s.clients[k]))
  }

  ghost predicate Provenance(s: State) {
    && (forall m :: m in s.macs ==> exists j, r :: ConfirmedBy(s, j, r, Some(m)))
    && (forall b :: b in s.bodies ==> (exists k, i :: SentBody(s, k, i, b)) || (exists j, i :: ReplyBody(s, j, i, b)))
  }

  ghost predicate SealLog(s: State) {
    && (forall i :: 0 <= i < |s.seals| ==> SealOk(s, s.seals[i]))
    && (forall i, j :: 0 <= i < j < |s.seals| && s.seals[i].party == s.seals[j].party ==>
          s.seals[i].index < s.seals[j].index)
  }

  ghost predicate Authentic(s: State) {
    && (forall j :: 0 <= j < |s.sessions| ==> AuthenticSession(s, s.sessions[j]))
    && (forall k :: 0 <= k < |s.clients| ==> AuthenticClient(s, s.clients[k]))
  }

  ghost predicate Inv(s: State) {
    Structure(s) && Provenance(s) && SealLog(s) && Authentic(s)
  }

  // ---- history only grows ----

  predicate SessionGrows(t: Session, t': Session) {
    && t'.rendezvous == t.rendezvous && t.ran <= t'.ran && t.dispatched <= t'.dispatched
    && (t.channel.Some? ==> t'.channel.Some? && SessionEnds(t') == SessionEnds(t))
  }

  predicate ClientGrows(c: Client, c': Client) {
    && c'.pending == c.pending && c.sent <= c'.sent && c.returned <= c'.returned
    && (c.phase.Established? ==>
          c'.phase.Established? && c'.phase.hs2 == c.phase.hs2 && ClientEnds(c') == ClientEnds(c))
  }

  ghost predicate Grows(s: State, s': State) {
    && |s.sessions| <= |s'.sessions| && |s.clients| <= |s'.clients| && s.leaked <= s'.leaked
    && (forall j :: 0 <= j < |s.sessions| ==> SessionGrows(s.sessions[j], s'.sessions[j]))
    && (forall k :: 0 <= k < |s.clients| ==> ClientGrows(s.clients[k], s'.clients[k]))
  }

  lemma StepGrows(s: State, step: Step)
    requires Enabled(s, step)
    ensures Grows(s, Apply(s, step))
  {
  }

  lemma NoWrapEarlier(s: State, s': State)
    requires Grows(s, s') && NoWrap(s')
    ensures NoWrap(s)
  {
    forall j | 0 <= j < |s.sessions| ensures |s.sessions[j].dispatched| < U64 {
      assert SessionGrows(s.sessions[j], s'.sessions[j]);
      assert |s'.sessions[j].dispatched| < U64;
    }
    forall k | 0 <= k < |s.clients| ensures |s.clients[k].sent| < U64 {
      assert ClientGrows(s.clients[k], s'.clients[k]);
      assert |s'.clients[k].sent| < U64;
    }
  }

  // ---- structure ----

  lemma CounterAdvances(n: nat)
    ensures (n % U64 + 1) % U64 == (n + 1) % U64
  {
  }

  lemma Hs1Structure(s: State, j: nat, r: Ran, sendOk: bool)
    requires Structure(s) && j < |s.sessions| && |r.nD| == NONCE_LENGTH
    ensures Structure(OnHs1(s, j, r, sendOk))
  {
    var s' := OnHs1(s, j, r, sendOk);
    assert SessionOk(j, s.sessions[j]);
    assert SessionOk(j, s'.sessions[j]);
  }

  lemma DataStructure(s: State, j: nat, rec: Record<Message>, resp: Response)
    requires Structure(s) && j < |s.sessions|
    ensures Structure(OnData(s, j, rec, resp))
  {
    var s' := OnData(s, j, rec, resp);
    assert SessionOk(j, s.sessions[j]);
    CounterAdvances(|s.sessions[j].dispatched|);
    assert SessionOk(j, s'.sessions[j]);
  }

  lemma CallStructure(s: State, k: nat, req: Request)
    requires Structure(s) && Enabled(s, StartCall(k, req))
    ensures Structure(OnCall(s, k, req))
  {
    var s' := OnCall(s, k, req);
    assert ClientOk(k, s.clients[k]);
    CounterAdvances(|s.clients[k].sent|);
    assert ClientOk(k, s'.clients[k]);
  }

  lemma ReplyStructure(s: State, k: nat, rec: Record<Message>)
    requires Structure(s) && Enabled(s, ReceiveReply(k, rec))
    ensures Structure(OnReply(s, k, rec))
  {
    var s' := OnReply(s, k, rec);
    assert ClientOk(k, s.clients[k]);
    assert ClientOk(k, s'.clients[k]);
  }

  lemma Hs2Structure(s: State, k: nat, hs2: HandshakeMsg)
    requires Structure(s) && k < |s.clients|
    ensures Structure(OnHs2(s, k, hs2))
  {
    var s' := OnHs2(s, k, hs2);
    assert ClientOk(k, s.clients[k]);
    assert ClientOk(k, s'.clients[k]);
  }

  lemma StructurePreserved(s: State, step: Step)
    requires Structure(s) && Enabled(s, step)
    ensures Structure(Apply(s, step))
  {
    match step
    case OpenSession(_) =>
    case LeakSecret(_) =>
    case ReceiveHs1(j, ran, sendOk) => Hs1Structure(s, j, ran, sendOk);
    case ReceiveData(j, rec, resp) => DataStructure(s, j, rec, resp);
    case StartClient(_) =>
    case ReceiveHs2(k, hs2) => Hs2Structure(s, k, hs2);
    case StartCall(k, req) => CallStructure(s, k, req);
    case ReceiveReply(k, rec) => ReplyStructure(s, k, rec);
    case AbandonCall(k) => assert ClientOk(k, s.clients[k]);
  }

  // ---- who made what is on the wire ----

  lemma ProvenanceStays(s: State, s': State, m: Mac, b: Ciphertext<Message>)
    requires Grows(s, s')
    ensures m in s.macs && Provenance(s) ==> exists j, r :: ConfirmedBy(s', j, r, Some(m))
    ensures b in s.bodies && Provenance(s) ==>
              (exists k, i :: SentBody(s', k, i, b)) || (exists j, i :: ReplyBody(s', j, i, b))
  {
    if m in s.macs && Provenance(s) {
      var j: nat, r :| ConfirmedBy(s, j, r, Some(m));
      assert SessionGrows(s.sessions[j], s'.sessions[j]);
      assert ConfirmedBy(s', j, r, Some(m));
    }
    if b in s.bodies && Provenance(s) {
      if k: nat, i: nat :| SentBody(s, k, i, b) {
        assert ClientGrows(s.clients[k], s'.clients[k]);
        assert SentBody(s', k, i, b);
      } else {
        var j: nat, i: nat :| ReplyBody(s, j, i, b);
        assert SessionGrows(s.sessions[j], s'.sessions[j]);
        assert ReplyBody(s', j, i, b);
      }
    }
  }

  lemma ProvenancePreserved(s: State, step: Step)
    requires Structure(s) && Provenance(s) && Enabled(s, step)
    ensures Provenance(Apply(s, step))
  {
    var s' := Apply(s, step);
    StepGrows(s, step);
    forall m | m in s'.macs ensures exists j, r :: ConfirmedBy(s', j, r, Some(m)) {
      if m in s.macs {
        ProvenanceStays(s, s', m, Garbage);
      } else {
        assert ConfirmedBy(s', step.j, step.ran, Some(m));
      }
    }
    forall b | b in s'.bodies
      ensures (exists k, i :: SentBody(s', k, i, b)) || (exists j, i :: ReplyBody(s', j, i, b))
    {
      if b in s.bodies {
        ProvenanceStays(s, s', Hmac(Expand(Extract(Dh({}), []), Confirm, Sha256([])), ""), b);
      } else {
        NewBody(s, step, b);
      }
    }
  }

  lemma NewBody(s: State, step: Step, b: Ciphertext<Message>)
    requires Structure(s) && Enabled(s, step)
    requires b in Apply(s, step).bodies && b !in s.bodies
    ensures (exists k, i :: SentBody(Apply(s, step), k, i, b)) || (exists j, i :: ReplyBody(Apply(s, step), j, i, b))
  {
    var s' := Apply(s, step);
    if step.StartCall? {
      assert ClientOk(step.k, s.clients[step.k]);
      assert SentBody(s', step.k, |s.clients[step.k].sent|, b);
    } else {
      assert step.ReceiveData?;
      assert SessionOk(step.j, s.sessions[step.j]);
      assert ReplyBody(s', step.j, |s.sessions[step.j].dispatched|, b);
    }
  }

  lemma SealLogPreserved(s: State, step: Step)
    requires Structure(s) && SealLog(s) && Enabled(s, step)
    ensures SealLog(Apply(s, step))
  {
    var s' := Apply(s, step);
    StepGrows(s, step);
    forall i | 0 <= i < |s.seals| ensures SealOk(s', s.seals[i]) {
      var e := s.seals[i];
      assert SealOk(s, e);
      match e.party
      case ByClient(k) => assert ClientGrows(s.clients[k], s'.clients[k]);
      case ByDaemon(j) => assert SessionGrows(s.sessions[j], s'.sessions[j]);
    }
    if s'.seals != s.seals {
      var e := s'.seals[|s.seals|];
      match e.party
      case ByClient(k) => assert ClientOk(k, s.clients[k]);
      case ByDaemon(j) => assert SessionOk(j, s.sessions[j]);
      assert SealOk(s', e);
      forall i | 0 <= i < |s.seals| && s.seals[i].party == e.party ensures s.seals[i].index < e.index {
        assert SealOk(s, s.seals[i]);
      }
    }
  }

  // ---- what an honest end reads was written by its mirror image ----

  lemma KnowledgeGrows(leaked: set<nat>, leaked': set<nat>, k: Key)
    requires leaked <= leaked' && KnowsKey(leaked, k)
    ensures KnowsKey(leaked', k)
  {
  }

  /** Clients seal under c2d keys and daemons under d2c keys, so neither can be echoed back. */
  lemma BodyPurpose(s: State, b: Ciphertext<Message>)
    requires Structure(s)
    ensures (exists k, i :: SentBody(s, k, i, b)) ==> b.Sealed? && b.key.purpose == KeyC2D
    ensures (exists j, i :: ReplyBody(s, j, i, b)) ==> b.Sealed? && b.key.purpose == KeyD2C
  {
    if k: nat, i: nat :| SentBody(s, k, i, b) {
      assert ClientOk(k, s.clients[k]);
    }
    if j: nat, i: nat :| ReplyBody(s, j, i, b) {
      assert SessionOk(j, s.sessions[j]);
    }
  }

  /** One shared key is enough: ends derived on the two sides are then mirror images. */
  lemma SharedKeyMirrors(k: nat, c: Client, j: nat, t: Session)
    requires ClientOk(k, c) && SessionOk(j, t) && c.phase.Established? && t.channel.Some?
    requires ClientEnds(c).sendKey == SessionEnds(t).recvKey || ClientEnds(c).recvKey == SessionEnds(t).sendKey
    ensures MirrorsClient(t, c)
  {
  }

  lemma BodySender(s: State, b: Ciphertext<Message>) returns (k: nat, i: nat)
    requires Structure(s) && Provenance(s)
    requires b in s.bodies && b.Sealed? && b.key.purpose == KeyC2D
    ensures SentBody(s, k, i, b)
  {
    BodyPurpose(s, b);
    k, i :| SentBody(s, k, i, b);
  }

  lemma BodyReplier(s: State, b: Ciphertext<Message>) returns (j: nat, i: nat)
    requires Structure(s) && Provenance(s)
    requires b in s.bodies && b.Sealed? && b.key.purpose == KeyD2C
    ensures ReplyBody(s, j, i, b)
  {
    BodyPurpose(s, b);
    j, i :| ReplyBody(s, j, i, b);
  }

  lemma ClientPurpose(k: nat, c: Client)
    requires ClientOk(k, c) && c.phase.Established?
    ensures ClientEnds(c).recvKey.purpose == KeyD2C
  {
  }

  lemma SessionPurpose(j: nat, t: Session)
    requires SessionOk(j, t) && t.channel.Some?
    ensures SessionEnds(t).recvKey.purpose == KeyC2D
  {
  }

  lemma OpensSentBody(t: Session, c: Client, rec: Record<Message>, i: nat)
    requires t.channel.Some? && c.phase.Established? && i < |c.sent| < U64
    requires rec.Record? && rec.body == Encrypt(ClientEnds(c), i % U64, Req(i + 1, c.sent[i]))
    requires Open(t.channel.value.ch, rec).1.Some?
    ensures rec.ctr == i && Open(t.channel.value.ch, rec).1 == Some(Req(i + 1, c.sent[i]))
  {
  }

  lemma OpenedBody(ch: Channel, rec: Record<Message>)
    requires Open(ch, rec).1.Some?
    ensures rec.Record? && rec.body.Sealed? && rec.body.key == ch.ends.recvKey
  {
  }

  lemma InjectedBody(s: State, rec: Record<Message>)
    requires CanInject(s, rec) && rec.Record? && rec.body.Sealed? && !KnowsKey(s.leaked, rec.body.key)
    ensures rec.body in s.bodies
  {
  }

  lemma OpenedBodyIsKnown(s: State, j: nat, rec: Record<Message>)
    requires j < |s.sessions| && s.sessions[j].channel.Some? && SessionOk(j, s.sessions[j]) && CanInject(s, rec)
    requires !KnowsKey(s.leaked, SessionEnds(s.sessions[j]).recvKey)
    requires Open(s.sessions[j].channel.value.ch, rec).1.Some?
    ensures rec.Record? && rec.body in s.bodies && rec.body.Sealed?
    ensures rec.body.key == SessionEnds(s.sessions[j]).recvKey && rec.body.key.purpose == KeyC2D
  {
    OpenedBody(s.sessions[j].channel.value.ch, rec);
    SessionPurpose(j, s.sessions[j]);
    InjectedBody(s, rec);
  }

  lemma ReadsSentBody(s: State, j: nat, rec: Record<Message>) returns (k: nat)
    requires Structure(s) && Provenance(s) && NoWrap(s) && j < |s.sessions| && s.sessions[j].channel.Some?
    requires rec.Record? && rec.body in s.bodies && rec.body.Sealed? && rec.body.key.purpose == KeyC2D
    requires rec.body.key == SessionEnds(s.sessions[j]).recvKey
    requires Open(s.sessions[j].channel.value.ch, rec).1.Some?
    ensures k < |s.clients| && ReadCallOf(s.sessions[j], s.clients[k], rec)
  {
    var i: nat, c: Client;
    k, i, c := SenderOf(s, rec.body);
    ReadsCallOf(k, c, j, s.sessions[j], rec, i);
  }

  /** The record opens to the client's own call of the record's number. */
  predicate ReadCallOf(t: Session, c: Client, rec: Record<Message>)
    requires t.channel.Some? && rec.Record?
  {
    && MirrorsClient(t, c) && rec.ctr < |c.sent| < U64
    && Open(t.channel.value.ch, rec).1 == Some(Req(rec.ctr + 1, c.sent[rec.ctr]))
  }

  /** The client that sealed a body, and which of its calls it was. */
  lemma SenderOf(s: State, b: Ciphertext<Message>) returns (k: nat, i: nat, c: Client)
    requires Structure(s) && Provenance(s) && NoWrap(s)
    requires b in s.bodies && b.Sealed? && b.key.purpose == KeyC2D
    ensures k < |s.clients| && c == s.clients[k] && ClientOk(k, c) && c.phase.Established? && i < |c.sent| < U64
    ensures b == Encrypt(ClientEnds(c), i % U64, Req(i + 1, c.sent[i]))
  {
    k, i := BodySender(s, b);
    c := s.clients[k];
    SenderFacts(s, k, i, b);
  }

  lemma ReadsCallOf(k: nat, c: Client, j: nat, t: Session, rec: Record<Message>, i: nat)
    requires ClientOk(k, c) && SessionOk(j, t) && c.phase.Established? && t.channel.Some? && i < |c.sent| < U64
    requires rec.Record? && rec.body == Encrypt(ClientEnds(c), i % U64, Req(i + 1, c.sent[i]))
    requires rec.body.key == SessionEnds(t).recvKey && Open(t.channel.value.ch, rec).1.Some?
    ensures ReadCallOf(t, c, rec)
  {
    SharedKeyMirrors(k, c, j, t);
    OpensSentBody(t, c, rec, i);
  }

  lemma SenderFacts(s: State, k: nat, i: nat, body: Ciphertext<Message>)
    requires Structure(s) && NoWrap(s) && SentBody(s, k, i, body)
    ensures k < |s.clients| && ClientOk(k, s.clients[k]) && |s.clients[k].sent| < U64
    ensures s.clients[k].phase.Established? && body.Sealed? && body.key == ClientEnds(s.clients[k]).sendKey
    ensures i < |s.clients[k].sent| && body == Encrypt(ClientEnds(s.clients[k]), i % U64, Req(i + 1, s.clients[k].sent[i]))
  {
  }

  /** A sealed body the daemon's channel opens, under a key the relay cannot compute. */
  lemma DaemonReadsItsClient(s: State, j: nat, rec: Record<Message>) returns (k: nat)
    requires Structure(s) && Provenance(s) && NoWrap(s)
    requires j < |s.sessions| && s.sessions[j].channel.Some? && CanInject(s, rec)
    requires !KnowsKey(s.leaked, SessionEnds(s.sessions[j]).recvKey)
    requires Open(s.sessions[j].channel.value.ch, rec).1.Some?
    ensures k < |s.clients| && MirrorsClient(s.sessions[j], s.clients[k])
    ensures rec.ctr < |s.clients[k].sent| < U64
    ensures Open(s.sessions[j].channel.value.ch, rec).1 == Some(Req(rec.ctr + 1, s.clients[k].sent[rec.ctr]))
  {
    OpenedBodyIsKnown(s, j, rec);
    k := ReadsSentBody(s, j, rec);
  }

  lemma OpensReplyBody(t: Session, c: Client, rec: Record<Message>, i: nat)
    requires t.channel.Some? && c.phase.Established? && i < |t.dispatched|
    requires rec.Record? && rec.body == Encrypt(SessionEnds(t), i % U64, Resp(t.dispatched[i].id, t.dispatched[i].resp))
    requires Open(c.phase.ch, rec).1.Some?
    ensures rec.ctr <= i
    ensures Open(c.phase.ch, rec).1 == Some(Resp(t.dispatched[i].id, t.dispatched[i].resp))
  {
    assert i % U64 <= i;
  }

  /** A sealed body the client's channel opens, under a key the relay cannot compute. */
  lemma ClientReadsItsDaemon(s: State, k: nat, rec: Record<Message>) returns (j: nat, i: nat)
    requires Structure(s) && Provenance(s)
    requires k < |s.clients| && s.clients[k].phase.Established? && CanInject(s, rec)
    requires !KnowsKey(s.leaked, ClientEnds(s.clients[k]).recvKey)
    requires Open(s.clients[k].phase.ch, rec).1.Some?
    ensures j < |s.sessions| && MirrorsClient(s.sessions[j], s.clients[k]) && i < |s.sessions[j].dispatched|
    ensures rec.ctr <= i
    ensures var d := s.sessions[j].dispatched[i];
            Open(s.clients[k].phase.ch, rec).1 == Some(Resp(d.id, d.resp))
  {
    var c := s.clients[k];
    assert rec.body.key == ClientEnds(c).recvKey;
    ClientPurpose(k, c);
    j, i := BodyReplier(s, rec.body);
    SharedKeyMirrors(k, c, j, s.sessions[j]);
    OpensReplyBody(s.sessions[j], c, rec, i);
  }

  /** Mirror-image ends share the Diffie-Hellman secret, so one client mirrors one session. */
  lemma MirrorNamesTheClient(s: State, j: nat, k: nat, k': nat)
    requires Structure(s) && j < |s.sessions| && k < |s.clients| && k' < |s.clients|
    requires MirrorsClient(s.sessions[j], s.clients[k]) && MirrorsClient(s.sessions[j], s.clients[k'])
    ensures k == k'
  {
    var t, c, c' := s.sessions[j], s.clients[k], s.clients[k'];
    assert SessionOk(j, t) && ClientOk(k, c) && ClientOk(k', c');
    var z := SessionEnds(t).recvKey.prk.z;
    assert ClientKey(k) in z.ends && ClientKey(k') in z.ends;
    assert z.ends == {DaemonKey(j), ParsePublic(t.channel.value.ran.hs1.ephPub).value};
  }

  lemma SessionStays(s: State, s': State, t: Session)
    requires Grows(s, s') && AuthenticSession(s, t)
    ensures AuthenticSession(s', t)
  {
    if t.channel.Some? && !KnowsKey(s'.leaked, SessionEnds(t).recvKey) {
      if KnowsKey(s.leaked, SessionEnds(t).recvKey) {
        KnowledgeGrows(s.leaked, s'.leaked, SessionEnds(t).recvKey);
      }
      if t.dispatched != [] {
        var k :| 0 <= k < |s.clients| && AllCallsOf(t, s.clients[k]);
        assert ClientGrows(s.clients[k], s'.clients[k]);
        forall i | 0 <= i < |t.dispatched| ensures IsCallOf(t.dispatched[i], s'.clients[k]) {
          assert IsCallOf(t.dispatched[i], s.clients[k]);
        }
        assert AllCallsOf(t, s'.clients[k]);
      }
    }
  }

  lemma AnswerStays(s: State, s': State, c: Client, c': Client, r: Return)
    requires Grows(s, s') && ClientGrows(c, c') && AnsweredBySome(s, c, r)
    ensures AnsweredBySome(s', c', r)
  {
    var j, i :| 0 <= j < |s.sessions| && 0 <= i < |s.sessions[j].dispatched|
                && MirrorsClient(s.sessions[j], c) && Answers(s.sessions[j].dispatched[i], r, c);
    assert SessionGrows(s.sessions[j], s'.sessions[j]);
    assert MirrorsClient(s'.sessions[j], c') && Answers(s'.sessions[j].dispatched[i], r, c');
  }

  lemma HeardStays(s: State, s': State, c: Client, c': Client)
    requires Grows(s, s') && ClientGrows(c, c') && c.phase.Established?
    requires HeardBySome(s, c) && c'.phase.ch.recvCtr == c.phase.ch.recvCtr
    ensures HeardBySome(s', c')
  {
    if c.phase.ch.recvCtr != 0 {
      var j :| 0 <= j < |s.sessions| && MirrorsClient(s.sessions[j], c)
               && c.phase.ch.recvCtr <= |s.sessions[j].dispatched|;
      assert SessionGrows(s.sessions[j], s'.sessions[j]);
      assert MirrorsClient(s'.sessions[j], c');
    }
  }

  lemma ClientStays(s: State, s': State, c: Client, c': Client)
    requires Grows(s, s') && ClientGrows(c, c') && AuthenticClient(s, c)
    requires c'.phase.Established? ==> c.phase.Established? && c'.phase.ch.recvCtr == c.phase.ch.recvCtr
    requires c'.returned == c.returned
    ensures AuthenticClient(s', c')
  {
    if c'.phase.Established? && !KnowsKey(s'.leaked, ClientEnds(c').recvKey) {
      if KnowsKey(s.leaked, ClientEnds(c).recvKey) {
        KnowledgeGrows(s.leaked, s'.leaked, ClientEnds(c).recvKey);
      }
      var j: nat, r :| ConfirmedBy(s, j, r, c.phase.hs2.mac);
      assert SessionGrows(s.sessions[j], s'.sessions[j]);
      assert ConfirmedBy(s', j, r, c'.phase.hs2.mac);
      forall i | 0 <= i < |c.returned| ensures AnsweredBySome(s', c', c.returned[i]) {
        AnswerStays(s, s', c, c', c.returned[i]);
      }
      HeardStays(s, s', c, c');
    }
  }

  /** Adding the next call of client `k` to a session whose calls are all client `k`'s. */
  lemma DispatchExtends(s: State, t: Session, t': Session, c: Client, d: Dispatch)
    requires t.channel.Some? && t'.channel.Some? && SessionEnds(t') == SessionEnds(t)
    requires t'.dispatched == t.dispatched + [d]
    requires AllCallsOf(t, c) && IsCallOf(d, c)
    requires Increasing(t.dispatched)
    requires t.dispatched == [] || t.dispatched[|t.dispatched| - 1].ctr < d.ctr
    ensures AllCallsOf(t', c) && Increasing(t'.dispatched)
  {
    AppendKeepsIncreasing(t.dispatched, d);
    assert MirrorsClient(t', c);
    forall i | 0 <= i < |t'.dispatched| ensures IsCallOf(t'.dispatched[i], c) {
      if i < |t.dispatched| {
        assert IsCallOf(t.dispatched[i], c);
      }
    }
  }

  /** The daemon's new dispatch is the next call of the same client as all earlier ones. */
  lemma DataAuthentic(s: State, j: nat, rec: Record<Message>, resp: Response)
    requires Structure(s) && Provenance(s) && NoWrap(s) && Enabled(s, ReceiveData(j, rec, resp))
    requires AuthenticSession(s, s.sessions[j])
    requires s.sessions[j].channel.Some? && Open(s.sessions[j].channel.value.ch, rec).1.Some?
    requires !KnowsKey(s.leaked, SessionEnds(s.sessions[j]).recvKey)
    ensures var s' := OnData(s, j, rec, resp); AuthenticSession(s', s'.sessions[j])
  {
    var t := s.sessions[j];
    var k := DaemonReadsItsClient(s, j, rec);
    var c := s.clients[k];
    var d := Dispatch(rec.ctr, rec.ctr + 1, c.sent[rec.ctr], resp);
    if t.dispatched != [] {
      var k0: nat :| k0 < |s.clients| && AllCallsOf(t, s.clients[k0]);
      MirrorNamesTheClient(s, j, k0, k);
    }
    assert AllCallsOf(t, c);
    DataExtends(s, j, rec, resp, c, d);
  }

  lemma DataExtends(s: State, j: nat, rec: Record<Message>, resp: Response, c: Client, d: Dispatch)
    requires j < |s.sessions| && s.sessions[j].channel.Some? && c in s.clients
    requires AllCallsOf(s.sessions[j], c) && IsCallOf(d, c) && |c.sent| < U64
    requires Open(s.sessions[j].channel.value.ch, rec).1 == Some(Req(d.id, d.req))
    requires d.ctr == rec.ctr && d.resp == resp
    requires Increasing(s.sessions[j].dispatched)
    requires var t := s.sessions[j];
             t.channel.value.ch.recvCtr == (if t.dispatched == [] then 0 else t.dispatched[|t.dispatched| - 1].ctr + 1)
    ensures var s' := OnData(s, j, rec, resp); AuthenticSession(s', s'.sessions[j])
  {
    var s' := OnData(s, j, rec, resp);
    var t, t' := s.sessions[j], s'.sessions[j];
    assert t'.dispatched == t.dispatched + [d];
    assert t'.channel.value.ch.recvCtr == d.ctr + 1;
    DispatchExtends(s, t, t', c, d);
    assert s'.clients == s.clients;
    var k :| 0 <= k < |s.clients| && s.clients[k] == c;
    assert AllCallsOf(t', s'.clients[k]);
  }

  lemma AppendKeepsIncreasing(ds: seq<Dispatch>, d: Dispatch)
    requires Increasing(ds) && (ds == [] || ds[|ds| - 1].ctr < d.ctr)
    ensures Increasing(ds + [d])
  {
    assert forall i :: 0 <= i < |ds| ==> ds[i].ctr < d.ctr;
  }

  /** Every dispatch on a session that mirrors client `k` is one of client `k`'s calls. */
  lemma DispatchIsOwnCall(s: State, j: nat, k: nat, i: nat)
    requires Structure(s) && j < |s.sessions| && k < |s.clients| && i < |s.sessions[j].dispatched|
    requires MirrorsClient(s.sessions[j], s.clients[k]) && AuthenticSession(s, s.sessions[j])
    requires !KnowsKey(s.leaked, ClientEnds(s.clients[k]).recvKey)
    ensures IsCallOf(s.sessions[j].dispatched[i], s.clients[k])
  {
    var t, c := s.sessions[j], s.clients[k];
    MirrorSharesSecrets(k, c, j, t);
    var k0: nat :| k0 < |s.clients| && AllCallsOf(t, s.clients[k0]);
    MirrorNamesTheClient(s, j, k0, k);
  }

  lemma MirrorSharesSecrets(k: nat, c: Client, j: nat, t: Session)
    requires ClientOk(k, c) && SessionOk(j, t) && MirrorsClient(t, c)
    ensures forall leaked :: KnowsKey(leaked, SessionEnds(t).recvKey) <==> KnowsKey(leaked, ClientEnds(c).recvKey)
  {
    assert SessionEnds(t).recvKey.prk == ClientEnds(c).recvKey.prk;
    assert SessionEnds(t).recvKey.transcript == ClientEnds(c).recvKey.transcript;
  }

  /** A response the client opens was computed by the daemon for one of its own calls. */
  lemma OpenedReplyAnswers(s: State, k: nat, rec: Record<Message>) returns (j: nat)
    requires Structure(s) && Provenance(s)
    requires forall j :: 0 <= j < |s.sessions| ==> AuthenticSession(s, s.sessions[j])
    requires k < |s.clients| && s.clients[k].phase.Established? && CanInject(s, rec)
    requires !KnowsKey(s.leaked, ClientEnds(s.clients[k]).recvKey)
    requires Open(s.clients[k].phase.ch, rec).1.Some?
    ensures var pt := Open(s.clients[k].phase.ch, rec).1.value;
            pt.Resp? && AnsweredBySome(s, s.clients[k], Return(pt.id, pt.resp))
    ensures j < |s.sessions| && MirrorsClient(s.sessions[j], s.clients[k])
    ensures rec.ctr < |s.sessions[j].dispatched|
  {
    var i: nat;
    j, i := ClientReadsItsDaemon(s, k, rec);
    DispatchIsOwnCall(s, j, k, i);
    CallAnswered(s, s.clients[k], j, i);
  }

  lemma CallAnswered(s: State, c: Client, j: nat, i: nat)
    requires j < |s.sessions| && i < |s.sessions[j].dispatched| && MirrorsClient(s.sessions[j], c)
    requires IsCallOf(s.sessions[j].dispatched[i], c)
    ensures var d := s.sessions[j].dispatched[i]; AnsweredBySome(s, c, Return(d.id, d.resp))
  {
    var d := s.sessions[j].dispatched[i];
    assert Answers(d, Return(d.id, d.resp), c);
  }

  /** All that `OnReply` does to the client that received the record. */
  predicate Replied(c: Client, c': Client, rec: Record<Message>)
    requires c.phase.Established?
  {
    && ClientGrows(c, c')
    && (c' != c ==>
          && Open(c.phase.ch, rec).1.Some?
          && c'.phase.ch.recvCtr == (rec.ctr + 1) % U64
          && var pt := Open(c.phase.ch, rec).1.value;
             || c'.returned == c.returned
             || (pt.Resp? && c'.returned == c.returned + [Return(pt.id, pt.resp)]))
  }

  lemma ReplyEffect(s: State, k: nat, rec: Record<Message>)
    requires Enabled(s, ReceiveReply(k, rec))
    ensures var s' := OnReply(s, k, rec);
            Grows(s, s') && s'.leaked == s.leaked && Replied(s.clients[k], s'.clients[k], rec)
  {
    StepGrows(s, ReceiveReply(k, rec));
  }

  /** A response that ends a call was computed for that very call. */
  lemma ReplyAuthentic(s: State, k: nat, rec: Record<Message>, s': State)
    requires Structure(s) && Provenance(s) && NoWrap(s)
    requires forall j :: 0 <= j < |s.sessions| ==> AuthenticSession(s, s.sessions[j])
    requires k < |s.clients| && s.clients[k].phase.Established? && CanInject(s, rec)
    requires AuthenticClient(s, s.clients[k])
    requires Grows(s, s') && s'.leaked == s.leaked && Replied(s.clients[k], s'.clients[k], rec)
    ensures AuthenticClient(s', s'.clients[k])
  {
    var c, c' := s.clients[k], s'.clients[k];
    if c' == c {
      ClientStays(s, s', c, c');
    } else if !KnowsKey(s.leaked, ClientEnds(c).recvKey) {
      var j := OpenedReplyAnswers(s, k, rec);
      assert |s.sessions[j].dispatched| < U64;
      ReplyOpens(s, s', c, c', rec, j);
    }
  }

  lemma ReplyOpens(s: State, s': State, c: Client, c': Client, rec: Record<Message>, j: nat)
    requires Grows(s, s') && s'.leaked == s.leaked && AuthenticClient(s, c)
    requires c.phase.Established? && Replied(c, c', rec) && c' != c
    requires !KnowsKey(s.leaked, ClientEnds(c).recvKey)
    requires j < |s.sessions| && MirrorsClient(s.sessions[j], c)
    requires rec.ctr < |s.sessions[j].dispatched| < U64
    requires var pt := Open(c.phase.ch, rec).1.value;
             pt.Resp? && AnsweredBySome(s, c, Return(pt.id, pt.resp))
    ensures AuthenticClient(s', c')
  {
    var pt := Open(c.phase.ch, rec).1.value;
    CounterStaysBelow(rec.ctr, |s.sessions[j].dispatched|);
    ClientOpens(s, s', c, c', j, Return(pt.id, pt.resp));
  }

  lemma CounterStaysBelow(ctr: nat, n: nat)
    requires ctr < n < U64
    ensures (ctr + 1) % U64 <= n
  {
  }

  lemma ClientOpens(s: State, s': State, c: Client, c': Client, j: nat, r: Return)
    requires Grows(s, s') && s'.leaked == s.leaked && ClientGrows(c, c') && AuthenticClient(s, c)
    requires c.phase.Established? && !KnowsKey(s.leaked, ClientEnds(c).recvKey)
    requires c'.returned == c.returned || (c'.returned == c.returned + [r] && AnsweredBySome(s, c, r))
    requires j < |s.sessions| && MirrorsClient(s.sessions[j], c)
    requires c'.phase.ch.recvCtr <= |s.sessions[j].dispatched|
    ensures AuthenticClient(s', c')
  {
    ClientStays(s, s', c, c);
    forall i | 0 <= i < |c'.returned| ensures AnsweredBySome(s', c', c'.returned[i]) {
      if i < |c.returned| {
        assert AnsweredBySome(s, c, c.returned[i]);
      }
      AnswerStays(s, s', c, c', c'.returned[i]);
    }
    assert SessionGrows(s.sessions[j], s'.sessions[j]);
    assert MirrorsClient(s'.sessions[j], c');
  }

  lemma Hs2Authentic(s: State, k: nat, hs2: HandshakeMsg)
    requires Inv(s) && Enabled(s, ReceiveHs2(k, hs2))
    ensures var s' := OnHs2(s, k, hs2); AuthenticClient(s', s'.clients[k])
  {
    var s' := OnHs2(s, k, hs2);
    var c, c' := s.clients[k], s'.clients[k];
    assert AuthenticClient(s, c) && ClientOk(k, c);
    if c.phase.Awaiting? && c'.phase.Established? && !KnowsKey(s.leaked, ClientEnds(c').recvKey) {
      assert hs2.mac.value in s.macs;
      var j: nat, r :| ConfirmedBy(s, j, r, Some(hs2.mac.value));
      assert ConfirmedBy(s', j, r, c'.phase.hs2.mac);
    }
  }

  lemma DataSessionAuthentic(s: State, j: nat, rec: Record<Message>, resp: Response)
    requires Inv(s) && NoWrap(s) && Enabled(s, ReceiveData(j, rec, resp))
    ensures var s' := OnData(s, j, rec, resp); AuthenticSession(s', s'.sessions[j])
  {
    var t := s.sessions[j];
    assert AuthenticSession(s, t);
    if t.channel.Some? && !KnowsKey(s.leaked, SessionEnds(t).recvKey) && Open(t.channel.value.ch, rec).1.Some? {
      DataAuthentic(s, j, rec, resp);
    }
  }

  lemma Hs1SessionAuthentic(s: State, j: nat, r: Ran, sendOk: bool)
    requires Inv(s) && Enabled(s, ReceiveHs1(j, r, sendOk))
    ensures var s' := OnHs1(s, j, r, sendOk); AuthenticSession(s', s'.sessions[j])
  {
    assert AuthenticSession(s, s.sessions[j]) && SessionOk(j, s.sessions[j]);
  }

  lemma SessionAfter(s: State, step: Step, j: nat)
    requires Enabled(s, step) && j < |Apply(s, step).sessions|
    ensures var t' := Apply(s, step).sessions[j];
            if j >= |s.sessions| then t'.channel.None?
            else t' == s.sessions[j] || (step.ReceiveData? && step.j == j) || (step.ReceiveHs1? && step.j == j)
  {
  }

  lemma SessionsAuthentic(s: State, step: Step)
    requires Inv(s) && NoWrap(s) && Enabled(s, step)
    ensures var s' := Apply(s, step); forall j :: 0 <= j < |s'.sessions| ==> AuthenticSession(s', s'.sessions[j])
  {
    var s' := Apply(s, step);
    StepGrows(s, step);
    forall j | 0 <= j < |s'.sessions| ensures AuthenticSession(s', s'.sessions[j]) {
      SessionAfter(s, step, j);
      if j >= |s.sessions| {
      } else if s'.sessions[j] == s.sessions[j] {
        SessionStays(s, s', s.sessions[j]);
      } else if step.ReceiveData? {
        DataSessionAuthentic(s, j, step.rec, step.resp);
      } else {
        Hs1SessionAuthentic(s, j, step.ran, step.sendOk);
      }
    }
  }

  lemma ClientsAuthentic(s: State, step: Step)
    requires Inv(s) && NoWrap(s) && Enabled(s, step)
    ensures var s' := Apply(s, step); forall k :: 0 <= k < |s'.clients| ==> AuthenticClient(s', s'.clients[k])
  {
    var s' := Apply(s, step);
    StepGrows(s, step);
    forall k | 0 <= k < |s'.clients| ensures AuthenticClient(s', s'.clients[k]) {
      if k < |s.clients| {
        var c, c' := s.clients[k], s'.clients[k];
        assert AuthenticClient(s, c) && ClientGrows(c, c');
        if step.ReceiveReply? && step.k == k {
          ReplyEffect(s, k, step.rec);
          ReplyAuthentic(s, k, step.rec, s');
        } else if step.ReceiveHs2? && step.k == k {
          Hs2Authentic(s, k, step.hs2);
        } else {
          ClientStays(s, s', c, c');
        }
      }
    }
  }

  lemma InvPreserved(s: State, step: Step)
    requires Inv(s) && Enabled(s, step) && NoWrap(s)
    ensures Inv(Apply(s, step))
  {
    StructurePreserved(s, step);
    ProvenancePreserved(s, step);
    SealLogPreserved(s, step);
    SessionsAuthentic(s, step);
    ClientsAuthentic(s, step);
  }

  lemma {:induction false} RunInvariant(states: seq<State>, steps: seq<Step>, n: nat)
    requires IsRun(states, steps) && n < |states| && NoWrap(states[n])
    ensures Inv(states[n])
    decreases n
  {
    if n > 0 {
      StepGrows(states[n - 1], steps[n - 1]);
      NoWrapEarlier(states[n - 1], states[n]);
      RunInvariant(states, steps, n - 1);
      InvPreserved(states[n - 1], steps[n - 1]);
    }
  }
}
