/**
 The two endpoints as the program runs them, each proved to take exactly the steps of the
 protocol: the daemon's frame handlers and the external client's blocking `Call`.
 */
module Endpoints {
  import opened Wrappers
  import opened SymbolicCrypto
  import opened RecordLayer
  import opened Handshake
  import opened Protocol

  datatype Frame = HandshakeFrame(hs: HandshakeMsg) | DataFrame(rec: Record<Message>) | CloseFrame

  /** One served session: the handshake fills in the channel, data frames run requests. */
  class ServedSession {
    const j: nat
    const rendezvous: string
    var aead: AeadSession?
    ghost var established: Ran
    ghost var ran: set<Ran>
    ghost var dispatched: seq<Dispatch>

    constructor (j: nat, rendezvous: string)
      ensures this.j == j && aead == null && Value() == Session(rendezvous, {}, None, [])
    {
      this.j, this.rendezvous := j, rendezvous;
      aead := null;
      ran, dispatched := {}, [];
    }

    ghost function Value(): Session
      reads this, aead
    {
      Session(rendezvous, ran, if aead == null then None else Some(Live(established, aead.Value())), dispatched)
    }

    /** Answers the first well-formed HS1; the channel exists only once HS2 was sent. */
    method HandleHandshake(hs1: HandshakeMsg, nD: Octets, sendOk: bool) returns (hs2: Option<HandshakeMsg>)
      modifies this
      ensures (Value(), hs2) == SessionOnHs1(j, old(Value()), Ran(hs1, nD), sendOk)
      ensures old(aead) != null ==> aead == old(aead) && hs2.None?
      ensures aead != old(aead) ==> fresh(aead)
    {
      if aead != null {
        return None;
      }
      var out := DaemonHandshake(DaemonKey(j), rendezvous, SecretOctets(j), hs1, nD);
      if out.None? {
        return None;
      }
      hs2 := Some(out.value.1);
      ran := ran + {Ran(hs1, nD)};
      if !sendOk {
        return;
      }
      aead := new AeadSession(out.value.0);
      established := Ran(hs1, nD);
    }

    /** Opens one data frame; a request is dispatched (giving `resp`) and its reply sealed. */
    method HandleData(rec: Record<Message>, resp: Response) returns (reply: Option<Record<Message>>)
      modifies this, aead
      ensures aead == old(aead)
      ensures (Value(), reply) == SessionOnData(old(Value()), rec, resp)
    {
      if aead == null {
        return None;
      }
      var pt := aead.OpenRecord(rec);
      if pt.None? || !pt.value.Req? {
        return None;
      }
      dispatched := dispatched + [Dispatch(rec.ctr, pt.value.id, pt.value.req, resp)];
      var sealed := aead.SealRecord(Resp(pt.value.id, resp));
      reply := Some(sealed);
    }
  }

  /** The client value once every fetched frame has been looked at, or the call has returned. */
  function AwaitReply(c: Client, fetched: seq<Frame>): (r: Client)
    requires c.phase.Established?
    ensures r.phase.Established?
    decreases |fetched|
  {
    if fetched == [] || !c.calling then c
    else AwaitReply(if fetched[0].DataFrame? then ClientOnReply(c, fetched[0].rec) else c, fetched[1..])
  }

  /** A connected external client. */
  class ExternalClient {
    const pending: ClientPending
    const hs2: HandshakeMsg
    const sess: AeadSession
    var ctr: nat
    ghost var sent: seq<Request>
    ghost var returned: seq<Return>

    constructor (pending: ClientPending, hs2: HandshakeMsg, sess: AeadSession)
      ensures this.sess == sess && ctr == 0
      ensures Value() == Client(pending, Established(hs2, sess.Value()), [], false, [])
    {
      this.pending, this.hs2, this.sess := pending, hs2, sess;
      ctr := 0;
      sent, returned := [], [];
    }

    ghost function Value(): Client
      reads this, sess
    {
      Client(pending, Established(hs2, sess.Value()), sent, false, returned)
    }

    /**
     Seals the request, sends it, and reads fetched frames until one opens to the response
     carrying this call's id; everything else is skipped.  Running out of frames is the
     transport error that ends the call without a response.
     */
    method Call(req: Request, sendOk: bool, fetched: seq<Frame>)
      returns (rec: Record<Message>, resp: Option<Response>)
      requires ctr == |sent|
      modifies this, sess
      ensures ctr == |sent|
      ensures rec == ClientOnCall(old(Value()), req).1
      ensures var end := AwaitReply(ClientOnCall(old(Value()), req).0, if sendOk then fetched else []);
              && Value() == end.(calling := false)
              && (resp.Some? <==> !end.calling)
              && (resp.Some? ==> returned == old(returned) + [Return(ctr, resp.value)])
    {
      ghost var start := ClientOnCall(Value(), req).0;
      ctr := ctr + 1;
      rec := sess.SealRecord(Req(ctr, req));
      sent := sent + [req];
      if !sendOk {
        return rec, None;
      }
      var i := 0;
      while i < |fetched|
        invariant 0 <= i <= |fetched| && ctr == |sent| && returned == old(returned)
        invariant AwaitReply(start, fetched) == AwaitReply(Value().(calling := true), fetched[i..])
      {
        var f := fetched[i];
        i := i + 1;
        assert fetched[i - 1..][1..] == fetched[i..];
        if !f.DataFrame? {
          continue;
        }
        var pt := sess.OpenRecord(f.rec);
        if pt.Some? && pt.value.Resp? && pt.value.id == ctr {
          returned := returned + [Return(ctr, pt.value.resp)];
          return rec, Some(pt.value.resp);
        }
      }
      resp := None;
    }
  }
}
