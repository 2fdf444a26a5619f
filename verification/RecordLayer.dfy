/**
 The record layer of the reflector channel: one end of an established channel, sealing
 with an increasing 64-bit counter and opening with a strictly increasing receive counter.
 */
module RecordLayer {
  import opened Wrappers
  import opened SymbolicCrypto

  const U64: nat := 0x1_0000_0000_0000_0000

  type Counter = n: nat | n < U64

  datatype Direction = ClientToDaemon | DaemonToClient

  /** The 12-byte nonce: a derived 4-byte prefix followed by the counter. */
  datatype Nonce = Nonce(prefix: Key, ctr: Counter)

  datatype Aad = Aad(dir: Direction, ctr: Counter, transcript: Digest)

  /** AES-GCM output: it opens only under the same key, nonce and associated data. */
  datatype Ciphertext<P> = Sealed(key: Key, nonce: Nonce, aad: Aad, plaintext: P) | Garbage

  datatype Record<P> = ShortRecord | Record(ctr: Counter, body: Ciphertext<P>)

  /** Everything an end of the channel fixes at the handshake. */
  datatype Ends = Ends(sendKey: Key, recvKey: Key, sendPrefix: Key, recvPrefix: Key,
                       sendDir: Direction, recvDir: Direction, transcript: Digest)

  datatype Channel = Channel(ends: Ends, sendCtr: Counter, recvCtr: Counter)

  function Encrypt<P>(e: Ends, ctr: Counter, pt: P): Ciphertext<P> {
    Sealed(e.sendKey, Nonce(e.sendPrefix, ctr), Aad(e.sendDir, ctr, e.transcript), pt)
  }

  function Decrypt<P>(e: Ends, ctr: Counter, body: Ciphertext<P>): Option<P> {
    if body.Sealed? && body.key == e.recvKey && body.nonce == Nonce(e.recvPrefix, ctr)
       && body.aad == Aad(e.recvDir, ctr, e.transcript)
    then Some(body.plaintext)
    else None
  }

  function Seal<P>(ch: Channel, pt: P): (Channel, Record<P>) {
    (ch.(sendCtr := (ch.sendCtr + 1) % U64), Record(ch.sendCtr, Encrypt(ch.ends, ch.sendCtr, pt)))
  }

  function Open<P>(ch: Channel, rec: Record<P>): (Channel, Option<P>) {
    if rec.ShortRecord? then (ch, None)
    else
      var pt := Decrypt(ch.ends, rec.ctr, rec.body);
      if pt.None? || rec.ctr < ch.recvCtr || (rec.ctr == 0 && ch.recvCtr != 0)
      then (ch, None)
      else (ch.(recvCtr := (rec.ctr + 1) % U64), pt)
  }

  /** Two ends are mirror images when each one's sending half is the other's receiving half. */
  predicate Mirror(a: Ends, b: Ends) {
    a == Ends(b.recvKey, b.sendKey, b.recvPrefix, b.sendPrefix, b.recvDir, b.sendDir, b.transcript)
  }

  /** One end of the channel as the program keeps it: fixed ends and two mutable counters. */
  class AeadSession {
    const ends: Ends
    var sendCtr: Counter
    var recvCtr: Counter

    constructor (ends: Ends)
      ensures this.ends == ends && Value() == Channel(ends, 0, 0)
    {
      this.ends := ends;
      sendCtr, recvCtr := 0, 0;
    }

    function Value(): Channel
      reads this
    {
      Channel(ends, sendCtr, recvCtr)
    }

    /** Seals one plaintext: what a mirror-image peer reads back, under a counter used once. */
    method SealRecord<P>(pt: P) returns (rec: Record<P>)
      modifies this
      ensures (Value(), rec) == Seal(old(Value()), pt)
      ensures forall peer: Channel ::
                Mirror(ends, peer.ends) && peer.recvCtr <= old(sendCtr) ==> Open(peer, rec).1 == Some(pt)
    {
      var ctr := sendCtr;
      sendCtr := (sendCtr + 1) % U64;
      rec := Record(ctr, Encrypt(ends, ctr, pt));
    }

    /** Opens one record, refusing any counter below the next expected one. */
    method OpenRecord<P>(rec: Record<P>) returns (pt: Option<P>)
      modifies this
      ensures (Value(), pt) == Open(old(Value()), rec)
      ensures pt.None? ==> unchanged(this)
    {
      if rec.ShortRecord? {
        return None;
      }
      pt := Decrypt(ends, rec.ctr, rec.body);
      if pt.None? {
        return None;
      }
      if rec.ctr < recvCtr || (rec.ctr == 0 && recvCtr != 0) {
        return None;
      }
      recvCtr := (rec.ctr + 1) % U64;
    }
  }

  /** The channel after sealing every plaintext in order, and the records it produced. */
  function SealAll<P>(ch: Channel, pts: seq<P>): (Channel, seq<Record<P>>)
    decreases |pts|
  {
    if pts == [] then (ch, [])
    else
      var (ch1, rec) := Seal(ch, pts[0]);
      var (ch2, recs) := SealAll(ch1, pts[1..]);
      (ch2, [rec] + recs)
  }

  /** The plaintexts accepted, in arrival order, and the counters they carried. */
  function OpenAll<P>(ch: Channel, recs: seq<Record<P>>): (Channel, seq<(Counter, P)>)
    decreases |recs|
  {
    if recs == [] then (ch, [])
    else
      var (ch1, pt) := Open(ch, recs[0]);
      var (ch2, rest) := OpenAll(ch1, recs[1..]);
      (ch2, if pt.Some? then [(recs[0].ctr, pt.value)] + rest else rest)
  }

  /** The records are the ones an end seals for the plaintexts, counting from `start`. */
  predicate SealedFrom<P(==)>(recs: seq<Record<P>>, ends: Ends, start: nat, pts: seq<P>) {
    && |recs| == |pts| && start + |pts| < U64
    && forall i :: 0 <= i < |pts| ==> recs[i] == Record(start + i, Encrypt(ends, start + i, pts[i]))
  }

  lemma {:induction false} SealAllRecords<P>(ch: Channel, pts: seq<P>)
    requires ch.sendCtr + |pts| < U64
    ensures SealedFrom(SealAll(ch, pts).1, ch.ends, ch.sendCtr, pts)
    decreases |pts|
  {
    if pts != [] {
      var (ch1, rec) := Seal(ch, pts[0]);
      SealAllRecords(ch1, pts[1..]);
    }
  }

  /** The elements at the picked positions. */
  function Picked<T>(xs: seq<T>, picked: seq<nat>): (r: seq<T>)
    requires forall i :: 0 <= i < |picked| ==> picked[i] < |xs|
    ensures |r| == |picked| && forall i :: 0 <= i < |picked| ==> r[i] == xs[picked[i]]
  {
    seq(|picked|, i requires 0 <= i < |picked| => xs[picked[i]])
  }

  lemma PickedTail<T>(xs: seq<T>, picked: seq<nat>)
    requires picked != [] && forall i :: 0 <= i < |picked| ==> picked[i] < |xs|
    ensures Picked(xs, picked) == [xs[picked[0]]] + Picked(xs, picked[1..])
  {
  }

  /** The receiver got exactly the picked plaintexts, each under its own counter. */
  predicate Delivered<P(==)>(got: seq<(Counter, P)>, start: nat, pts: seq<P>, picked: seq<nat>) {
    && |got| == |picked|
    && forall i :: 0 <= i < |picked| ==> picked[i] < |pts| && got[i].0 == start + picked[i] && got[i].1 == pts[picked[i]]
  }

  lemma DeliveredCons<P>(first: (Counter, P), got: seq<(Counter, P)>, start: nat, pts: seq<P>, picked: seq<nat>)
    requires picked != [] && picked[0] < |pts| && first.0 == start + picked[0] && first.1 == pts[picked[0]]
    requires Delivered(got, start, pts, picked[1..])
    ensures Delivered([first] + got, start, pts, picked)
  {
    var tail := picked[1..];
    assert forall i :: 0 < i < |picked| ==> tail[i - 1] == picked[i];
  }

  lemma OpenAllCons<P>(ch: Channel, rec: Record<P>, recs: seq<Record<P>>)
    requires Open(ch, rec).1.Some?
    ensures OpenAll(ch, [rec] + recs).1 == [(rec.ctr, Open(ch, rec).1.value)] + OpenAll(Open(ch, rec).0, recs).1
  {
    assert ([rec] + recs)[1..] == recs;
  }

  lemma OpenMirrored<P>(a: Ends, b: Channel, ctr: Counter, pt: P)
    requires Mirror(a, b.ends) && b.recvCtr <= ctr < U64 - 1
    ensures Open(b, Record(ctr, Encrypt(a, ctr, pt))) == (b.(recvCtr := ctr + 1), Some(pt))
  {
  }

  lemma {:induction false} SelectionOpens<P>(a: Ends, start: nat, b: Channel, pts: seq<P>, recs: seq<Record<P>>, picked: seq<nat>)
    requires Mirror(a, b.ends) && SealedFrom(recs, a, start, pts)
    requires forall i :: 0 <= i < |picked| ==> picked[i] < |pts|
    requires forall i, j :: 0 <= i < j < |picked| ==> picked[i] < picked[j]
    requires picked == [] || b.recvCtr <= start + picked[0]
    ensures Delivered(OpenAll(b, Picked(recs, picked)).1, start, pts, picked)
    decreases |picked|
  {
    if picked != [] {
      var first, tail := picked[0], picked[1..];
      var b1 := b.(recvCtr := start + first + 1);
      OpenMirrored(a, b, start + first, pts[first]);
      SelectionOpens(a, start, b1, pts, recs, tail);
      PickedTail(recs, picked);
      OpenAllCons(b, recs[first], Picked(recs, tail));
      DeliveredCons((start + first, pts[first]), OpenAll(b1, Picked(recs, tail)).1, start, pts, picked);
    }
  }

  /**
   Delivery through a lossy relay: if the relay passes on any selection of a sender's
   records in sending order (dropping the rest), a mirror-image receiver accepts every one
   of them and reads exactly the plaintexts that were sealed.
   */
  lemma InOrderDelivery<P>(a: Channel, b: Channel, pts: seq<P>, picked: seq<nat>)
    requires Mirror(a.ends, b.ends)
    requires a.sendCtr + |pts| < U64
    requires forall i :: 0 <= i < |picked| ==> picked[i] < |pts|
    requires forall i, j :: 0 <= i < j < |picked| ==> picked[i] < picked[j]
    requires picked == [] || b.recvCtr <= a.sendCtr + picked[0]
    ensures var recs := SealAll(a, pts).1;
            |recs| == |pts| && Delivered(OpenAll(b, Picked(recs, picked)).1, a.sendCtr, pts, picked)
  {
    SealAllRecords(a, pts);
    SelectionOpens(a.ends, a.sendCtr, b, pts, SealAll(a, pts).1, picked);
  }

  /** Strictly increasing counters, from `start` on and below `end`. */
  predicate Rising<P>(start: nat, got: seq<(Counter, P)>, end: nat) {
    && start <= end
    && (forall i :: 0 <= i < |got| ==> start <= got[i].0 < end)
    && (forall i, j :: 0 <= i < j < |got| ==> got[i].0 < got[j].0)
  }

  predicate CountersBelow<P>(got: seq<(Counter, P)>, bound: nat) {
    forall i :: 0 <= i < |got| ==> got[i].0 < bound
  }

  lemma RisingCons<P>(start: nat, first: (Counter, P), rest: seq<(Counter, P)>, end: nat)
    requires start <= first.0 && Rising(first.0 + 1, rest, end)
    ensures Rising(start, [first] + rest, end)
  {
  }

  lemma BelowTail<P>(first: (Counter, P), rest: seq<(Counter, P)>, bound: nat)
    requires CountersBelow([first] + rest, bound)
    ensures first.0 < bound && CountersBelow(rest, bound)
  {
    var all := [first] + rest;
    assert all[0] == first && forall i :: 0 <= i < |rest| ==> all[i + 1] == rest[i];
  }

  lemma OpenAdvances<P>(ch: Channel, rec: Record<P>)
    ensures var (ch1, pt) := Open(ch, rec);
            if pt.None? then ch1 == ch else ch.recvCtr <= rec.ctr && (rec.ctr < U64 - 1 ==> ch1.recvCtr == rec.ctr + 1)
  {
  }

  /**
   Over any record stream whatever, the accepted counters are strictly increasing and start
   at the receive counter, provided no accepted record carries the last counter value.
   */
  lemma {:induction false} AcceptedCountersIncrease<P>(ch: Channel, recs: seq<Record<P>>)
    requires CountersBelow(OpenAll(ch, recs).1, U64 - 1)
    ensures Rising(ch.recvCtr, OpenAll(ch, recs).1, OpenAll(ch, recs).0.recvCtr)
    decreases |recs|
  {
    if recs != [] {
      var (ch1, pt) := Open(ch, recs[0]);
      var (end, rest) := OpenAll(ch1, recs[1..]);
      OpenAdvances(ch, recs[0]);
      if pt.Some? {
        BelowTail((recs[0].ctr, pt.value), rest, U64 - 1);
        AcceptedCountersIncrease(ch1, recs[1..]);
        RisingCons(ch.recvCtr, (recs[0].ctr, pt.value), rest, end.recvCtr);
      } else {
        AcceptedCountersIncrease(ch1, recs[1..]);
      }
    }
  }

  /**
   What opens, exactly: a record sealed under the receiving key, the receiving prefix with the
   record's own counter, and that direction, counter and transcript as associated data, whose
   counter is not below the next expected one.  The next one is then the counter after it.
   */
  lemma OpenExactly<P>(ch: Channel, rec: Record<P>, pt: P)
    ensures Open(ch, rec).1 == Some(pt)
            <==> && rec.Record? && rec.ctr >= ch.recvCtr
                 && rec.body == Sealed(ch.ends.recvKey, Nonce(ch.ends.recvPrefix, rec.ctr),
                                       Aad(ch.ends.recvDir, rec.ctr, ch.ends.transcript), pt)
    ensures Open(ch, rec).1.Some? ==>
              Open(ch, rec).0 == ch.(recvCtr := if rec.ctr == 0xFFFF_FFFF_FFFF_FFFF then 0 else rec.ctr + 1)
    ensures Open(ch, rec).1.None? ==> Open(ch, rec).0 == ch
  {
  }

  /** What sealing produces, and the counter it moves to. */
  lemma SealExactly<P>(ch: Channel, pt: P)
    ensures var (after, rec) := Seal(ch, pt);
            && rec == Record(ch.sendCtr, Sealed(ch.ends.sendKey, Nonce(ch.ends.sendPrefix, ch.sendCtr),
                                                Aad(ch.ends.sendDir, ch.sendCtr, ch.ends.transcript), pt))
            && after == ch.(sendCtr := if ch.sendCtr == 0xFFFF_FFFF_FFFF_FFFF then 0 else ch.sendCtr + 1)
  {
  }

  /** A record that was accepted once is refused when replayed, unless its counter is 2^64 - 1. */
  lemma ReplayRefusedExactly<P>(ch: Channel, rec: Record<P>)
    requires Open(ch, rec).1.Some?
    ensures Open(Open(ch, rec).0, rec).1.None? <==> rec.ctr != 0xFFFF_FFFF_FFFF_FFFF
  {
    var after := Open(ch, rec).0;
    if rec.ctr == U64 - 1 {
      assert after.recvCtr == 0;
    } else {
      assert after.recvCtr == rec.ctr + 1;
    }
  }
}
