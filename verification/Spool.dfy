/**
 The control-plane client's telemetry path: a bounded channel, a pending batch, and a JSONL
 spool file whose oldest lines are cut when it would grow too large.
 */
module Spool {
  import opened Strings

  /** A usage event in its serialised form: one non-empty line. */
  type Event = e: string | e != "" && '\n' !in e witness "e"

  const CHANNEL_CAPACITY: nat := 1024
  const BATCH: nat := 256

  // ---- the spool file ----

  function Encode(events: seq<Event>): string {
    if events == [] then "" else events[0] + "\n" + Encode(events[1..])
  }

  /** The non-empty lines of the file. */
  function NonEmpty(lines: seq<string>): (r: seq<Event>)
    requires forall i :: 0 <= i < |lines| ==> '\n' !in lines[i]
  {
    if lines == [] then []
    else if lines[0] == "" then NonEmpty(lines[1..])
    else [lines[0]] + NonEmpty(lines[1..])
  }

  function Decode(data: string): seq<Event> {
    NonEmpty(Split(data, '\n'))
  }

  lemma {:induction false} SpoolRoundTrip(events: seq<Event>)
    ensures Decode(Encode(events)) == events
    decreases |events|
  {
    if events == [] {
      assert Split("", '\n') == [""];
      assert [""][1..] == [];
    } else {
      SpoolRoundTrip(events[1..]);
      var rest := Encode(events[1..]);
      assert Encode(events) == events[0] + ['\n'] + rest;
      SplitConcat(events[0], rest, '\n');
      SplitWhole(events[0], '\n');
      var parts := Split(Encode(events), '\n');
      assert parts == [events[0]] + Split(rest, '\n');
      assert parts[1..] == Split(rest, '\n');
      assert [events[0]] + events[1..] == events;
    }
  }

  /** Position of the first newline at or after `from`, or the length of the data. */
  function NextNewline(data: string, from: nat): (i: nat)
    requires from <= |data|
    ensures from <= i <= |data|
    ensures forall k :: from <= k < i ==> data[k] != '\n'
    ensures i < |data| ==> data[i] == '\n'
    decreases |data| - from
  {
    if from == |data| || data[from] == '\n' then from else NextNewline(data, from + 1)
  }

  /** What is written: all of it, or what follows the first line end in the last `max` bytes. */
  function Trim(data: string, max: nat): string {
    if |data| <= max then data
    else
      var i := NextNewline(data, |data| - max);
      if i < |data| then data[i + 1..] else data
  }

  lemma {:induction false} EncodeSuffix(events: seq<Event>, k: nat)
    requires k <= |events|
    ensures |Encode(events[k..])| <= |Encode(events)|
    ensures Encode(events)[|Encode(events)| - |Encode(events[k..])|..] == Encode(events[k..])
    ensures 0 < k ==> |Encode(events[k..])| < |Encode(events)|
    ensures 0 < k ==> Encode(events)[|Encode(events)| - |Encode(events[k..])| - 1] == '\n'
    decreases k
  {
    if k == 0 {
      assert events[0..] == events;
    } else {
      EncodeSuffix(events[1..], k - 1);
      assert events[1..][k - 1..] == events[k..];
      var head := events[0] + "\n";
      assert Encode(events) == head + Encode(events[1..]);
    }
  }

  /** The newlines of an encoded list are exactly where a suffix of the list begins. */
  lemma {:induction false} NewlinesEndLines(events: seq<Event>, p: nat)
    requires p < |Encode(events)| && Encode(events)[p] == '\n'
    ensures exists k :: 0 < k <= |events| && |Encode(events)| - |Encode(events[k..])| == p + 1
    decreases |events|
  {
    var head := events[0] + "\n";
    var rest := Encode(events[1..]);
    assert Encode(events) == head + rest;
    if p < |head| {
      assert p == |events[0]|;
      assert |Encode(events)| - |Encode(events[1..])| == p + 1;
    } else {
      assert rest[p - |head|] == '\n';
      NewlinesEndLines(events[1..], p - |head|);
      var k :| 0 < k <= |events[1..]| && |rest| - |Encode(events[1..][k..])| == p - |head| + 1;
      assert events[1..][k..] == events[k + 1..];
      assert 0 < k + 1 <= |events| && |Encode(events)| - |Encode(events[k + 1..])| == p + 1;
    }
  }

  /** How many of the oldest events a trim removes. */
  ghost function Cut(events: seq<Event>, max: nat): (k: nat)
    requires max > 0
    ensures k <= |events|
    ensures Trim(Encode(events), max) == Encode(events[k..])
    ensures |Encode(events[k..])| <= max
    ensures |Encode(events)| <= max ==> k == 0
    ensures |Encode(events)| > max ==> 0 < k && |Encode(events[k..])| < max
    ensures |Encode(events)| > max ==> forall j :: 0 <= j < k ==> |Encode(events[j..])| >= max
  {
    TrimExactly(events, max);
    var k: nat :| k <= |events| && CutsAt(events, max, k);
    k
  }

  ghost predicate CutsAt(events: seq<Event>, max: nat, k: nat)
    requires k <= |events|
  {
    && Trim(Encode(events), max) == Encode(events[k..])
    && |Encode(events[k..])| <= max
    && (|Encode(events)| <= max ==> k == 0)
    && (|Encode(events)| > max ==>
          0 < k && |Encode(events[k..])| < max && forall j :: 0 <= j < k ==> |Encode(events[j..])| >= max)
  }

  /**
   Trimming keeps whole lines: the written file spells a suffix of the events within the
   limit, and when it cuts, it cuts no more than needed to get strictly below the limit.
   */
  lemma TrimExactly(events: seq<Event>, max: nat)
    requires max > 0
    ensures exists k: nat :: k <= |events| && CutsAt(events, max, k)
  {
    var data := Encode(events);
    if |data| <= max {
      assert events[0..] == events;
      assert CutsAt(events, max, 0);
    } else {
      EncodeSuffix(events, |events|);
      assert events[|events|..] == [];
      var p := NextNewline(data, |data| - max);
      NewlinesEndLines(events, p);
      var k :| 0 < k <= |events| && |data| - |Encode(events[k..])| == p + 1;
      EncodeSuffix(events, k);
      forall j | 0 <= j < k ensures |Encode(events[j..])| >= max {
        LongerSuffix(events, max, j, k, p);
      }
      assert CutsAt(events, max, k);
    }
  }

  lemma LongerSuffix(events: seq<Event>, max: nat, j: nat, k: nat, p: nat)
    requires j < k <= |events| && |Encode(events)| > max
    requires p == NextNewline(Encode(events), |Encode(events)| - max)
    requires |Encode(events)| - |Encode(events[k..])| == p + 1
    ensures |Encode(events[j..])| >= max
  {
    EncodeSuffix(events, j);
    EncodeSuffix(events[j..], k - j);
    assert events[j..][k - j..] == events[k..];
    if j == 0 {
      assert events[0..] == events;
    } else {
      var q := |Encode(events)| - |Encode(events[j..])| - 1;
      assert q < p && Encode(events)[q] == '\n';
    }
  }

  /** What is read back after a failed flush is the surviving suffix of the batch. */
  lemma SpoolKeepsSuffix(all: seq<Event>, max: nat)
    requires max > 0
    ensures var file := Trim(Encode(all), max);
            Decode(file) == all[Cut(all, max)..] && file == Encode(Decode(file)) && |file| <= max
  {
    SpoolRoundTrip(all[Cut(all, max)..]);
  }

  // ---- the client ----

  /** How an accepted event left the client: posted, cut from a full spool, or without a spool to go to. */
  datatype Fate = Delivered | Trimmed | Lost

  datatype Settled = Settled(event: Event, fate: Fate)

  function Marked(events: seq<Event>, fate: Fate): (r: seq<Settled>)
    ensures |r| == |events| && forall i :: 0 <= i < |r| ==> r[i] == Settled(events[i], fate)
  {
    seq(|events|, i requires 0 <= i < |events| => Settled(events[i], fate))
  }

  function EventsOf(settled: seq<Settled>): (r: seq<Event>)
    ensures |r| == |settled| && forall i :: 0 <= i < |r| ==> r[i] == settled[i].event
  {
    seq(|settled|, i requires 0 <= i < |settled| => settled[i].event)
  }

  lemma EventsOfMarked(settled: seq<Settled>, events: seq<Event>, fate: Fate)
    ensures EventsOf(settled + Marked(events, fate)) == EventsOf(settled) + events
  {
  }

  predicate NoneLost(settled: seq<Settled>) {
    forall i :: 0 <= i < |settled| ==> settled[i].fate != Lost
  }

  /** The client with its background loop; the file is the spool's contents, "" when absent. */
  class Client {
    const maxSpoolBytes: nat
    const hasSpool: bool
    var channel: seq<Event>
    var pending: seq<Event>
    var file: string
    var dropped: nat
    ghost var accepted: seq<Event>
    ghost var settled: seq<Settled>

    /** Nothing is forgotten, repeated or reordered between acceptance and settlement, and with a spool nothing is lost. */
    ghost predicate Valid()
      reads this
    {
      && maxSpoolBytes > 0
      && accepted == EventsOf(settled) + Decode(file) + pending + channel
      && (hasSpool ==> NoneLost(settled))
      && file == Encode(Decode(file)) && |file| <= maxSpoolBytes
      && (!hasSpool ==> file == "")
      && |pending| < 256 && |channel| <= 1024
    }

    constructor (maxSpoolBytes: nat, hasSpool: bool)
      ensures Valid() && accepted == [] && dropped == 0
      ensures this.maxSpoolBytes == (if maxSpoolBytes == 0 then 8_388_608 else maxSpoolBytes) && this.hasSpool == hasSpool
    {
      this.maxSpoolBytes := if maxSpoolBytes == 0 then 0x80_0000 else maxSpoolBytes;
      this.hasSpool := hasSpool;
      channel, pending, file, dropped := [], [], "", 0;
      accepted, settled := [], [];
      new;
      SpoolRoundTrip([]);
    }

    /** Never blocks: a full channel drops the new event and counts it. */
    method Record(e: Event)
      requires Valid()
      modifies this
      ensures Valid()
      ensures if old(|channel|) < 1024
              then channel == old(channel) + [e] && accepted == old(accepted) + [e] && dropped == old(dropped)
              else channel == old(channel) && accepted == old(accepted) && dropped == old(dropped) + 1
      ensures settled == old(settled) && file == old(file) && pending == old(pending)
    {
      if |channel| < CHANNEL_CAPACITY {
        channel := channel + [e];
        accepted := accepted + [e];
        assert EventsOf(settled) + Decode(file) + pending + channel
            == old(EventsOf(settled) + Decode(file) + pending + channel) + [e];
      } else {
        dropped := dropped + 1;
      }
    }

    /** The loop takes one event; a full batch is flushed at once. */
    method Receive(postOk: bool)
      requires Valid() && channel != []
      modifies this
      ensures Valid() && accepted == old(accepted) && dropped == old(dropped)
      ensures channel == old(channel)[1..]
      ensures old(settled) <= settled
      ensures old(|pending|) < 255 ==>
                pending == old(pending) + [old(channel)[0]] && file == old(file) && settled == old(settled)
      ensures old(|pending|) == 255 ==>
                var all := Decode(old(file)) + (old(pending) + [old(channel)[0]]);
                && pending == []
                && (postOk ==> file == "" && settled == old(settled) + Marked(all, Delivered))
                && (!postOk && hasSpool ==>
                      Decode(file) == all[Cut(all, maxSpoolBytes)..]
                      && settled == old(settled) + Marked(all[..Cut(all, maxSpoolBytes)], Trimmed))
                && (!postOk && !hasSpool ==> file == "" && settled == old(settled) + Marked(all, Lost))
    {
      assert EventsOf(settled) + Decode(file) + pending + channel
          == EventsOf(settled) + Decode(file) + (pending + [channel[0]]) + channel[1..];
      pending := pending + [channel[0]];
      channel := channel[1..];
      if |pending| >= BATCH {
        Flush(postOk);
      }
    }

    /** The ticker flushes whatever is pending. */
    method Tick(postOk: bool)
      requires Valid()
      modifies this
      ensures Valid() && accepted == old(accepted) && pending == [] && channel == old(channel)
      ensures old(settled) <= settled
      ensures postOk ==> file == "" && settled == old(settled) + Marked(Decode(old(file)) + old(pending), Delivered)
    {
      Flush(postOk);
    }

    /** Closing drains the channel and flushes once more; everything accepted is settled or spooled, and lost only without a spool. */
    method Shutdown(postOk: bool)
      requires Valid()
      modifies this
      ensures Valid() && accepted == old(accepted) && pending == [] && channel == []
      ensures accepted == EventsOf(settled) + Decode(file) && (hasSpool ==> NoneLost(settled))
      ensures postOk ==>
                EventsOf(settled) == accepted
                && settled == old(settled) + Marked(Decode(old(file)) + old(pending) + old(channel), Delivered)
    {
      while channel != []
        invariant accepted == old(accepted) == EventsOf(settled) + Decode(file) + pending + channel
        invariant settled == old(settled) && file == old(file) && pending + channel == old(pending + channel)
        invariant hasSpool ==> NoneLost(settled)
        invariant |channel| <= 1024
        invariant maxSpoolBytes > 0 && file == Encode(Decode(file)) && |file| <= maxSpoolBytes
        invariant !hasSpool ==> file == ""
        decreases |channel|
      {
        assert EventsOf(settled) + Decode(file) + pending + channel
            == EventsOf(settled) + Decode(file) + (pending + [channel[0]]) + channel[1..];
        assert pending + channel == (pending + [channel[0]]) + channel[1..];
        pending := pending + [channel[0]];
        channel := channel[1..];
      }
      assert pending == old(pending + channel);
      assert Decode(file) + pending == Decode(old(file)) + old(pending) + old(channel);
      Flush(postOk);
      SpoolRoundTrip([]);
    }

    /**
     Posts the spool and the pending events as one batch.  Success delivers all of them; a
     failure writes them back to the spool, cutting only what exceeds the size limit, or
     loses them when there is no spool.
     */
    method Flush(postOk: bool)
      requires maxSpoolBytes > 0 && file == Encode(Decode(file)) && |file| <= maxSpoolBytes
      requires !hasSpool ==> file == ""
      requires |channel| <= 1024
      requires accepted == EventsOf(settled) + Decode(file) + pending + channel && (hasSpool ==> NoneLost(settled))
      modifies this
      ensures Valid() && pending == [] && channel == old(channel) && accepted == old(accepted) && dropped == old(dropped)
      ensures old(settled) <= settled
      ensures postOk ==>
                var all := Decode(old(file)) + old(pending);
                file == "" && settled == old(settled) + Marked(all, Delivered)
      ensures !postOk && hasSpool ==>
                var all := Decode(old(file)) + old(pending);
                var k := Cut(all, maxSpoolBytes);
                Decode(file) == all[k..] && settled == old(settled) + Marked(all[..k], Trimmed)
      ensures !postOk && !hasSpool ==>
                file == "" && settled == old(settled) + Marked(Decode(old(file)) + old(pending), Lost)
    {
      var all := Decode(file) + pending;
      assert accepted == EventsOf(settled) + all + channel;
      if |all| == 0 {
        NothingToFlush(file, pending, maxSpoolBytes);
        pending := [];
        return;
      }
      pending := [];
      if postOk {
        Posted(all);
      } else if hasSpool {
        WriteSpool(all);
      } else {
        SpoolRoundTrip([]);
        Settle(all, all, [], Lost);
      }
    }

    /** The control plane took the batch: the spool file is removed. */
    method Posted(all: seq<Event>)
      requires accepted == EventsOf(settled) + all + channel
      modifies this`settled, this`file
      ensures file == "" && Decode(file) == [] && settled == old(settled) + Marked(all, Delivered)
      ensures accepted == EventsOf(settled) + Decode(file) + [] + channel
    {
      SpoolRoundTrip([]);
      Settle(all, all, [], Delivered);
      file := "";
    }

    /** The batch goes back to disk, oldest lines first to be cut. */
    method WriteSpool(all: seq<Event>)
      requires maxSpoolBytes > 0 && accepted == EventsOf(settled) + all + channel
      modifies this`settled, this`file
      ensures var k := Cut(all, maxSpoolBytes);
              Decode(file) == all[k..] && settled == old(settled) + Marked(all[..k], Trimmed)
      ensures file == Encode(Decode(file)) && |file| <= maxSpoolBytes
      ensures accepted == EventsOf(settled) + Decode(file) + [] + channel
    {
      ghost var k := Cut(all, maxSpoolBytes);
      SpoolKeepsSuffix(all, maxSpoolBytes);
      assert all[..k] + all[k..] == all;
      Settle(all, all[..k], all[k..], Trimmed);
      file := Trim(Encode(all), maxSpoolBytes);
    }

    /** Moves the front of a batch to the settled events; the back stays to be spooled. */
    ghost method Settle(all: seq<Event>, gone: seq<Event>, kept: seq<Event>, fate: Fate)
      requires accepted == EventsOf(settled) + all + channel && all == gone + kept
      modifies this`settled
      ensures settled == old(settled) + Marked(gone, fate)
      ensures accepted == EventsOf(settled) + kept + [] + channel
    {
      EventsOfMarked(settled, gone, fate);
      settled := settled + Marked(gone, fate);
    }
  }

  lemma NothingToFlush(file: string, pending: seq<Event>, max: nat)
    requires max > 0 && Decode(file) + pending == [] && file == Encode(Decode(file))
    ensures file == "" && Decode(file) == [] && pending == [] && Cut([], max) == 0
    ensures Marked([], Delivered) == [] && Marked([], Trimmed) == [] && Marked([], Lost) == []
  {
    assert Decode(file) == [] && pending == [];
  }
}
