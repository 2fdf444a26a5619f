/**
 WebSocket framing (sections 5.2 and 5.3 of RFC 6455): the incremental parser and masking
 writer of the channel plugin.
 */
module WebSocket {
  import opened Wrappers
  import opened OctetBits

  type Bytes = seq<bv8>

  const TEXT: bv8 := 1
  const CLOSE: bv8 := 8

  datatype Frame = Frame(opcode: bv8, payload: Bytes)

  // ---- big-endian integers ----

  function Pow256(k: nat): nat { if k == 0 then 1 else 256 * Pow256(k - 1) }

  function ReadUint(b: Bytes): nat {
    if |b| == 0 then 0 else ReadUint(b[..|b| - 1]) * 256 + b[|b| - 1] as nat
  }

  function WriteUint(n: nat, k: nat): (r: Bytes)
    ensures |r| == k
  {
    if k == 0 then [] else WriteUint(n / 256, k - 1) + [(n % 256) as bv8]
  }

  lemma {:induction false} UintRoundTrip(n: nat, k: nat)
    requires n < Pow256(k)
    ensures ReadUint(WriteUint(n, k)) == n
    decreases k
  {
    if k > 0 {
      UintRoundTrip(n / 256, k - 1);
      ReadUintSnoc(WriteUint(n / 256, k - 1), (n % 256) as bv8);
      ByteRoundTrip(n % 256);
    }
  }

  lemma ReadUintSnoc(b: Bytes, last: bv8)
    ensures ReadUint(b + [last]) == ReadUint(b) * 256 + last as nat
  {
    assert (b + [last])[..|b|] == b;
  }

  lemma {:induction false} ReadUintBelow(b: Bytes)
    ensures ReadUint(b) < Pow256(|b|)
    decreases |b|
  {
    if |b| > 0 {
      ReadUintBelow(b[..|b| - 1]);
    }
  }

  lemma Pow256Values()
    ensures Pow256(2) == 65536 && Pow256(8) == 0x1_0000_0000_0000_0000
  {
    assert Pow256(4) == 65536 * 65536;
    assert Pow256(8) == 65536 * 65536 * 65536 * 65536;
  }

  // ---- masking ----

  function Mask(payload: Bytes, mask: Bytes): (r: Bytes)
    requires |mask| == 4
    ensures |r| == |payload|
    ensures forall i :: 0 <= i < |r| ==> r[i] == payload[i] ^ mask[i % 4]
  {
    seq(|payload|, i requires 0 <= i < |payload| => payload[i] ^ mask[i % 4])
  }

  lemma MaskTwice(payload: Bytes, mask: Bytes)
    requires |mask| == 4
    ensures Mask(Mask(payload, mask), mask) == payload
  {
    var once := Mask(payload, mask);
    forall i | 0 <= i < |payload| ensures Mask(once, mask)[i] == payload[i] {
      assert (payload[i] ^ mask[i % 4]) ^ mask[i % 4] == payload[i];
    }
  }

  /** XORs a buffer with the repeated mask in place. */
  method MaskInPlace(a: array<bv8>, mask: Bytes)
    requires |mask| == 4
    modifies a
    ensures a[..] == Mask(old(a[..]), mask)
  {
    var i := 0;
    while i < a.Length
      invariant 0 <= i <= a.Length
      invariant forall k :: 0 <= k < i ==> a[k] == old(a[k]) ^ mask[k % 4]
      invariant forall k :: i <= k < a.Length ==> a[k] == old(a[k])
    {
      a[i] := a[i] ^ mask[i % 4];
      i := i + 1;
    }
  }

  // ---- the plugin's parser ----

  /** The fields in front of a payload: declared length, header size, and whether it is masked. */
  datatype Header = Header(opcode: bv8, length: nat, size: nat, masked: bool)

  function TryHeader(buffer: Bytes): Option<Header> {
    if |buffer| < 2 then None
    else
      var opcode := buffer[0] & 0x0f;
      var short := (buffer[1] & 0x7f) as nat;
      var masked := buffer[1] & 0x80 != 0;
      var maskSize := if masked then 4 else 0;
      if short == 126 then
        if |buffer| < 4 then None else Some(Header(opcode, ReadUint(buffer[2..4]), 4 + maskSize, masked))
      else if short == 127 then
        if |buffer| < 10 then None else Some(Header(opcode, ReadUint(buffer[2..10]), 10 + maskSize, masked))
      else Some(Header(opcode, short, 2 + maskSize, masked))
  }

  /** One complete frame and the bytes after it, or nothing while the frame is incomplete. */
  function TryParseFrame(buffer: Bytes): (r: Option<(Frame, Bytes)>)
    ensures r.Some? ==> |r.value.1| + 2 <= |buffer|
  {
    var h := TryHeader(buffer);
    if h.None? || |buffer| < h.value.size + h.value.length then None else Some(CutFrame(h.value, buffer))
  }

  /** The payload behind a header, unmasked, and what follows it. */
  function CutFrame(h: Header, buffer: Bytes): (Frame, Bytes)
    requires h.size + h.length <= |buffer| && (h.masked ==> h.size >= 4)
  {
    var body := buffer[h.size..h.size + h.length];
    var payload := if h.masked then Mask(body, buffer[h.size - 4..h.size]) else body;
    (Frame(h.opcode, payload), buffer[h.size + h.length..])
  }

  // ---- the plugin's writer ----

  /** The second octet: the mask flag and a length below 128. */
  function LengthOctet(n: nat, masked: bool): (r: bv8)
    requires n < 128
  {
    if masked then 0x80 | (n as bv8) else n as bv8
  }

  /** First octet, mask flag and length in its shortest form (section 5.2 of RFC 6455). */
  function Head(first: bv8, n: nat, masked: bool): Bytes {
    if n < 126 then [first, LengthOctet(n, masked)]
    else if n < 65536 then [first, LengthOctet(126, masked)] + WriteUint(n, 2)
    else [first, LengthOctet(127, masked)] + WriteUint(n, 8)
  }

  function EncodeFrame(first: bv8, payload: Bytes, mask: Option<Bytes>): Bytes
    requires mask.Some? ==> |mask.value| == 4
  {
    Head(first, |payload|, mask.Some?) + (if mask.Some? then mask.value + Mask(payload, mask.value) else payload)
  }

  /** The frame bytes written for a text payload under a random mask: final, text, masked. */
  function EncodeText(payload: Bytes, mask: Bytes): Bytes
    requires |mask| == 4
  {
    EncodeFrame(0x81, payload, Some(mask))
  }

  /** Builds the bytes of one text frame: header pieces, mask, masked payload. */
  method SendText(payload: Bytes, mask: Bytes) returns (written: Bytes)
    requires |mask| == 4
    ensures written == EncodeText(payload, mask)
    ensures written[0] == 0x81 && written[1] & 0x80 != 0
  {
    var header: Bytes := [0x81];
    if |payload| < 126 {
      header := header + [0x80 | (|payload| as bv8)];
    } else if |payload| < 65536 {
      header := header + [0x80 | 126] + WriteUint(|payload|, 2);
    } else {
      header := header + [0x80 | 127] + WriteUint(|payload|, 8);
    }
    var masked := new bv8[|payload|](i requires 0 <= i < |payload| => payload[i]);
    assert masked[..] == payload;
    MaskInPlace(masked, mask);
    assert header == Head(0x81, |payload|, true);
    assert header + mask + masked[..] == header + (mask + masked[..]);
    written := header + mask + masked[..];
    MaskFlagSet(|payload|);
  }

  lemma MaskFlagSet(n: nat)
    ensures Head(0x81, n, true)[1] & 0x80 != 0
  {
    LengthOctetReads(if n < 126 then n else if n < 65536 then 126 else 127, true);
  }

  lemma ShortLength(n: nat)
    requires n < 128
    ensures ((0x80 | (n as bv8)) & 0x7f) as nat == n
  {
    var b := n as bv8;
    ByteRoundTrip(n);
    LowBits(b);
  }

  lemma LengthOctetReads(n: nat, masked: bool)
    requires n < 128
    ensures (LengthOctet(n, masked) & 0x7f) as nat == n
    ensures LengthOctet(n, masked) & 0x80 != 0 <==> masked
  {
    if masked {
      ShortLength(n);
      MaskBitSet(n as bv8);
    } else {
      ByteRoundTrip(n);
      PlainBits(n as bv8);
    }
  }

  lemma PlainHeader(first: bv8, second: bv8, tail: Bytes)
    requires (second & 0x7f) as nat < 126
    ensures var masked := second & 0x80 != 0;
            TryHeader([first, second] + tail)
            == Some(Header(first & 0x0f, (second & 0x7f) as nat, if masked then 6 else 2, masked))
  {
  }

  lemma ExtendedHeader(first: bv8, second: bv8, ext: Bytes, tail: Bytes)
    requires ((second & 0x7f) as nat == 126 && |ext| == 2) || ((second & 0x7f) as nat == 127 && |ext| == 8)
    ensures var masked := second & 0x80 != 0;
            TryHeader([first, second] + ext + tail)
            == Some(Header(first & 0x0f, ReadUint(ext), if masked then |ext| + 6 else |ext| + 2, masked))
  {
    var b := [first, second] + ext + tail;
    assert b[2..2 + |ext|] == ext;
  }

  lemma HeadParses(first: bv8, n: nat, masked: bool, tail: Bytes)
    requires n < Pow256(8)
    ensures var h := Head(first, n, masked);
            TryHeader(h + tail) == Some(Header(first & 0x0f, n, if masked then |h| + 4 else |h|, masked))
  {
    Pow256Values();
    if n < 126 {
      LengthOctetReads(n, masked);
      PlainHeader(first, LengthOctet(n, masked), tail);
    } else {
      var k := if n < 65536 then 2 else 8;
      var short := if n < 65536 then 126 else 127;
      LengthOctetReads(short, masked);
      UintRoundTrip(n, k);
      ExtendedHeader(first, LengthOctet(short, masked), WriteUint(n, k), tail);
    }
  }

  /**
   Every frame of the standard, from the server's unmasked ones to masked ones of any kind,
   parses to the low four bits of its first octet, its payload and what follows it.
   */
  lemma AnyFrameParses(first: bv8, payload: Bytes, mask: Option<Bytes>, rest: Bytes)
    requires (mask.Some? ==> |mask.value| == 4) && |payload| < Pow256(8)
    ensures TryParseFrame(EncodeFrame(first, payload, mask) + rest) == Some((Frame(first & 0x0f, payload), rest))
  {
    var h := Head(first, |payload|, mask.Some?);
    var body := if mask.Some? then mask.value + Mask(payload, mask.value) else payload;
    HeadParses(first, |payload|, mask.Some?, body + rest);
    assert EncodeFrame(first, payload, mask) + rest == h + (body + rest);
    if mask.Some? {
      CutMasked(first & 0x0f, h, payload, mask.value, rest);
    } else {
      CutPlain(first & 0x0f, h, payload, rest);
    }
  }

  lemma CutPlain(opcode: bv8, h: Bytes, payload: Bytes, rest: Bytes)
    ensures CutFrame(Header(opcode, |payload|, |h|, false), h + (payload + rest)) == (Frame(opcode, payload), rest)
  {
    var b := h + (payload + rest);
    assert b[|h|..|h| + |payload|] == payload && b[|h| + |payload|..] == rest;
  }

  lemma CutMasked(opcode: bv8, h: Bytes, payload: Bytes, mask: Bytes, rest: Bytes)
    requires |mask| == 4
    ensures CutFrame(Header(opcode, |payload|, |h| + 4, true), h + (mask + Mask(payload, mask) + rest))
            == (Frame(opcode, payload), rest)
  {
    var b := h + (mask + Mask(payload, mask) + rest);
    var size := |h| + 4;
    assert b[size - 4..size] == mask && b[size..size + |payload|] == Mask(payload, mask);
    assert b[size + |payload|..] == rest;
    MaskTwice(payload, mask);
  }

  /** Every written frame, followed by anything, parses back to its payload and that rest. */
  lemma WrittenFrameParses(payload: Bytes, mask: Bytes, rest: Bytes)
    requires |mask| == 4 && |payload| < Pow256(8)
    ensures TryParseFrame(EncodeText(payload, mask) + rest) == Some((Frame(TEXT, payload), rest))
  {
    AnyFrameParses(0x81, payload, Some(mask), rest);
    assert (0x81 as bv8) & 0x0f == 1;
  }

  /** No masked encoding the parser accepts for this payload is shorter than the written one. */
  lemma WrittenFrameIsShortest(payload: Bytes, mask: Bytes, other: Bytes, opcode: bv8)
    requires |mask| == 4 && |payload| < Pow256(8)
    requires TryParseFrame(other) == Some((Frame(opcode, payload), []))
    requires TryHeader(other).value.masked
    ensures |EncodeText(payload, mask)| <= |other|
  {
    Pow256Values();
    var h := TryHeader(other).value;
    assert h.length == |payload|;
    if h.size == 8 {
      ReadUintBelow(other[2..4]);
    }
  }

  // ---- chunking ----

  lemma MoreBytesKeepHeader(b: Bytes, c: Bytes)
    requires TryHeader(b).Some?
    ensures TryHeader(b + c) == TryHeader(b)
  {
    assert |b| >= 4 ==> (b + c)[2..4] == b[2..4];
    assert |b| >= 10 ==> (b + c)[2..10] == b[2..10];
  }

  lemma MoreBytesKeepCut(h: Header, b: Bytes, c: Bytes)
    requires h.size + h.length <= |b| && (h.masked ==> h.size >= 4)
    ensures CutFrame(h, b + c) == (CutFrame(h, b).0, CutFrame(h, b).1 + c)
  {
    var end := h.size + h.length;
    assert (b + c)[h.size..end] == b[h.size..end];
    assert h.masked ==> (b + c)[h.size - 4..h.size] == b[h.size - 4..h.size];
    assert (b + c)[end..] == b[end..] + c;
  }

  lemma MoreBytesKeepFrame(b: Bytes, c: Bytes)
    requires TryParseFrame(b).Some?
    ensures TryParseFrame(b + c) == Some((TryParseFrame(b).value.0, TryParseFrame(b).value.1 + c))
  {
    MoreBytesKeepHeader(b, c);
    MoreBytesKeepCut(TryHeader(b).value, b, c);
  }

  type Parser = Bytes -> Option<(Frame, Bytes)>

  const FRAMES: Parser := TryParseFrame

  /** An incremental parser: it consumes what it recognises, and later bytes change nothing. */
  ghost predicate Incremental(p: Parser) {
    && (forall b :: p(b).Some? ==> |p(b).value.1| < |b|)
    && (forall b, c :: p(b).Some? ==> p(b + c) == Some((p(b).value.0, p(b).value.1 + c)))
  }

  lemma FramesAreIncremental()
    ensures Incremental(FRAMES)
  {
    forall b, c | FRAMES(b).Some? ensures FRAMES(b + c) == Some((FRAMES(b).value.0, FRAMES(b).value.1 + c)) {
      MoreBytesKeepFrame(b, c);
    }
  }

  /** What one flush extracts: every complete frame, stopping after a close frame. */
  ghost function Flush(p: Parser, buffer: Bytes): (r: (seq<Frame>, Bytes))
    requires Incremental(p)
    decreases |buffer|
  {
    if p(buffer).None? then ([], buffer)
    else
      var (f, rest) := p(buffer).value;
      if f.opcode == CLOSE then ([f], rest) else ([f] + Flush(p, rest).0, Flush(p, rest).1)
  }

  predicate HasClose(fs: seq<Frame>) {
    exists f | f in fs :: f.opcode == CLOSE
  }

  /** The frames up to and including the first close frame. */
  function UpToClose(fs: seq<Frame>): seq<Frame> {
    if fs == [] then [] else if fs[0].opcode == CLOSE then [fs[0]] else [fs[0]] + UpToClose(fs[1..])
  }

  lemma HasCloseCons(f: Frame, fs: seq<Frame>)
    ensures HasClose([f] + fs) <==> f.opcode == CLOSE || HasClose(fs)
  {
    assert forall g :: g in [f] + fs <==> g == f || g in fs;
  }

  lemma {:induction false} FlushConcat(p: Parser, b: Bytes, c: Bytes)
    requires Incremental(p)
    ensures var (fs, rest) := Flush(p, b);
            if HasClose(fs) then Flush(p, b + c) == (fs, rest + c)
            else Flush(p, b + c) == (fs + Flush(p, rest + c).0, Flush(p, rest + c).1)
    decreases |b|
  {
    if p(b).None? {
      assert [] + Flush(p, b + c).0 == Flush(p, b + c).0;
    } else {
      var (f, rest) := p(b).value;
      assert p(b + c) == Some((f, rest + c));
      if f.opcode == CLOSE {
        HasCloseCons(f, []);
        assert [f] + [] == [f];
      } else {
        FlushConcat(p, rest, c);
        var (tail, end) := Flush(p, rest);
        HasCloseCons(f, tail);
        assert [f] + (tail + Flush(p, end + c).0) == ([f] + tail) + Flush(p, end + c).0;
      }
    }
  }

  lemma {:induction false} UpToCloseConcat(a: seq<Frame>, b: seq<Frame>)
    ensures UpToClose(a + b) == if HasClose(a) then UpToClose(a) else a + UpToClose(b)
    decreases |a|
  {
    if a == [] {
      assert a + b == b;
    } else {
      assert (a + b)[1..] == a[1..] + b;
      UpToCloseConcat(a[1..], b);
      assert forall g :: g in a <==> g == a[0] || g in a[1..];
      assert a[0] in a;
      assert [a[0]] + (a[1..] + UpToClose(b)) == a + UpToClose(b);
    }
  }

  function Join(chunks: seq<Bytes>): Bytes {
    if chunks == [] then [] else chunks[0] + Join(chunks[1..])
  }

  /** All frames extracted while the chunks arrive one by one, starting from a buffer. */
  ghost function Feed(p: Parser, buffer: Bytes, chunks: seq<Bytes>): seq<Frame>
    requires Incremental(p)
    decreases |chunks|
  {
    if chunks == [] then []
    else
      var (fs, rest) := Flush(p, buffer + chunks[0]);
      fs + Feed(p, rest, chunks[1..])
  }

  lemma {:induction false} FlushedBuffer(p: Parser, buffer: Bytes)
    requires Incremental(p) && !HasClose(Flush(p, buffer).0)
    ensures Flush(p, Flush(p, buffer).1) == ([], Flush(p, buffer).1)
    decreases |buffer|
  {
    if p(buffer).Some? {
      var (f, rest) := p(buffer).value;
      HasCloseCons(f, if f.opcode == CLOSE then [] else Flush(p, rest).0);
      assert f.opcode == CLOSE ==> [f] + [] == [f];
      FlushedBuffer(p, rest);
    }
  }

  /** A buffer that holds no complete frame, then the chunks: as if they arrived in one piece. */
  lemma {:induction false} FeedAsOne(p: Parser, buffer: Bytes, chunks: seq<Bytes>)
    requires Incremental(p) && Flush(p, buffer) == ([], buffer)
    ensures UpToClose(Feed(p, buffer, chunks)) == UpToClose(Flush(p, buffer + Join(chunks)).0)
    decreases |chunks|
  {
    if chunks == [] {
      assert buffer + Join(chunks) == buffer;
    } else {
      var b := buffer + chunks[0];
      var (fs, rest) := Flush(p, b);
      assert buffer + Join(chunks) == b + Join(chunks[1..]);
      FlushConcat(p, b, Join(chunks[1..]));
      UpToCloseConcat(fs, Feed(p, rest, chunks[1..]));
      if HasClose(fs) {
      } else {
        FlushedBuffer(p, b);
        FeedAsOne(p, rest, chunks[1..]);
        UpToCloseConcat(fs, Flush(p, rest + Join(chunks[1..])).0);
      }
    }
  }

  /** However a stream is split into chunks, the frames up to the first close are the same. */
  lemma ChunkingIsInvisible(chunks: seq<Bytes>, others: seq<Bytes>)
    requires Join(chunks) == Join(others)
    ensures Incremental(FRAMES)
    ensures UpToClose(Feed(FRAMES, [], chunks)) == UpToClose(Feed(FRAMES, [], others))
  {
    FramesAreIncremental();
    assert TryParseFrame([]) == None;
    FeedAsOne(FRAMES, [], chunks);
    FeedAsOne(FRAMES, [], others);
  }

  /** The plugin's client: bytes arrive, frames go to waiting receivers, a close ends it. */
  class RawWebSocketClient {
    var buffer: Bytes
    var waiters: nat
    var closed: bool
    var resolved: seq<Frame>
    ghost var extracted: seq<Frame>

    constructor ()
      ensures buffer == [] && waiters == 0 && !closed && resolved == [] && extracted == []
    {
      buffer, waiters, closed, resolved, extracted := [], 0, false, [], [];
    }

    /** A chunk from the socket: complete frames are taken off in order, up to a close frame. */
    method OnData(chunk: Bytes)
      modifies this
      ensures Incremental(FRAMES)
      ensures Flushed(Flush(FRAMES, old(buffer) + chunk), old(waiters), old(closed), old(resolved), old(extracted))
      ensures var bytes := old(buffer) + chunk;
              && (TryParseFrame(bytes).None? ==>
                    buffer == bytes && waiters == old(waiters) && closed == old(closed) && resolved == old(resolved))
              && (TryParseFrame(bytes).Some? && bytes[0] & 0x0f == 0x8 ==>
                    && closed && waiters == 0 && resolved == old(resolved)
                    && buffer == TryParseFrame(bytes).value.1)
              && (TryParseFrame(bytes).Some? && bytes[0] & 0x0f != 0x8 && old(waiters) > 0 ==>
                    old(resolved) + [TryParseFrame(bytes).value.0] <= resolved)
      ensures closed <==> old(closed) || exists i :: |old(extracted)| <= i < |extracted| && extracted[i].opcode == 0x8
    {
      FramesAreIncremental();
      ghost var from := Client(waiters, closed, resolved, extracted);
      ghost var bytes := buffer + chunk;
      if TryParseFrame(bytes).Some? {
        FirstFrameDecides(bytes, from);
      }
      buffer := buffer + chunk;
      FlushFrames(FRAMES);
      ghost var fs := Flush(FRAMES, bytes).0;
      assert extracted == from.extracted + fs;
      CloseIsAmong(from.extracted, fs);
      assert After(from, fs) == Client(waiters, closed, resolved, extracted);
    }

    /** The client after a flush that produced `out`: who got which frame, and what is left. */
    ghost predicate Flushed(out: (seq<Frame>, Bytes), waiters0: nat, closed0: bool,
                            resolved0: seq<Frame>, extracted0: seq<Frame>)
      reads this
    {
      var (fs, rest) := out;
      var data := DataFrames(fs);
      && buffer == rest && extracted == extracted0 + fs
      && closed == (closed0 || HasClose(fs))
      && resolved == resolved0 + Served(waiters0, data)
      && waiters == (if HasClose(fs) then 0 else waiters0 - |Served(waiters0, data)|)
    }

    method FlushFrames(p: Parser)
      requires Incremental(p)
      modifies this
      ensures Flushed(Flush(p, old(buffer)), old(waiters), old(closed), old(resolved), old(extracted))
    {
      ghost var start := buffer;
      ghost var fs: seq<Frame> := [];
      ghost var from := Client(waiters, closed, resolved, extracted);
      var frame: Option<Frame> := Some(Frame(TEXT, []));
      FlushStarts(p, buffer);
      assert After(from, []) == from by {
        assert Served(waiters, []) == [];
      }
      while frame.Some? && frame.value.opcode != CLOSE
        invariant HasClose(fs) <==> frame.Some? && frame.value.opcode == CLOSE
        invariant Client(waiters, closed, resolved, extracted) == After(from, fs)
        invariant FlushReached(p, start, fs, buffer, frame.None? || HasClose(fs))
        decreases frame.Some? && frame.value.opcode != CLOSE, |buffer|
      {
        var next := p(buffer);
        FlushContinues(p, start, fs, buffer);
        if next.None? {
          frame := None;
        } else {
          AfterOneMore(from, fs, next.value.0);
          frame := Some(next.value.0);
          buffer := next.value.1;
          Take(frame.value);
          fs := fs + [frame.value];
        }
      }
    }

    /** One frame: a close ends everything, another one goes to the first waiting receiver. */
    method Take(frame: Frame)
      modifies this`waiters, this`closed, this`resolved, this`extracted
      ensures Client(waiters, closed, resolved, extracted)
              == Taken(Client(old(waiters), old(closed), old(resolved), old(extracted)), frame)
    {
      extracted := extracted + [frame];
      if frame.opcode == CLOSE {
        closed, waiters := true, 0;
      } else if waiters > 0 {
        waiters := waiters - 1;
        resolved := resolved + [frame];
      }
    }
  }

  /** What a client has to show for the frames it took off its buffer. */
  datatype Client = Client(waiters: int, closed: bool, resolved: seq<Frame>, extracted: seq<Frame>)

  function Taken(c: Client, f: Frame): Client {
    if f.opcode == CLOSE then Client(0, true, c.resolved, c.extracted + [f])
    else if c.waiters > 0 then Client(c.waiters - 1, c.closed, c.resolved + [f], c.extracted + [f])
    else c.(extracted := c.extracted + [f])
  }

  /** The client after the frames `fs`: each waiting receiver got one data frame, in order. */
  function After(from: Client, fs: seq<Frame>): Client
    requires from.waiters >= 0
  {
    var data := DataFrames(fs);
    Client(if HasClose(fs) then 0 else from.waiters - |Served(from.waiters, data)|,
           from.closed || HasClose(fs), from.resolved + Served(from.waiters, data), from.extracted + fs)
  }

  lemma AfterOneMore(from: Client, fs: seq<Frame>, f: Frame)
    requires from.waiters >= 0 && !HasClose(fs)
    ensures After(from, fs + [f]) == Taken(After(from, fs), f)
    ensures HasClose(fs + [f]) <==> f.opcode == CLOSE
  {
    Snoc(from.waiters, fs, f);
    assert from.extracted + (fs + [f]) == (from.extracted + fs) + [f];
    assert from.resolved + (Served(from.waiters, fs) + [f]) == (from.resolved + Served(from.waiters, fs)) + [f];
  }

  lemma CloseIsAmong(before: seq<Frame>, fs: seq<Frame>)
    ensures HasClose(fs) <==> exists i :: |before| <= i < |before + fs| && (before + fs)[i].opcode == 0x8
  {
    if HasClose(fs) {
      var f :| f in fs && f.opcode == CLOSE;
      var i :| 0 <= i < |fs| && fs[i] == f;
      assert (before + fs)[|before| + i] == f;
    }
  }

  lemma AfterFirst(from: Client, f: Frame, fs: seq<Frame>)
    requires from.waiters >= 0 && f.opcode != 0x8
    ensures Taken(from, f).waiters >= 0 && After(from, [f] + fs) == After(Taken(from, f), fs)
  {
    HasCloseCons(f, fs);
    var data := DataFrames(fs);
    assert DataFrames([f] + fs) == [f] + data by {
      if HasClose(fs) {
        assert ([f] + fs)[..|fs|] == [f] + fs[..|fs| - 1];
      }
    }
    assert from.extracted + ([f] + fs) == (from.extracted + [f]) + fs;
    if from.waiters > 0 {
      assert Served(from.waiters, [f] + data) == [f] + Served(from.waiters - 1, data);
      assert from.resolved + ([f] + Served(from.waiters - 1, data)) == (from.resolved + [f]) + Served(from.waiters - 1, data);
    } else {
      assert Served(0, [f] + data) == [] && Served(0, data) == [];
    }
  }

  /**
   The first frame in the buffer, told from its bytes: low four bits 8 close the client, reject
   every waiting receiver and stop there; with any other the first receiver gets the frame,
   which closes nothing, and the rest of the buffer is flushed as if it had come alone.
   */
  lemma FirstFrameDecides(bytes: Bytes, from: Client)
    requires from.waiters >= 0 && TryParseFrame(bytes).Some?
    ensures Incremental(FRAMES)
    ensures var (f, rest) := TryParseFrame(bytes).value;
            && f.opcode == bytes[0] & 0x0f
            && (bytes[0] & 0x0f == 0x8 ==>
                  && Flush(FRAMES, bytes) == ([f], rest)
                  && After(from, [f]) == Client(0, true, from.resolved, from.extracted + [f]))
            && (bytes[0] & 0x0f != 0x8 ==>
                  var next := Client(if from.waiters > 0 then from.waiters - 1 else 0, from.closed,
                                     from.resolved + (if from.waiters > 0 then [f] else []), from.extracted + [f]);
                  && Flush(FRAMES, bytes).1 == Flush(FRAMES, rest).1
                  && After(from, Flush(FRAMES, bytes).0) == After(next, Flush(FRAMES, rest).0))
  {
    FramesAreIncremental();
    var (f, rest) := TryParseFrame(bytes).value;
    if f.opcode == 0x8 {
      HasCloseCons(f, []);
      assert [f] + [] == [f];
      assert Served(from.waiters, []) == [];
      assert from.resolved + [] == from.resolved;
    } else {
      AfterFirst(from, f, Flush(FRAMES, rest).0);
      assert from.resolved + [] == from.resolved;
    }
  }

  /** After taking `fs` off `start`, `buffer` is left; `over` says that the flush ends here. */
  ghost predicate FlushReached(p: Parser, start: Bytes, fs: seq<Frame>, buffer: Bytes, over: bool)
    requires Incremental(p)
  {
    if over then Flush(p, start) == (fs, buffer)
    else Flush(p, start) == (fs + Flush(p, buffer).0, Flush(p, buffer).1)
  }

  lemma FlushStarts(p: Parser, buffer: Bytes)
    requires Incremental(p)
    ensures FlushReached(p, buffer, [], buffer, false)
  {
    assert [] + Flush(p, buffer).0 == Flush(p, buffer).0;
  }

  lemma FlushContinues(p: Parser, start: Bytes, fs: seq<Frame>, buffer: Bytes)
    requires Incremental(p) && FlushReached(p, start, fs, buffer, false)
    ensures p(buffer).None? ==> FlushReached(p, start, fs, buffer, true)
    ensures p(buffer).Some? ==>
              var (f, rest) := p(buffer).value;
              |rest| < |buffer| && FlushReached(p, start, fs + [f], rest, f.opcode == CLOSE)
  {
    if p(buffer).None? {
      assert fs + [] == fs;
    } else {
      var (f, rest) := p(buffer).value;
      assert fs + ([f] + Flush(p, rest).0) == (fs + [f]) + Flush(p, rest).0;
    }
  }

  /** Everything but a final close frame. */
  function DataFrames(fs: seq<Frame>): seq<Frame> {
    if HasClose(fs) then fs[..|fs| - 1] else fs
  }

  /** What `n` waiting receivers get: one frame each, in order; surplus frames are dropped. */
  function Served(n: nat, fs: seq<Frame>): seq<Frame> {
    if n <= |fs| then fs[..n] else fs
  }

  lemma Snoc(n: nat, fs: seq<Frame>, f: Frame)
    requires !HasClose(fs)
    ensures HasClose(fs + [f]) <==> f.opcode == CLOSE
    ensures DataFrames(fs + [f]) == if f.opcode == CLOSE then fs else fs + [f]
    ensures Served(n, fs + [f]) == if |fs| < n then Served(n, fs) + [f] else Served(n, fs)
  {
    assert forall g :: g in fs + [f] <==> g in fs || g == f;
    assert (fs + [f])[..|fs|] == fs;
  }
}
