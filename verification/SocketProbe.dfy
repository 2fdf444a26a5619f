/**
 The Python probe's end of the same framing: blocking reads of exact sizes from a socket
 that hands out its bytes in arbitrary segments, and a writer of masked text frames.
 */
module SocketProbe {
  import opened Wrappers
  import opened WebSocket

  /** A received frame, the clean end of the stream, or a length field cut short. */
  datatype Received = Received(fin: bool, opcode: bv8, payload: Bytes) | EndOfStream | StructError

  /** A connected socket: the segments still to be delivered before the peer's end of stream. */
  class Socket {
    var segments: seq<Bytes>

    constructor (segments: seq<Bytes>)
      requires [] !in segments
      ensures this.segments == segments && Valid()
    {
      this.segments := segments;
    }

    predicate Valid()
      reads this
    {
      [] !in segments
    }

    function Stream(): Bytes
      reads this
    {
      Join(segments)
    }

    /** Returns between one and `n` available bytes, or none at the end of the stream. */
    method Recv(n: nat) returns (chunk: Bytes)
      requires Valid() && n > 0
      modifies this
      ensures Valid() && chunk + Stream() == old(Stream())
      ensures |chunk| <= n && (chunk == [] ==> old(Stream()) == [])
    {
      if segments == [] {
        return [];
      }
      var s := segments[0];
      if |s| <= n {
        chunk, segments := s, segments[1..];
      } else {
        chunk := s[..n];
        segments := [s[n..]] + segments[1..];
        assert s[..n] + s[n..] == s;
        assert [s[n..]] + old(segments)[1..] == segments && segments[1..] == old(segments)[1..];
        assert s[..n] + (s[n..] + Join(old(segments)[1..])) == s + Join(old(segments)[1..]);
      }
    }

    /** Reads until `n` bytes have arrived or the stream ends. */
    method RecvExact(n: nat) returns (data: Bytes)
      requires Valid()
      modifies this
      ensures Valid() && (data, Stream()) == TakeUpTo(old(Stream()), n)
    {
      data := [];
      while |data| < n
        invariant Valid() && |data| <= n && data + Stream() == old(Stream())
        decreases n - |data|
      {
        var chunk := Recv(n - |data|);
        if chunk == [] {
          assert data + [] == data;
          return;
        }
        data := data + chunk;
      }
      assert old(Stream())[..|data|] == data;
      assert old(Stream())[|data|..] == Stream();
    }

    /** The declared payload length, read from the extension bytes when there are any. */
    method RecvLength(short: nat) returns (length: Option<nat>)
      requires Valid()
      modifies this
      ensures Valid()
      ensures var rest := ReadLength(short, old(Stream()));
              if rest.None? then length.None? && Stream() == []
              else length == Some(rest.value.0) && Stream() == rest.value.1
    {
      if short == 126 {
        var ext := RecvExact(2);
        return if |ext| < 2 then None else Some(ReadUint(ext));
      } else if short == 127 {
        var ext := RecvExact(8);
        return if |ext| < 8 then None else Some(ReadUint(ext));
      }
      length := Some(short);
    }

    /** Mask and payload; a mask cut short by the end of the stream leaves no payload to unmask. */
    method RecvBody(fin: bool, opcode: bv8, masked: bool, length: nat) returns (r: Received)
      requires Valid()
      modifies this
      ensures Valid() && (r, Stream()) == ReadBody(fin, opcode, masked, length, old(Stream()))
    {
      var mask: Bytes := [];
      if masked {
        mask := RecvExact(4);
      }
      var payload := RecvExact(length);
      if masked && |mask| == 4 {
        payload := Mask(payload, mask);
      }
      r := Received(fin, opcode, payload);
    }

    /** Reads one frame in blocking steps: two header bytes, length, mask, payload. */
    method RecvFrame() returns (r: Received)
      requires Valid()
      modifies this
      ensures Valid() && (r, Stream()) == ReadFrame(old(Stream()))
    {
      var header := RecvExact(2);
      if |header| < 2 {
        return EndOfStream;
      }
      r := RecvAfterHeader(header[0], header[1]);
    }

    method RecvAfterHeader(b1: bv8, b2: bv8) returns (r: Received)
      requires Valid()
      modifies this
      ensures Valid() && (r, Stream()) == ReadAfterHeader(b1, b2, old(Stream()))
    {
      var length := RecvLength((b2 & 0x7f) as nat);
      if length.None? {
        return StructError;
      }
      r := RecvBody(b1 & 0x80 != 0, b1 & 0x0f, b2 & 0x80 != 0, length.value);
    }
  }

  function TakeUpTo(s: Bytes, n: nat): (Bytes, Bytes) {
    if n <= |s| then (s[..n], s[n..]) else (s, [])
  }

  /** What is left of the stream after the length field, with the declared payload length. */
  function ReadLength(short: nat, s: Bytes): Option<(nat, Bytes)> {
    if short == 126 then
      if |s| < 2 then None else Some((ReadUint(s[..2]), s[2..]))
    else if short == 127 then
      if |s| < 8 then None else Some((ReadUint(s[..8]), s[8..]))
    else Some((short, s))
  }

  /** The frame read from the front of a stream that ends where the sequence ends. */
  function ReadFrame(s: Bytes): (Received, Bytes) {
    if |s| < 2 then (EndOfStream, []) else ReadAfterHeader(s[0], s[1], s[2..])
  }

  function ReadAfterHeader(b1: bv8, b2: bv8, s: Bytes): (Received, Bytes) {
    var rest := ReadLength((b2 & 0x7f) as nat, s);
    if rest.None? then (StructError, [])
    else ReadBody(b1 & 0x80 != 0, b1 & 0x0f, b2 & 0x80 != 0, rest.value.0, rest.value.1)
  }

  function ReadBody(fin: bool, opcode: bv8, masked: bool, length: nat, s: Bytes): (Received, Bytes) {
    var (mask, s1) := if masked then TakeUpTo(s, 4) else ([], s);
    var (payload, s2) := TakeUpTo(s1, length);
    (Received(fin, opcode, if masked && |mask| == 4 then Mask(payload, mask) else payload), s2)
  }

  /** The probe's own layout of a text frame. */
  method ProbeSendText(payload: Bytes, mask: Bytes) returns (written: Bytes)
    requires |mask| == 4
    ensures written == EncodeText(payload, mask)
  {
    var header: Bytes := [0x81];
    var length := |payload|;
    if length < 126 {
      header := header + [0x80 | (length as bv8)];
    } else if length < 65536 {
      header := header + [0x80 | 126];
      header := header + WriteUint(length, 2);
    } else {
      header := header + [0x80 | 127];
      header := header + WriteUint(length, 8);
    }
    var masked: Bytes := [];
    for i := 0 to |payload|
      invariant |masked| == i && forall k :: 0 <= k < i ==> masked[k] == payload[k] ^ mask[k % 4]
    {
      masked := masked + [payload[i] ^ mask[i % 4]];
    }
    assert masked == Mask(payload, mask);
    assert header == Head(0x81, length, true);
    assert header + mask + masked == header + (mask + masked);
    written := header + mask + masked;
  }

  /** Both readers locate the length field, mask and payload at the same places. */
  lemma SameHeader(s: Bytes)
    requires |s| >= 2
    ensures var h := TryHeader(s);
            var rest := ReadLength((s[1] & 0x7f) as nat, s[2..]);
            && (h.None? <==> rest.None?)
            && (h.Some? ==>
                  && h.value.opcode == s[0] & 0x0f && h.value.masked == (s[1] & 0x80 != 0)
                  && h.value.length == rest.value.0
                  && 0 <= h.value.size - (if h.value.masked then 4 else 0) <= |s|
                  && rest.value.1 == s[h.value.size - (if h.value.masked then 4 else 0)..])
  {
    assert |s| >= 4 ==> s[2..][..2] == s[2..4] && s[2..][2..] == s[4..];
    assert |s| >= 10 ==> s[2..][..8] == s[2..10] && s[2..][8..] == s[10..];
  }

  lemma SameBody(h: Header, s: Bytes, fin: bool)
    requires h.size + h.length <= |s| && (h.masked ==> h.size >= 4)
    ensures var (f, rest) := CutFrame(h, s);
            ReadBody(fin, h.opcode, h.masked, h.length, s[h.size - (if h.masked then 4 else 0)..])
            == (Received(fin, f.opcode, f.payload), rest)
  {
    if h.masked {
      var t := s[h.size - 4..];
      assert t[..4] == s[h.size - 4..h.size] && t[4..] == s[h.size..];
      assert t[4..][..h.length] == s[h.size..h.size + h.length];
      assert t[4..][h.length..] == s[h.size + h.length..];
    } else {
      assert s[h.size..][..h.length] == s[h.size..h.size + h.length];
      assert s[h.size..][h.length..] == s[h.size + h.length..];
    }
  }

  /**
   The two readers agree.  Where the plugin's parser finds a complete frame, the probe reads
   the same opcode and payload and leaves the same bytes.  Where the parser is still waiting,
   the probe has drained the stream and reports its end, a cut-off length, a payload shorter
   than the header declared, or (the one case it cannot tell from a real frame) an empty
   payload whose mask was cut off.
   */
  lemma ReadersAgree(s: Bytes)
    ensures var parsed := TryParseFrame(s);
            var (r, rest) := ReadFrame(s);
            && (parsed.Some? ==>
                  r.Received? && Frame(r.opcode, r.payload) == parsed.value.0 && rest == parsed.value.1)
            && (parsed.None? ==>
                  && rest == []
                  && (r.Received? ==>
                        var h := TryHeader(s).value;
                        |r.payload| < h.length || (h.length == 0 && h.masked && |s| < h.size)))
  {
    if |s| >= 2 {
      SameHeader(s);
      if TryHeader(s).Some? {
        ReadBodyOf(s);
        var h, fin := TryHeader(s).value, s[0] & 0x80 != 0;
        if |s| >= h.size + h.length {
          SameBody(h, s, fin);
        } else {
          ShortBody(h, s, fin);
        }
      }
    }
  }

  /** The stream holds no complete frame, but the probe returns all the payload that was declared. */
  predicate PassesForFrame(s: Bytes) {
    && TryParseFrame(s).None? && ReadFrame(s).0.Received?
    && TryHeader(s).Some? && |ReadFrame(s).0.payload| == TryHeader(s).value.length
  }

  /**
   The probe takes an incomplete frame for a whole one exactly when the header declares a mask
   and an empty payload and the stream ends inside the mask.
   */
  lemma UndetectedCutExactly(s: Bytes)
    ensures PassesForFrame(s)
            <==> TryHeader(s).Some?
                 && var h := TryHeader(s).value; h.length == 0 && h.masked && |s| < h.size
  {
    if TryHeader(s).Some? {
      ReadersAgree(s);
      ReadBodyOf(s);
      var h, fin := TryHeader(s).value, s[0] & 0x80 != 0;
      if |s| < h.size + h.length {
        ShortBody(h, s, fin);
        NoPayload(h, s, fin);
      }
    }
  }

  lemma NoPayload(h: Header, s: Bytes, fin: bool)
    requires h.length == 0 ==> h.size - (if h.masked then 4 else 0) <= |s| && (h.masked ==> h.size >= 4)
    ensures h.length == 0 ==>
              var (r, _) := ReadBody(fin, h.opcode, h.masked, h.length, s[h.size - (if h.masked then 4 else 0)..]);
              r.Received? && |r.payload| == 0
  {
  }

  /** The shortest such stream: two octets of a masked text frame that never got its mask. */
  lemma CutMaskPassesForFrame()
    ensures PassesForFrame([0x81, 0x80]) && ReadFrame([0x81, 0x80]) == (Received(true, TEXT, []), [])
  {
    var s: Bytes := [0x81, 0x80];
    assert (0x80 as bv8) & 0x7f == 0 && (0x80 as bv8) & 0x80 != 0 && (0x81 as bv8) & 0x0f == 1 && (0x81 as bv8) & 0x80 != 0;
    assert TryHeader(s) == Some(Header(TEXT, 0, 6, true));
    UndetectedCutExactly(s);
    assert s[2..] == [];
  }

  lemma ReadBodyOf(s: Bytes)
    requires |s| >= 2 && TryHeader(s).Some?
    ensures var h := TryHeader(s).value;
            && 0 <= h.size - (if h.masked then 4 else 0) <= |s| && (h.masked ==> h.size >= 4)
            && ReadFrame(s) == ReadBody(s[0] & 0x80 != 0, h.opcode, h.masked, h.length,
                                        s[h.size - (if h.masked then 4 else 0)..])
  {
    SameHeader(s);
  }

  lemma ShortBody(h: Header, s: Bytes, fin: bool)
    requires h.size - (if h.masked then 4 else 0) <= |s| < h.size + h.length && (h.masked ==> h.size >= 4)
    ensures var (r, rest) := ReadBody(fin, h.opcode, h.masked, h.length, s[h.size - (if h.masked then 4 else 0)..]);
            rest == [] && (|r.payload| < h.length || (h.length == 0 && h.masked && |s| < h.size))
  {
  }
}
