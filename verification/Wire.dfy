/**
 The agent's wire format (src/ipc.cpp, apps/desktop/src-tauri/src/ipc/protocol.rs): big-endian
 length-prefixed strings inside length-prefixed packets, over a stream that delivers as it likes.
 */
module Wire {
  import opened Prelude
  import opened Endian
  import opened Slices
  import opened Utf8
  import opened Storage

  const MAX_PAYLOAD := 2 * 1024 * 1024

  datatype Packet = Packet(opcode: byte, payload: bytes)

  function Frame(p: Packet): (b: bytes)
    ensures |b| == 5 + |p.payload|
  {
    Be(Low32(|p.payload|), 4) + [p.opcode] + p.payload
  }

  function Stream(ps: seq<Packet>): (b: bytes) {
    if ps == [] then [] else Frame(ps[0]) + Stream(ps[1..])
  }

  predicate Sendable(p: Packet) {
    |p.payload| <= MAX_PAYLOAD
  }

  /** The stream begins with a packet that `read_packet` accepts. */
  ghost predicate BeginsWith(stream: bytes, p: Packet) {
    Sendable(p) && Frame(p) <= stream
  }

  lemma FrameLayout(p: Packet, rest: bytes)
    requires Sendable(p)
    ensures var s := Frame(p) + rest;
      && |s| >= 5 + |p.payload|
      && FromBe(s[..4]) == |p.payload| && s[4] == p.opcode
      && s[5..5 + |p.payload|] == p.payload && s[5 + |p.payload|..] == rest
  {
    Widths();
    BeRoundTrip(|p.payload|, 4);
    Low32Exact(|p.payload|);
    hide Be, FromBe, Low32;
    var s := Frame(p) + rest;
    assert s[..4] == Be(|p.payload|, 4);
  }

  /** A stream splits into a packet and a rest in one way only. */
  lemma FramingIsUnambiguous(p: Packet, rest: bytes, q: Packet, other: bytes)
    requires Sendable(p) && Sendable(q) && Frame(p) + rest == Frame(q) + other
    ensures p == q && rest == other
  {
    hide Frame, FromBe;
    FrameLayout(p, rest);
    FrameLayout(q, other);
  }

  /** A packet within the limit is accepted, as itself. */
  lemma WithinLimitIsAccepted(p: Packet, rest: bytes)
    requires |p.payload| <= 2_097_152
    ensures BeginsWith(Frame(p) + rest, p)
  {
    hide Frame;
  }

  /** A packet over the limit, but short enough for its length not to wrap around, is not accepted. */
  lemma OverlongIsRejected(p: Packet, q: Packet)
    requires 2_097_152 < |p.payload| < 0x1_0000_0000
    ensures !BeginsWith(Frame(p), q)
  {
    Widths();
    BeRoundTrip(|p.payload|, 4);
    Low32Exact(|p.payload|);
    hide Be, FromBe, Low32;
    AnyFrame(Frame(p), q);
    assert Frame(p)[..4] == Be(|p.payload|, 4);
  }

  /**
   `write_packet`: the frame goes out whole and in order over any early returns and interruptions, or
   only a part and that is reported.
   */
  method WritePacket(p: Packet, script: seq<IoEvent>) returns (ok: bool, sent: bytes)
    ensures ok <==> Completes(5 + |p.payload|, script)
    ensures sent <= Frame(p) && (ok <==> sent == Frame(p))
  {
    hide Be, Frame;
    var packet := Be(Low32(|p.payload|), 4);
    packet := packet + [p.opcode];
    packet := packet + p.payload;
    FrameParts(p);
    sent := [];
    var i := 0;
    while |sent| < |packet|
      invariant sent <= packet && 0 <= i <= |script|
      invariant Completes(|packet| - |sent|, script[i..]) == Completes(|packet|, script)
      decreases |packet| - |sent|, |script| - i
    {
      if i == |script| {
        sent := packet;
      } else {
        assert script[i..][1..] == script[i + 1..];
        var event := script[i];
        i := i + 1;
        match event {
          case Interrupted =>
          case Failed => return false, sent;
          case Moved(n) => sent := packet[..|sent| + Min(n, |packet| - |sent|)];
        }
      }
    }
    ok := true;
  }

  lemma FrameParts(p: Packet)
    ensures Frame(p) == Be(Low32(|p.payload|), 4) + [p.opcode] + p.payload
  {
  }

  /** A connected socket: what the peer has sent and was not read yet, and how the kernel will deliver it. */
  class Socket {
    var incoming: bytes
    var script: seq<IoEvent>

    constructor (incoming: bytes, script: seq<IoEvent>)
      ensures this.incoming == incoming && this.script == script
    {
      this.incoming, this.script := incoming, script;
    }

    /** One `read`: `None` for an interruption, no bytes for the end of the stream. */
    method Read(limit: nat) returns (ok: bool, got: Option<bytes>)
      requires limit > 0
      modifies this
      ensures old(script) == [] ==> ok && got.Some? && script == []
      ensures old(script) != [] ==> script == old(script)[1..]
      ensures !ok ==> old(script) != [] && old(script)[0] == Failed
      ensures ok && got.Some? ==> got.value + incoming == old(incoming) && |got.value| <= limit
      ensures ok && got.Some? && old(incoming) != [] ==> got.value != []
      ensures !ok || got.None? ==> incoming == old(incoming)
      ensures ok && got.None? ==> old(script) != []
    {
      var n := Min(limit, |incoming|);
      if script != [] {
        var event := script[0];
        script := script[1..];
        match event {
          case Interrupted => return true, None;
          case Failed => return false, None;
          case Moved(k) => n := Min(k + 1, n);
        }
      }
      got := Some(incoming[..n]);
      incoming := incoming[n..];
      ok := true;
    }

    /** `read_all`: exactly `length` bytes in order, over any early returns and interruptions. */
    method ReadAll(length: nat) returns (ok: bool, buffer: bytes)
      modifies this
      ensures ok ==> |buffer| == length && buffer + incoming == old(incoming)
      ensures Failed !in old(script) ==> Failed !in script && (ok <==> length <= |old(incoming)|)
    {
      buffer := [];
      while |buffer| < length
        invariant |buffer| <= length && buffer + incoming == old(incoming)
        invariant Failed !in old(script) ==> Failed !in script
        decreases length - |buffer|, |script|
      {
        var sound, got := Read(length - |buffer|);
        if !sound {
          return false, buffer;
        }
        if got.Some? {
          if got.value == [] {
            return false, buffer;
          }
          buffer := buffer + got.value;
        }
      }
      ok := true;
    }

    /** `read_packet`: the first packet of the stream and nothing after it, or failure. */
    method ReadPacket() returns (ok: bool, p: Packet)
      modifies this
      ensures ok ==> Sendable(p) && Frame(p) + incoming == old(incoming)
      ensures Failed !in old(script) ==> Failed !in script && (ok <==> exists q :: BeginsWith(old(incoming), q))
    {
      hide Be, FromBe, Frame;
      ghost var stream := incoming;
      ghost var reliable := Failed !in script;
      p := Packet(0, []);
      var prefix, opcode, payload;
      ok, prefix := ReadAll(4);
      if !ok {
        NoShortFrame(stream, 4);
        return;
      }
      FromBeBound(prefix);
      Widths();
      var length := FromBe(prefix);
      assert stream[..4] == prefix;
      if length > MAX_PAYLOAD {
        forall q ensures !BeginsWith(stream, q) {
          AnyFrame(stream, q);
        }
        return false, p;
      }
      ok, opcode := ReadAll(1);
      if !ok {
        NoShortFrame(stream, 5);
        return;
      }
      payload := [];
      if length > 0 {
        ok, payload := ReadAll(length);
        if !ok {
          forall q | reliable ensures !BeginsWith(stream, q) {
            AnyFrame(stream, q);
          }
          return;
        }
      }
      p := Packet(opcode[0], payload);
      Reassembled(stream, prefix, opcode, payload, incoming);
      assert BeginsWith(stream, p);
    }
  }

  lemma NoShortFrame(stream: bytes, n: nat)
    requires n <= 5
    ensures |stream| < n ==> forall q :: !BeginsWith(stream, q)
  {
  }

  lemma AnyFrame(stream: bytes, q: Packet)
    ensures BeginsWith(stream, q) ==> |stream| >= 5 + |q.payload| && FromBe(stream[..4]) == |q.payload|
  {
    hide FromBe, Frame;
    if BeginsWith(stream, q) {
      assert stream == Frame(q) + stream[|Frame(q)|..];
      FrameLayout(q, stream[|Frame(q)|..]);
    }
  }

  lemma Reassembled(stream: bytes, prefix: bytes, opcode: bytes, payload: bytes, rest: bytes)
    requires |prefix| == 4 && |opcode| == 1 && FromBe(prefix) == |payload| <= MAX_PAYLOAD
    requires stream == prefix + (opcode + (payload + rest))
    ensures Frame(Packet(opcode[0], payload)) + rest == stream
    ensures BeginsWith(stream, Packet(opcode[0], payload))
  {
    BeUnique(prefix);
    hide Be, FromBe;
    assert opcode == [opcode[0]];
    assert Frame(Packet(opcode[0], payload)) == prefix + opcode + payload;
  }

  /**
   Framing, whole streams: reading packet after packet from the concatenation of any packets gives
   back exactly those packets in order and leaves exactly what follows them.
   */
  method ReceiveAll(socket: Socket, count: nat, ghost sent: seq<Packet>, ghost rest: bytes)
    returns (received: seq<Packet>)
    requires socket.incoming == Stream(sent) + rest && |sent| == count
    requires forall p <- sent :: Sendable(p)
    requires Failed !in socket.script
    modifies socket
    ensures received == sent && socket.incoming == rest
  {
    hide Frame;
    received := [];
    ghost var todo := sent;
    while |received| < count
      invariant sent == received + todo && socket.incoming == Stream(todo) + rest
      invariant Failed !in socket.script
    {
      ghost var before := socket.incoming;
      ghost var tail := Stream(todo[1..]) + rest;
      assert todo[0] in sent;
      assert before == Frame(todo[0]) + tail;
      assert BeginsWith(before, todo[0]);
      var ok, p := socket.ReadPacket();
      FramingIsUnambiguous(p, socket.incoming, todo[0], tail);
      received := received + [p];
      todo := todo[1..];
    }
  }

  // ---------------------------------------------------------------------------------
  // Strings inside a payload.
  // ---------------------------------------------------------------------------------

  function Str(s: bytes): (b: bytes)
    ensures |b| == 4 + |s|
  {
    Be(Low32(|s|), 4) + s
  }

  /** A decoder's answer: the offset afterwards, and the string unless it failed. */
  datatype Extracted = Extracted(offset: nat, value: Option<bytes>)

  /** `extract_string` of src/ipc.cpp and src/agent_server.cpp. */
  function Extract(buf: bytes, offset: nat): (r: Extracted) {
    if offset + 4 > |buf| then Extracted(offset, None)
    else
      var len := FromBe(buf[offset..offset + 4]);
      if len > |buf| - (offset + 4) then Extracted(offset + 4, None)
      else Extracted(offset + 4 + len, Some(buf[offset + 4..offset + 4 + len]))
  }

  lemma ExtractStr(buf: bytes, offset: nat, s: bytes)
    requires Stands(buf, offset, Str(s)) && |s| < 0x1_0000_0000
    ensures Extract(buf, offset) == Extracted(offset + 4 + |s|, Some(s))
  {
    Widths();
    BeRoundTrip(|s|, 4);
    Low32Exact(|s|);
    hide Be, FromBe, Low32;
    StandsSplit(buf, offset, Be(|s|, 4), s);
  }

  /** A string is extracted exactly where one was appended; the offset then is just behind it. */
  lemma ExtractExactly(buf: bytes, offset: nat, s: bytes)
    requires |s| < 0x1_0000_0000
    ensures Extract(buf, offset).value == Some(s) <==> Stands(buf, offset, Str(s))
    ensures Extract(buf, offset).value == Some(s) ==> Extract(buf, offset).offset == offset + 4 + |s|
    ensures Extract(buf, offset).value == None ==>
      Extract(buf, offset).offset == if offset + 4 <= |buf| then offset + 4 else offset
  {
    if Stands(buf, offset, Str(s)) {
      ExtractStr(buf, offset, s);
    }
    if Extract(buf, offset).value == Some(s) {
      BeUnique(buf[offset..offset + 4]);
      Low32Exact(|s|);
      hide Be, FromBe, Low32;
      assert buf[offset..offset + 4 + |s|] == buf[offset..offset + 4] + buf[offset + 4..offset + 4 + |s|];
    }
  }

  /** The C++ decoder, checking `len > buf.size() - offset`. */
  method ExtractString(buf: bytes, offset: nat) returns (r: Extracted)
    ensures r == Extract(buf, offset)
  {
    if offset + 4 > |buf| {
      return Extracted(offset, None);
    }
    var len := FromBe(buf[offset..offset + 4]);
    var o := offset + 4;
    if len > |buf| - o {
      return Extracted(o, None);
    }
    r := Extracted(o + len, Some(buf[o..o + len]));
  }

  /** The Rust decoder, checking `*offset + len > buf.len()` and then the encoding. */
  method ExtractStringRust(buf: bytes, offset: nat) returns (r: Extracted)
    ensures r == ExtractRust(buf, offset)
  {
    hide ValidUtf8;
    if offset + 4 > |buf| {
      return Extracted(offset, None);
    }
    var o := offset + 4;
    var len := ((buf[offset] as int * 256 + buf[offset + 1] as int) * 256 + buf[offset + 2] as int) * 256
        + buf[offset + 3] as int;
    FromBe4(buf[offset..offset + 4]);
    if o + len > |buf| {
      return Extracted(o, None);
    }
    var content := buf[o..o + len];
    o := o + len;
    r := Extracted(o, if ValidUtf8(content) then Some(content) else None);
  }

  function ExtractRust(buf: bytes, offset: nat): (r: Extracted) {
    var e := Extract(buf, offset);
    if e.value.Some? && !ValidUtf8(e.value.value) then Extracted(e.offset, None) else e
  }

  lemma FromBe4(b: bytes)
    requires |b| == 4
    ensures FromBe(b) == ((b[0] as int * 256 + b[1] as int) * 256 + b[2] as int) * 256 + b[3] as int
  {
    assert FromBe(b[..3]) == 256 * FromBe(b[..3][..2]) + b[2];
    assert FromBe(b[..3][..2]) == 256 * FromBe(b[..3][..2][..1]) + b[1];
    assert FromBe(b[..3][..2][..1]) == b[0];
  }

  /**
   The two decoders of the wire format leave the same offset on every buffer and offset, and give
   the same answer if and only if the content, when there is any, is valid UTF-8.
   */
  lemma DecodersAgree(buf: bytes, offset: nat)
    ensures ExtractRust(buf, offset).offset == Extract(buf, offset).offset
    ensures ExtractRust(buf, offset) == Extract(buf, offset)
        <==> (offset + 4 <= |buf| && FromBe(buf[offset..offset + 4]) <= |buf| - (offset + 4) ==>
                ValidUtf8(buf[offset + 4..offset + 4 + FromBe(buf[offset..offset + 4])]))
  {
  }

  /** A buffer on which they differ: one byte that never occurs in UTF-8. */
  lemma DecodersDiffer()
    ensures Extract([0, 0, 0, 1, 0xFF], 0) == Extracted(5, Some([0xFF]))
    ensures ExtractRust([0, 0, 0, 1, 0xFF], 0) == Extracted(5, None)
  {
    var buf: bytes, s: bytes := [0, 0, 0, 1, 0xFF], [0xFF];
    FromBe4(buf[..4]);
    hide FromBe;
    assert FromBe(buf[0..4]) == 1 && buf[4..5] == s;
    assert CharLength(s) == 0;
  }
}
