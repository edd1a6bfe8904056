/** The coordinator/worker messages and how they cross a byte stream that delivers
    in pieces of any size. */
module Wire {
  import opened Bytes
  import opened Ids
  import opened Authority
  import opened Codec
  import opened Frames

  type MessageType = t: u32 | t < 16

  datatype WireMessage = WireMessage(
    kind: MessageType, op: Uuid, attempt: Uuid, worker: Uuid, boot: Uuid,
    authority: Envelope, flag: bool, text: Text, number: u64)

  /** The longest payload a receiver takes. */
  const LIMIT: u32 := 32 * 1024 * 1024

  /** The largest count one send or recv call is asked for. */
  const INT_MAX: nat := 0x7FFF_FFFF

  // ------------------------------------------------------------ message layout

  function WireBytes(m: WireMessage): (b: seq<byte>)
    ensures |b| == 167 + |Clip(m.text)| <= LIMIT
  {
    U32Bytes(m.kind) + IdBytes(m.op) + IdBytes(m.attempt) + IdBytes(m.worker) + IdBytes(m.boot)
    + EnvelopeBytes(m.authority) + BoolBytes(m.flag) + (TextBytes(m.text) + U64Bytes(m.number))
  }

  function ParseWire(s: seq<byte>): Option<(WireMessage, seq<byte>)> {
    var (kind, s) :- ParseEnum(16, s);
    var (op, s) :- ParseId(s);
    var (attempt, s) :- ParseId(s);
    var (worker, s) :- ParseId(s);
    var (boot, s) :- ParseId(s);
    var (authority, s) :- ParseEnvelope(s);
    var (flag, s) :- ParseBool(s);
    var (text, s) :- ParseText(s);
    var (number, s) :- ParseU64(s);
    Some((WireMessage(kind, op, attempt, worker, boot, authority, flag, text, number), s))
  }

  /** The message as it arrives: over-long text is emptied. */
  function ClipMessage(m: WireMessage): WireMessage {
    m.(text := Clip(m.text))
  }

  /** The layout with the flag's byte left open; it stands at this place. */
  function WireLayout(m: WireMessage, flag: seq<byte>, t: seq<byte>): seq<byte> {
    U32Bytes(m.kind) + (IdBytes(m.op) + (IdBytes(m.attempt) + (IdBytes(m.worker) + (IdBytes(m.boot)
    + (EnvelopeBytes(m.authority) + (flag + (TextBytes(m.text) + (U64Bytes(m.number) + t))))))))
  }

  const FLAG_AT := 156

  lemma WireGroups(m: WireMessage, t: seq<byte>)
    ensures WireBytes(m) + t == WireLayout(m, BoolBytes(m.flag), t)
  {
    hide U32Bytes, IdBytes, EnvelopeBytes, BoolBytes, TextBytes, U64Bytes;
    Concat(TextBytes(m.text), U64Bytes(m.number), t);
    Concat8(U32Bytes(m.kind), IdBytes(m.op), IdBytes(m.attempt), IdBytes(m.worker), IdBytes(m.boot),
            EnvelopeBytes(m.authority), BoolBytes(m.flag), TextBytes(m.text) + U64Bytes(m.number), t);
  }

  lemma KindReads(kind: MessageType, t: seq<byte>)
    ensures ParseEnum(16, U32Bytes(kind) + t) == Some((kind, t))
  {
    hide ParseU32, U32Bytes;
    U32Reads(kind, t);
  }

  /** A message is read whatever nonzero byte its flag was written as. */
  lemma LayoutReads(m: WireMessage, b: byte, t: seq<byte>)
    requires m.flag <==> b != 0
    ensures ParseWire(WireLayout(m, [b], t)) == Some((ClipMessage(m), t))
  {
    hide ParseEnum, ParseId, ParseEnvelope, ParseBool, ParseText, ParseU64;
    hide U32Bytes, IdBytes, EnvelopeBytes, TextBytes, U64Bytes, Clip;
    var tail := TextBytes(m.text) + (U64Bytes(m.number) + t);
    var fromFlag := [b] + tail;
    FlagReads(b, tail);
    KindReads(m.kind, IdBytes(m.op) + (IdBytes(m.attempt) + (IdBytes(m.worker) + (IdBytes(m.boot)
                      + (EnvelopeBytes(m.authority) + fromFlag)))));
    EnvelopeReads(m.authority, fromFlag);
    AllRead();
  }

  lemma WireReads(m: WireMessage, t: seq<byte>)
    ensures ParseWire(WireBytes(m) + t) == Some((ClipMessage(m), t))
  {
    hide WireBytes, WireLayout, ParseWire, ClipMessage;
    WireGroups(m, t);
    OneByte(if m.flag then 1 else 0);
    LayoutReads(m, if m.flag then 1 else 0, t);
  }

  lemma KindSpells(s: seq<byte>)
    requires ParseEnum(16, s).Some?
    ensures s == U32Bytes(ParseEnum(16, s).value.0) + ParseEnum(16, s).value.1
  {
    hide ParseU32, U32Bytes;
    U32Spells(s);
  }

  /** The bytes from which a message was read, the flag's own byte in its place. */
  lemma WireSpelled(s: seq<byte>)
    requires ParseWire(s).Some?
    ensures |s| > FLAG_AT
    ensures var (m, rest) := ParseWire(s).value;
            s == WireLayout(m, [s[FLAG_AT]], rest) && Clip(m.text) == m.text
  {
    hide ParseEnum, ParseId, ParseEnvelope, ParseBool, ParseText, ParseU64;
    hide U32Bytes, IdBytes, EnvelopeBytes, BoolBytes, TextBytes, U64Bytes, Clip;
    var (kind, s1) := ParseEnum(16, s).value;
    KindSpells(s);
    AllSpell();
    var (op, s2) := ParseId(s1).value;
    var (attempt, s3) := ParseId(s2).value;
    var (worker, s4) := ParseId(s3).value;
    var (boot, s5) := ParseId(s4).value;
    var (authority, s6) := ParseEnvelope(s5).value;
    EnvelopeSpells(s5);
    BoolSpells(s6);
    var (text, s8) := ParseText(s6[1..]).value;
    TextIsClipped(s6[1..]);
    var (number, rest) := ParseU64(s8).value;
    assert s6 == [s6[0]] + s6[1..];
    assert s[FLAG_AT] == s6[0];
  }

  lemma TextIsClipped(s: seq<byte>)
    requires ParseText(s).Some?
    ensures Clip(ParseText(s).value.0) == ParseText(s).value.0
  {
  }

  lemma LayoutDecidesFlag(m: WireMessage, a: byte, b: byte, t: seq<byte>)
    ensures WireLayout(m, [a], t) == WireLayout(m, [b], t) <==> a == b
  {
    hide U32Bytes, IdBytes, EnvelopeBytes, TextBytes, U64Bytes;
    FlagPlace(m, a, t);
    FlagPlace(m, b, t);
  }

  lemma FlagPlace(m: WireMessage, b: byte, t: seq<byte>)
    ensures |WireLayout(m, [b], t)| > FLAG_AT && WireLayout(m, [b], t)[FLAG_AT] == b
  {
    hide U32Bytes, IdBytes, EnvelopeBytes, TextBytes, U64Bytes;
  }

  lemma WireFlag(s: seq<byte>)
    requires ParseWire(s).Some? && |s| > FLAG_AT
    ensures ParseWire(s).value.0.flag <==> s[FLAG_AT] != 0
  {
    hide ParseWire, WireLayout;
    WireSpelled(s);
    var (m, rest) := ParseWire(s).value;
    LayoutReads(m.(flag := s[FLAG_AT] != 0), s[FLAG_AT], rest);
    SameLayout(m, s[FLAG_AT] != 0, [s[FLAG_AT]], rest);
  }

  lemma SameLayout(m: WireMessage, v: bool, flag: seq<byte>, t: seq<byte>)
    ensures WireLayout(m.(flag := v), flag, t) == WireLayout(m, flag, t)
  {
  }

  /** Conversely, a message that was read is written again as the bytes it was read
      from exactly when its flag was written as 0 or 1. */
  lemma WireSpells(s: seq<byte>)
    requires ParseWire(s).Some?
    ensures |s| > FLAG_AT
    ensures var (m, rest) := ParseWire(s).value;
            s == WireBytes(m) + rest <==> s[FLAG_AT] <= 1
  {
    hide ParseWire, WireLayout, WireBytes;
    WireSpelled(s);
    WireFlag(s);
    var (m, rest) := ParseWire(s).value;
    WireGroups(m, rest);
    var v: byte := if m.flag then 1 else 0;
    OneByte(v);
    LayoutDecidesFlag(m, s[FLAG_AT], v, rest);
  }

  /** A message that is read and then written differently: its flag was written as 2. */
  lemma FlagNotRewritten(m: WireMessage)
    requires m.flag
    ensures var s := WireLayout(m, [2], []);
            ParseWire(s) == Some((ClipMessage(m), [])) && WireBytes(ClipMessage(m)) != s
  {
    hide ParseWire, WireLayout, WireBytes, ClipMessage;
    var s := WireLayout(m, [2], []);
    LayoutReads(m, 2, []);
    FlagPlace(m, 2, []);
    WireSpells(s);
    assert WireBytes(ClipMessage(m)) + [] == WireBytes(ClipMessage(m));
  }

  method EncodeWire(m: WireMessage) returns (payload: seq<byte>)
    ensures payload == WireBytes(m)
  {
    hide U32Bytes, IdBytes, EnvelopeBytes, BoolBytes, TextBytes, U64Bytes;
    var w := new BinaryWriter();
    w.U32(m.kind);
    w.Id(m.op);
    w.Id(m.attempt);
    w.Id(m.worker);
    w.Id(m.boot);
    w.Authority(m.authority);
    w.Bool(m.flag);
    ghost var seven := w.buf;
    w.Str16(m.text);
    w.U64(m.number);
    assert [] + U32Bytes(m.kind) == U32Bytes(m.kind);
    Concat(seven, TextBytes(m.text), U64Bytes(m.number));
    payload := w.buf;
  }

  method DecodeWire(data: seq<byte>) returns (found: Option<WireMessage>)
    ensures found.Some? == ParseWire(data).Some?
    ensures found.Some? ==> found.value == ParseWire(data).value.0
  {
    hide ParseU32, ParseId, ParseEnvelope, ParseU8, ParseText, ParseU64;
    var r := new BinaryReader(data);
    var kind := r.U32();
    if !r.ok || kind >= 16 {
      return None;
    }
    var op := r.Id();
    var attempt := r.Id();
    var worker := r.Id();
    var boot := r.Id();
    var authority := r.Authority();
    var flag := r.U8();
    var text := r.Str16();
    var number := r.U64();
    if !r.ok {
      return None;
    }
    return Some(WireMessage(kind, op, attempt, worker, boot, authority, flag != 0, text, number));
  }

  // ------------------------------------------------------- one frame per message

  function MessageFrame(m: WireMessage): Frame {
    Frame(m.kind % 0x100, WireBytes(m))
  }

  /** The message in the bytes of one whole frame. */
  function ReadMessage(full: seq<byte>): Option<WireMessage> {
    var (f, _) :- ParseFrame(full);
    var (m, _) :- ParseWire(f.payload);
    Some(m)
  }

  /** What recv_frame makes of the bytes a peer sent before closing, and which of
      them it leaves unread. */
  function Receive(s: seq<byte>): (Option<WireMessage>, seq<byte>) {
    if |s| < HEADER then (None, [])
    else
      match ParseHeader(s[..HEADER])
      case None => (None, s[HEADER..])
      case Some((fields, _)) =>
        if fields.1 > LIMIT then (None, s[HEADER..])
        else
          var n := HEADER + fields.1 + 8;
          if |s| < n then (None, []) else (ReadMessage(s[..n]), s[n..])
  }

  lemma HeaderInFront(f: Frame, t: seq<byte>)
    requires Sized(f)
    ensures (FrameBytes(f) + t)[..HEADER] == HeaderBytes(f.kind, |f.payload|)
  {
    hide HeaderBytes, U64Bytes, FrameBody;
    BodyIsHeader(f);
  }

  /** A message sent as one frame is received from the front of the stream whatever
      follows it; in particular its frame fits the receiver's limit. */
  lemma MessageArrives(m: WireMessage, t: seq<byte>)
    ensures Receive(FrameBytes(MessageFrame(m)) + t) == (Some(ClipMessage(m)), t)
  {
    hide ParseHeader, ParseFrame, ParseWire, FrameBytes, WireBytes, HeaderBytes, ClipMessage;
    var f := MessageFrame(m);
    var s := FrameBytes(f) + t;
    HeaderInFront(f, t);
    HeaderReads(f.kind, |f.payload|, []);
    assert HeaderBytes(f.kind, |f.payload|) + [] == s[..HEADER];
    FrameReads(f, []);
    assert s[..|FrameBytes(f)|] == FrameBytes(f) + [] && s[|FrameBytes(f)|..] == t;
    WireReads(m, []);
    assert WireBytes(m) + [] == WireBytes(m);
  }

  /** Nothing is received from a frame that is not all there, and nothing stays behind. */
  lemma PartialMessage(m: WireMessage, n: nat)
    requires n < |FrameBytes(MessageFrame(m))|
    ensures Receive(FrameBytes(MessageFrame(m))[..n]) == (None, [])
  {
    hide ParseHeader, WireBytes, HeaderBytes, FrameBytes;
    var f := MessageFrame(m);
    var s := FrameBytes(f)[..n];
    if n >= HEADER {
      HeaderInFront(f, []);
      HeaderReads(f.kind, |f.payload|, []);
      assert FrameBytes(f) + [] == FrameBytes(f);
      assert HeaderBytes(f.kind, |f.payload|) + [] == s[..HEADER];
    }
  }

  // ------------------------------------------------------------- whole streams

  function Stream(ms: seq<WireMessage>): seq<byte>
    decreases ms
  {
    if ms == [] then [] else FrameBytes(MessageFrame(ms[0])) + Stream(ms[1..])
  }

  /** The messages received one after the other until a receive fails. */
  function Delivered(s: seq<byte>): seq<WireMessage>
    decreases |s|
  {
    match Receive(s)
    case (None, _) => []
    case (Some(m), rest) =>
      assert |rest| < |s|;
      [m] + Delivered(rest)
  }

  function Arrivals(ms: seq<WireMessage>): (cs: seq<WireMessage>)
    ensures |cs| == |ms|
    ensures forall i :: 0 <= i < |ms| ==> cs[i] == ClipMessage(ms[i])
  {
    seq(|ms|, i requires 0 <= i < |ms| => ClipMessage(ms[i]))
  }

  /** How many of the messages are wholly inside the first n bytes of their stream. */
  function Completed(ms: seq<WireMessage>, n: nat): (k: nat)
    ensures k <= |ms|
    decreases ms
  {
    if ms == [] then 0
    else
      var size := |FrameBytes(MessageFrame(ms[0]))|;
      if n < size then 0 else Completed(ms[1..], n - size) + 1
  }

  /** It is the largest number of leading messages whose stream is that short. */
  lemma {:induction false} CompletedIsLargest(ms: seq<WireMessage>, n: nat)
    ensures var k := Completed(ms, n);
            && |Stream(ms[..k])| <= n
            && (k < |ms| ==> n < |Stream(ms[..k + 1])|)
    decreases ms
  {
    hide FrameBytes, MessageFrame;
    if ms != [] {
      var size := |FrameBytes(MessageFrame(ms[0]))|;
      if n < size {
        StreamFirst(ms, 0);
      } else {
        var k := Completed(ms[1..], n - size);
        CompletedIsLargest(ms[1..], n - size);
        StreamFirst(ms, k);
        if k + 1 < |ms| {
          StreamFirst(ms, k + 1);
        }
      }
    }
  }

  lemma StreamFirst(ms: seq<WireMessage>, k: nat)
    requires k < |ms|
    ensures Stream(ms[..k + 1]) == FrameBytes(MessageFrame(ms[0])) + Stream(ms[1..][..k])
  {
    hide FrameBytes, MessageFrame;
    assert ms[..k + 1][1..] == ms[1..][..k];
  }

  /** Cut anywhere, a stream of messages delivers, in order, exactly the messages that
      are wholly before the cut. */
  lemma {:induction false} CutStreamDelivers(ms: seq<WireMessage>, n: nat)
    requires n <= |Stream(ms)|
    ensures Delivered(Stream(ms)[..n]) == Arrivals(ms[..Completed(ms, n)])
    decreases ms
  {
    hide FrameBytes, Receive, MessageFrame, ClipMessage, Arrivals;
    if ms == [] {
      EmptyReceive();
    } else {
      var frame := FrameBytes(MessageFrame(ms[0]));
      var size := |frame|;
      if n < size {
        assert Stream(ms)[..n] == frame[..n];
        PartialMessage(ms[0], n);
      } else {
        var rest := Stream(ms[1..])[..n - size];
        assert Stream(ms)[..n] == frame + rest;
        MessageArrives(ms[0], rest);
        CutStreamDelivers(ms[1..], n - size);
        ArrivalsFirst(ms, Completed(ms[1..], n - size));
      }
    }
  }

  lemma ArrivalsFirst(ms: seq<WireMessage>, k: nat)
    requires k < |ms|
    ensures Arrivals(ms[..k + 1]) == [ClipMessage(ms[0])] + Arrivals(ms[1..][..k])
  {
    hide ClipMessage;
    assert ms[..k + 1] == [ms[0]] + ms[1..][..k];
  }

  lemma EmptyReceive()
    ensures Receive([]) == (None, [])
  {
  }

  // --------------------------------------------------------- chunks under way

  /** The sender has still to write `unsent`, `wire` is under way, the receiver has
      `got`. A chunk moves from one to the next; a chunk of zero bytes changes nothing. */
  datatype Transit = Transit(got: seq<byte>, wire: seq<byte>, unsent: seq<byte>)

  datatype Chunk = Sent(n: nat) | Taken(n: nat)

  function Move(t: Transit, c: Chunk): Transit {
    match c
    case Sent(n) =>
      var k := if n < |t.unsent| then n else |t.unsent|;
      Transit(t.got, t.wire + t.unsent[..k], t.unsent[k..])
    case Taken(n) =>
      var k := if n < |t.wire| then n else |t.wire|;
      Transit(t.got + t.wire[..k], t.wire[k..], t.unsent)
  }

  function Flow(t: Transit, cs: seq<Chunk>): Transit {
    if cs == [] then t else Move(Flow(t, cs[..|cs| - 1]), cs[|cs| - 1])
  }

  lemma {:induction false} NothingLost(t: Transit, cs: seq<Chunk>)
    ensures var u := Flow(t, cs); u.got + (u.wire + u.unsent) == t.got + (t.wire + t.unsent)
  {
    if cs != [] {
      NothingLost(t, cs[..|cs| - 1]);
      MoveKeeps(Flow(t, cs[..|cs| - 1]), cs[|cs| - 1]);
    }
  }

  lemma MoveKeeps(t: Transit, c: Chunk)
    ensures var u := Move(t, c); u.got + (u.wire + u.unsent) == t.got + (t.wire + t.unsent)
  {
    var u := Move(t, c);
    match c
    case Sent(n) =>
      var k := if n < |t.unsent| then n else |t.unsent|;
      assert t.unsent == t.unsent[..k] + t.unsent[k..];
      Concat(t.wire, t.unsent[..k], t.unsent[k..]);
    case Taken(n) =>
      var k := if n < |t.wire| then n else |t.wire|;
      assert t.wire == t.wire[..k] + t.wire[k..];
      Concat(t.got, t.wire[..k], t.wire[k..] + t.unsent);
      Concat(t.wire[..k], t.wire[k..], t.unsent);
  }

  /** Stream framing: messages sent one after the other, in chunks of any sizes
      interleaved with receives of any sizes, arrive in order, unchanged but for
      over-long text, none invented and none before it is complete; and once
      everything has been taken, all of them have arrived. */
  lemma StreamFraming(ms: seq<WireMessage>, cs: seq<Chunk>)
    ensures var t := Flow(Transit([], [], Stream(ms)), cs);
            && |t.got| <= |Stream(ms)|
            && Delivered(t.got) == Arrivals(ms[..Completed(ms, |t.got|)])
            && (t.wire == [] && t.unsent == [] ==> Delivered(t.got) == Arrivals(ms))
  {
    hide Flow, Stream, Delivered, Arrivals;
    var t := Flow(Transit([], [], Stream(ms)), cs);
    NothingLost(Transit([], [], Stream(ms)), cs);
    assert t.got + (t.wire + t.unsent) == Stream(ms);
    assert t.got == Stream(ms)[..|t.got|];
    CutStreamDelivers(ms, |t.got|);
    if t.wire == [] && t.unsent == [] {
      AllCompleted(ms);
      assert ms[..|ms|] == ms;
    }
  }

  lemma {:induction false} AllCompleted(ms: seq<WireMessage>)
    ensures Completed(ms, |Stream(ms)|) == |ms|
    decreases ms
  {
    hide FrameBytes, MessageFrame;
    if ms != [] {
      AllCompleted(ms[1..]);
    }
  }

  // ------------------------------------------------------------------ a socket

  /** One direction of a connection: the bytes under way, and how many bytes the
      system grants to the k-th call. A grant of zero or less is an error. */
  class Channel {
    var wire: seq<byte>
    var clock: nat
    const grant: nat -> int

    constructor (grant: nat -> int)
      ensures wire == [] && clock == 0 && this.grant == grant
    {
      wire, clock := [], 0;
      this.grant := grant;
    }

    /** The connection never reports an error. */
    ghost predicate Flowing() {
      forall k: nat :: grant(k) > 0
    }

    /** send(): takes some of p. */
    method Send(p: seq<byte>) returns (sent: int)
      requires p != []
      modifies this
      ensures sent <= |p|
      ensures wire == old(wire) + if sent > 0 then p[..sent] else []
      ensures var k := if sent > 0 then sent else 0;
              Transit([], wire, p[k..]) == Move(Transit([], old(wire), p), Sent(k))
      ensures Flowing() ==> sent > 0
    {
      sent := grant(clock);
      clock := clock + 1;
      if sent > |p| {
        sent := |p|;
      }
      if sent > 0 {
        wire := wire + p[..sent];
      }
    }

    /** recv() of up to n bytes; zero when the peer has closed and nothing is left. */
    method Recv(n: nat) returns (got: int, p: seq<byte>)
      requires n > 0
      modifies this
      ensures got <= n && got <= |old(wire)|
      ensures if got > 0 then p == old(wire)[..got] && wire == old(wire)[got..] else p == [] && wire == old(wire)
      ensures Transit(p, wire, []) == Move(Transit([], old(wire), []), Taken(|p|))
      ensures Flowing() && old(wire) != [] ==> got > 0
    {
      got, p := grant(clock), [];
      clock := clock + 1;
      if got > n {
        got := n;
      }
      if got > |wire| {
        got := |wire|;
      }
      if got > 0 {
        p, wire := wire[..got], wire[got..];
      }
      assert [] + p == p;
    }

    method SendAll(p: seq<byte>) returns (ok: bool)
      modifies this
      ensures exists k :: 0 <= k <= |p| && wire == old(wire) + p[..k] && (ok <==> k == |p|)
      ensures Flowing() ==> ok
    {
      hide Move, Flowing;
      var at := 0;
      assert p[..0] == [];
      while at < |p|
        invariant at <= |p| && wire == old(wire) + p[..at]
      {
        var left := p[at..];
        var sent := Send(if |left| > INT_MAX then left[..INT_MAX] else left);
        if sent <= 0 {
          return false;
        }
        Concat(old(wire), p[..at], left[..sent]);
        assert p[..at] + left[..sent] == p[..at + sent];
        at := at + sent;
      }
      return true;
    }

    method RecvAll(n: nat) returns (ok: bool, p: seq<byte>)
      modifies this
      ensures exists k :: 0 <= k <= |old(wire)| && wire == old(wire)[k..] && p == old(wire)[..k] && (ok <==> k == n)
      ensures Flowing() ==> ok == (n <= |old(wire)|)
      ensures Flowing() && !ok ==> wire == []
    {
      hide Move, Flowing;
      p := [];
      while |p| < n
        invariant |p| <= n && |p| <= |old(wire)|
        invariant p == old(wire)[..|p|] && wire == old(wire)[|p|..]
        decreases n - |p|
      {
        var left := n - |p|;
        var got, more := Recv(if left > INT_MAX then INT_MAX else left);
        if got <= 0 {
          return false, p;
        }
        p := p + more;
      }
      return true, p;
    }

    method SendFrame(m: WireMessage) returns (ok: bool)
      modifies this
      ensures ok ==> wire == old(wire) + FrameBytes(MessageFrame(m))
      ensures var frame := FrameBytes(MessageFrame(m));
              exists k :: 0 <= k <= |frame| && wire == old(wire) + frame[..k] && (ok <==> k == |frame|)
      ensures Flowing() ==> ok
    {
      hide FrameBytes, WireBytes;
      var payload := EncodeWire(m);
      var frame := EncodeFrame(m.kind % 0x100, payload);
      ok := SendAll(frame);
      ghost var k :| 0 <= k <= |frame| && wire == old(wire) + frame[..k] && (ok <==> k == |frame|);
      assert frame == FrameBytes(MessageFrame(m));
    }

    /** Sends messages in order until one fails; what was put under way of that one is
        no whole frame. */
    method SendMany(ms: seq<WireMessage>) returns (sent: nat, ghost tail: seq<byte>)
      modifies this
      ensures sent <= |ms| && wire == old(wire) + (Stream(ms[..sent]) + tail)
      ensures Receive(tail) == (None, []) && (sent == |ms| ==> tail == [])
      ensures Flowing() ==> sent == |ms|
    {
      hide FrameBytes, MessageFrame, Receive, Flowing;
      EmptyReceive();
      sent, tail := 0, [];
      while sent < |ms|
        invariant sent <= |ms| && wire == old(wire) + Stream(ms[..sent])
      {
        ghost var before := wire;
        var ok := SendFrame(ms[sent]);
        ghost var frame := FrameBytes(MessageFrame(ms[sent]));
        ghost var k :| 0 <= k <= |frame| && wire == before + frame[..k] && (ok <==> k == |frame|);
        if !ok {
          tail := frame[..k];
          PartialMessage(ms[sent], k);
          Concat(old(wire), Stream(ms[..sent]), tail);
          return;
        }
        StreamLast(ms[..sent], ms[sent]);
        assert ms[..sent] + [ms[sent]] == ms[..sent + 1] && frame[..k] == frame;
        Concat(old(wire), Stream(ms[..sent]), frame);
        sent := sent + 1;
      }
      Concat(old(wire), Stream(ms[..sent]), tail);
    }

    /** Stream framing for the loops themselves: messages sent one after the other and
        then received from a fresh connection come back in order, unchanged but for
        over-long text, however send and recv cut the bytes. When the connection fails
        on the way, those that come back are the first of them, and none other. */
    method Exchange(ms: seq<WireMessage>) returns (got: seq<WireMessage>)
      requires wire == []
      modifies this
      ensures got <= Arrivals(ms)
      ensures Flowing() ==> got == Arrivals(ms) && wire == []
    {
      hide Receive, Stream, Flowing, ClipMessage;
      ghost var tail;
      var sent;
      sent, tail := SendMany(ms);
      got := [];
      assert ms[0..sent] == ms[..sent];
      while |got| < |ms|
        invariant |got| <= sent && got == Arrivals(ms[..|got|])
        invariant wire == Stream(ms[|got|..sent]) + tail
      {
        if |got| < sent {
          NextArrives(ms, |got|, sent, tail);
        } else {
          StreamNothing(ms, sent, tail);
        }
        var found := RecvFrame();
        if found.None? {
          return;
        }
        got := got + [found.value];
      }
      assert ms[..|got|] == ms;
      StreamNothing(ms, sent, tail);
    }

    /** The second half of recv_frame: the rest of the frame behind its header. */
    method RecvBody(hdr: seq<byte>, len: u32) returns (found: Option<WireMessage>)
      requires |hdr| == HEADER
      modifies this
      ensures var s := old(wire);
              found.Some? || Flowing() ==>
                (found, wire) == if |s| < len + 8 then (None, []) else (ReadMessage(hdr + s[..len + 8]), s[len + 8..])
      ensures exists k :: 0 <= k <= |old(wire)| && wire == old(wire)[k..]
    {
      hide ParseFrame, ParseWire, Flowing;
      var ok, body := RecvAll(len + 8);
      if !ok {
        return None;
      }
      var full := hdr + body;
      assert full[0..] == full;
      var f, next;
      ok, f, next := DecodeFrame(full, 0);
      if !ok {
        return None;
      }
      found := DecodeWire(f.payload);
    }

    /** Success never depends on how the bytes were split; without errors neither does
        failure, nor what is left unread. */
    method RecvFrame() returns (found: Option<WireMessage>)
      modifies this
      ensures found.Some? || Flowing() ==> (found, wire) == Receive(old(wire))
      ensures exists k :: 0 <= k <= |old(wire)| && wire == old(wire)[k..]
    {
      hide ParseHeader, ReadMessage, Flowing;
      ghost var s := wire;
      var ok, hdr := RecvAll(HEADER);
      if !ok {
        return None;
      }
      assert hdr == s[..HEADER] && wire == s[HEADER..];
      var hr := new BinaryReader(hdr);
      var good, kind, len := DecodeHeader(hr);
      if !good || len > LIMIT {
        return None;
      }
      found := RecvBody(hdr, len);
      BodyBehind(s, len);
      ghost var k :| 0 <= k <= |s[HEADER..]| && wire == s[HEADER..][k..];
      assert wire == s[HEADER + k..];
    }
  }

  lemma StreamLast(ms: seq<WireMessage>, m: WireMessage)
    ensures Stream(ms + [m]) == Stream(ms) + FrameBytes(MessageFrame(m))
    decreases ms
  {
    hide FrameBytes, MessageFrame;
    if ms == [] {
      assert [] + [m] == [m];
      assert [m][1..] == [] && Stream([]) == [];
    } else {
      StreamLast(ms[1..], m);
      assert (ms + [m])[1..] == ms[1..] + [m];
      Concat(FrameBytes(MessageFrame(ms[0])), Stream(ms[1..]), FrameBytes(MessageFrame(m)));
    }
  }

  lemma StreamNothing(ms: seq<WireMessage>, n: nat, tail: seq<byte>)
    requires n <= |ms|
    ensures Stream(ms[n..n]) + tail == tail
  {
  }

  lemma NextArrives(ms: seq<WireMessage>, i: nat, j: nat, tail: seq<byte>)
    requires i < j <= |ms|
    ensures Receive(Stream(ms[i..j]) + tail) == (Some(ClipMessage(ms[i])), Stream(ms[i + 1..j]) + tail)
    ensures Arrivals(ms[..i + 1]) == Arrivals(ms[..i]) + [ClipMessage(ms[i])]
  {
    hide FrameBytes, Receive, MessageFrame, ClipMessage;
    assert ms[i..j][1..] == ms[i + 1..j];
    Concat(FrameBytes(MessageFrame(ms[i])), Stream(ms[i + 1..j]), tail);
    MessageArrives(ms[i], Stream(ms[i + 1..j]) + tail);
  }

  lemma BodyBehind(s: seq<byte>, len: nat)
    requires |s| >= HEADER
    ensures |s[HEADER..]| >= len + 8 ==>
              && s[..HEADER] + s[HEADER..][..len + 8] == s[..HEADER + len + 8]
              && s[HEADER..][len + 8..] == s[HEADER + len + 8..]
  {
  }
}
