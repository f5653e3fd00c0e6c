/**
 From the message a sender builds to the messages a receiver handles:
 compression on the way out, and on the way in handleCommand with its compound
 and compressed envelopes. The LZW coder is a parameter.
 */
module Delivery {
  import opened Base
  import Wire
  import Compound
  import opened Packing

  const CompressMsg: byte := 9
  const UserMsg: byte := 8
  const AliveMsg: byte := 4
  const LzwAlgo: byte := 0
  const MaxIncompressible := 22
  const MaxPacketDecompressed := 0x10_0000

  // Compression.

  /** A coder; squeezing may fail, and expanding may refuse. */
  datatype Lzw = Lzw(squeeze: Bytes -> Option<Bytes>, expand: Bytes -> Option<Bytes>)

  ghost predicate SoundCoder(z: Lzw) { forall b :: z.squeeze(b).Some? ==> z.expand(z.squeeze(b).value) == Some(b) }

  function Envelope(p: Bytes): Wire.Message { Wire.Compress(LzwAlgo, Some(p)) }

  /** compressPayload */
  function CompressPayload(z: Lzw, msg: Bytes): Option<Bytes> {
    var p := z.squeeze(msg);
    if p.None? then None else Some([CompressMsg] + Wire.Encode(Envelope(p.value)))
  }

  /** decompressPayload; None is an error. */
  function DecompressPayload(z: Lzw, b: Bytes): Option<Bytes> {
    var c := Wire.Decode(true, Wire.Compress(0, None), b);
    if c.Fail? || !c.value.Compress? || c.value.algo != LzwAlgo then None
    else
      var out := z.expand(if c.value.buf.None? then [] else c.value.buf.value);
      if out.None? || |out.value| > MaxPacketDecompressed then None else out
  }

  /** What rawSendMsgPacket goes on with: the compressed form if that is enabled, can shrink and does. */
  function RawForm(z: Lzw, compress: bool, msg: Bytes): Bytes {
    if !compress || |msg| <= MaxIncompressible then msg
    else
      var c := CompressPayload(z, msg);
      if c.Some? && |c.value| < |msg| then c.value else msg
  }

  lemma TwoFieldsSize(f: Wire.Field, g: Wire.Field)
    ensures |Wire.AppendFields([f, g])| == |Wire.AppendField(f)| + |Wire.AppendField(g)|
  {
    assert [f, g][1..] == [g] && |Wire.AppendFields([g][1..])| == 0;
  }

  /** The envelope costs 13 bytes with its type, and two more when what it carries needs a longer header. */
  lemma EnvelopeSize(p: Bytes)
    ensures |[CompressMsg] + Wire.Encode(Envelope(p))| >= 13 + |p|
    ensures |p| < 32 ==> |[CompressMsg] + Wire.Encode(Envelope(p))| == 13 + |p|
  {
    var algo, buf := Wire.Field(Wire.Algo, Wire.UintV(LzwAlgo)), Wire.Field(Wire.Buf, Wire.BytesV(Some(p)));
    TwoFieldsSize(algo, buf);
    assert |Wire.AppendField(algo)| == 6 && |Wire.Spelled(Wire.Buf)| == 3;
  }

  /** The i-th LZW code stands for at most i bytes, and each takes 9 bits, as does the one that ends the stream. */
  ghost predicate LzwBound(z: Lzw) {
    forall b :: z.squeeze(b).Some? ==> ManyCodes(|b|, |z.squeeze(b).value|)
  }

  ghost predicate ManyCodes(n: nat, size: nat) { exists k: nat :: CodesFor(n, k) && 8 * size >= 9 * (k + 1) }

  predicate CodesFor(n: nat, k: nat) { 2 * n <= k * (k + 1) }

  /** The smaller of the message and its compressed form. */
  function Smaller(z: Lzw, msg: Bytes): Bytes {
    var c := CompressPayload(z, msg);
    if c.Some? && |c.value| < |msg| then c.value else msg
  }

  lemma ShortNeverShrinks(n: nat, size: nat)
    requires n <= 22 && ManyCodes(n, size)
    ensures 13 + size >= n
  {
    var k: nat :| CodesFor(n, k) && 8 * size >= 9 * (k + 1);
    if k < 7 {
      assert k * (k + 1) <= 7 * k;
    }
  }

  /** Not trying messages of up to 22 bytes loses nothing: what goes out is the smaller form, whatever the length. */
  lemma ShortcutIsFree(z: Lzw, msg: Bytes)
    requires LzwBound(z)
    ensures RawForm(z, true, msg) == Smaller(z, msg) && RawForm(z, false, msg) == msg
  {
    if |msg| <= MaxIncompressible && z.squeeze(msg).Some? {
      EnvelopeSize(z.squeeze(msg).value);
      ShortNeverShrinks(|msg|, |z.squeeze(msg).value|);
    }
  }

  /** With 23 bytes the bound no longer rules a gain out: nine bytes of codes would do, and the result is used. */
  lemma LongerCouldShrink(z: Lzw, msg: Bytes)
    requires |msg| == 23 && z.squeeze(msg).Some? && |z.squeeze(msg).value| == 9
    ensures ManyCodes(23, 9) && |RawForm(z, true, msg)| == 22
  {
    assert CodesFor(23, 7);
    EnvelopeSize(z.squeeze(msg).value);
  }

  /** Decompressing undoes compressing whenever senders would use the result. */
  lemma DecompressUndoes(z: Lzw, msg: Bytes)
    requires SoundCoder(z) && |msg| <= MaxPacketDecompressed
    requires CompressPayload(z, msg).Some? && |CompressPayload(z, msg).value| < |msg|
    ensures DecompressPayload(z, CompressPayload(z, msg).value[1..]) == Some(msg)
  {
    var p := z.squeeze(msg).value;
    EnvelopeSize(p);
    var m, b := Envelope(p), Wire.Encode(Envelope(p));
    assert Wire.WithinLimits(m);
    Wire.RoundTrip(true, m, Wire.Compress(0, None), []);
    assert b + [] == b && CompressPayload(z, msg).value[1..] == b;
  }

  // handleCommand.

  datatype Handler = OnPing | OnIndirectPing | OnAck | OnSuspect | OnAlive | OnDead | OnUser | OnNack

  /** Who handles a type: handleCommandIn itself, or handleQueued after it. */
  function HandlerOf(t: byte): Option<Handler> {
    if t == 0 then Some(OnPing) else if t == 1 then Some(OnIndirectPing) else if t == 2 then Some(OnAck)
    else if t == 3 then Some(OnSuspect) else if t == 4 then Some(OnAlive) else if t == 5 then Some(OnDead)
    else if t == 8 then Some(OnUser) else if t == 11 then Some(OnNack)
    else None
  }

  /** A message that is handled as it is. */
  predicate Plain(m: Bytes) { m != [] && HandlerOf(m[0]).Some? }

  /** What one handler gets of the messages handled: each without its type byte, in order. */
  function Inbox(h: Handler, msgs: seq<Bytes>): seq<Bytes> {
    if msgs == [] then []
    else (if msgs[0] != [] && HandlerOf(msgs[0][0]) == Some(h) then [msgs[0][1..]] else []) + Inbox(h, msgs[1..])
  }

  lemma {:induction false} InboxConcat(h: Handler, a: seq<Bytes>, b: seq<Bytes>)
    ensures Inbox(h, a + b) == Inbox(h, a) + Inbox(h, b)
  {
    if a == [] {
      assert a + b == b;
    } else {
      assert (a + b)[1..] == a[1..] + b;
      InboxConcat(h, a[1..], b);
    }
  }

  function Depth(inCompound: bool, inCompress: bool): nat {
    (if inCompound then 0 else 1) + (if inCompress then 0 else 1)
  }

  /** handleCommandIn: the messages that reach a handler. Neither envelope may be nested in itself. */
  function Handled(z: Lzw, m: Bytes, inCompound: bool, inCompress: bool): seq<Bytes>
    decreases Depth(inCompound, inCompress), 0
  {
    if m == [] then []
    else if m[0] == Compound.CompoundMsg then
      var r := Compound.Unpack(m[1..]);
      if inCompound || r.Malformed? then [] else HandledParts(z, r.parts, inCompress)
    else if m[0] == CompressMsg then
      var p := DecompressPayload(z, m[1..]);
      if inCompress || p.None? then [] else Handled(z, p.value, inCompound, true)
    else if HandlerOf(m[0]).Some? then [m] else []
  }

  /** The loop of handleCompound. */
  function HandledParts(z: Lzw, parts: seq<Bytes>, inCompress: bool): seq<Bytes>
    decreases Depth(true, inCompress), |parts| + 1
  {
    if parts == [] then [] else Handled(z, parts[0], true, inCompress) + HandledParts(z, parts[1..], inCompress)
  }

  ghost predicate AllPlain(msgs: seq<Bytes>) { forall i :: 0 <= i < |msgs| ==> Plain(msgs[i]) }

  lemma PlainHandled(z: Lzw, m: Bytes, inCompound: bool, inCompress: bool)
    requires Plain(m)
    ensures Handled(z, m, inCompound, inCompress) == [m]
  {
    assert m[0] != Compound.CompoundMsg && m[0] != CompressMsg;
  }

  lemma {:induction false} PlainPartsHandled(z: Lzw, msgs: seq<Bytes>, inCompress: bool)
    requires AllPlain(msgs)
    ensures HandledParts(z, msgs, inCompress) == msgs
  {
    if msgs != [] {
      assert Plain(msgs[0]);
      PlainHandled(z, msgs[0], true, inCompress);
      PlainPartsHandled(z, msgs[1..], inCompress);
    }
  }

  lemma InnermostAtMostOne(z: Lzw, m: Bytes)
    ensures |Handled(z, m, true, true)| <= 1
  {
  }

  lemma PartAtMostOne(z: Lzw, m: Bytes, inCompress: bool)
    ensures |Handled(z, m, true, inCompress)| <= 1
  {
    if m != [] && m[0] == CompressMsg && !inCompress {
      var p := DecompressPayload(z, m[1..]);
      if p.Some? {
        InnermostAtMostOne(z, p.value);
        assert Handled(z, m, true, false) == Handled(z, p.value, true, true);
      }
    }
  }

  /** Inside a compound nothing multiplies: each part comes to at most one message. */
  lemma {:induction false} PartsNeverMultiply(z: Lzw, parts: seq<Bytes>, inCompress: bool)
    ensures |HandledParts(z, parts, inCompress)| <= |parts|
  {
    if parts != [] {
      PartAtMostOne(z, parts[0], inCompress);
      PartsNeverMultiply(z, parts[1..], inCompress);
    }
  }

  /** A message that senders build: one to be handled as it is, or a compound. */
  predicate Sendable(m: Bytes) { m != [] && (HandlerOf(m[0]).Some? || m[0] == Compound.CompoundMsg) }

  /** Being compressed makes no difference to what is handled. */
  lemma CompressionIsTransparent(z: Lzw, compress: bool, msg: Bytes)
    requires SoundCoder(z) && Sendable(msg) && |msg| <= MaxPacketDecompressed
    ensures var raw := RawForm(z, compress, msg);
            Handled(z, raw, false, false) == Handled(z, msg, false, raw != msg)
  {
    var raw := RawForm(z, compress, msg);
    if raw != msg {
      DecompressUndoes(z, msg);
    }
  }

  /** What a receiver handles of one packet. */
  function Delivered(w: Wrap, z: Lzw, packet: Bytes): seq<Bytes> {
    var m := Ingested(w, packet);
    if m.None? then [] else Handled(z, m.value, false, false)
  }

  /** The packet rawSendMsgPacket puts on the wire. */
  function Packet(w: Wrap, z: Lzw, compress: bool, msg: Bytes): Bytes
    requires |w.lbl| <= LabelMaxSize
  {
    Wrapped(w, RawForm(z, compress, msg))
  }

  /** Nothing senders put on the wire is taken for a wrapper that was not added. */
  lemma RawFormArrives(w: Wrap, z: Lzw, compress: bool, msg: Bytes)
    requires Usable(w) && Sendable(msg)
    ensures Ingested(w, Packet(w, z, compress, msg)) == Some(RawForm(z, compress, msg))
  {
    var raw := RawForm(z, compress, msg);
    RawFormStarts(z, compress, msg);
    assert Ingested(w, Wrapped(w, raw)) == Some(raw) by { ArrivesIff(w, raw); }
  }

  lemma RawFormStarts(z: Lzw, compress: bool, msg: Bytes)
    requires Sendable(msg)
    ensures var raw := RawForm(z, compress, msg); raw != [] && raw[0] != HasCrcMsg && raw[0] != HasLabelMsg
  {
  }

  /** Wrapped, compressed or not, a message is handled as it would be bare. */
  lemma PacketDelivers(w: Wrap, z: Lzw, compress: bool, msg: Bytes)
    requires Usable(w) && SoundCoder(z) && Sendable(msg) && |msg| <= MaxPacketDecompressed
    ensures Delivered(w, z, Packet(w, z, compress, msg)) == Handled(z, msg, false, RawForm(z, compress, msg) != msg)
  {
    RawFormArrives(w, z, compress, msg);
    CompressionIsTransparent(z, compress, msg);
  }

  /** A single message is delivered as it is. */
  lemma PlainDelivers(w: Wrap, z: Lzw, compress: bool, msg: Bytes)
    requires Usable(w) && SoundCoder(z) && Plain(msg) && |msg| <= MaxPacketDecompressed
    ensures Delivered(w, z, Packet(w, z, compress, msg)) == [msg]
  {
    PacketDelivers(w, z, compress, msg);
    PlainHandled(z, msg, false, RawForm(z, compress, msg) != msg);
  }

  /** A compound delivers its parts, exactly when there are at most 255 of at most 65535 bytes. */
  lemma CompoundDeliversIff(w: Wrap, z: Lzw, compress: bool, msgs: seq<Bytes>)
    requires Usable(w) && SoundCoder(z) && AllPlain(msgs) && |Compound.Packed(msgs)| <= MaxPacketDecompressed
    requires forall i :: 0 <= i < |msgs| ==> |msgs[i]| <= 0xffff
    ensures Delivered(w, z, Packet(w, z, compress, Compound.Packed(msgs))) == msgs <==> |msgs| <= Compound.MaxMsgs
  {
    var m := Compound.Packed(msgs);
    var nested := RawForm(z, compress, m) != m;
    PacketDelivers(w, z, compress, m);
    var r := Compound.Unpack(m[1..]);
    if |msgs| <= Compound.MaxMsgs {
      Compound.PackableUnpacks(msgs);
      PlainPartsHandled(z, msgs, nested);
    } else if r.Parts? {
      Compound.UnpackedIsPackable(m[1..]);
      PartsNeverMultiply(z, r.parts, nested);
    }
  }

  /** What a receiver handles of several packets. */
  function DeliveredAll(w: Wrap, z: Lzw, packets: seq<Bytes>): seq<Bytes> {
    if packets == [] then [] else Delivered(w, z, packets[0]) + DeliveredAll(w, z, packets[1..])
  }
}
