/**
 * What a packet goes through on its way out and in: a CRC header, padding and encryption, the label. The checksum
 * and the cipher are parameters; only their sizes, and that opening undoes sealing, matter here.
 */
module Packing {
  import opened Base
  import opened Msgpack

  const HasCrcMsg: byte := 12
  const HasLabelMsg: byte := 244
  const LabelMaxSize := 255
  const CrcOverhead := 5
  const BlockSize := 16
  const NonceSize := 12
  const TagSize := 16

  // Labels.

  function LabelOverhead(lbl: Bytes): nat { if lbl == [] then 0 else 2 + |lbl| }

  /** None: the label is too long. */
  function AddLabel(buf: Bytes, lbl: Bytes): Option<Bytes> {
    if lbl == [] then Some(buf)
    else if |lbl| > LabelMaxSize then None
    else Some([HasLabelMsg, |lbl|] + lbl + buf)
  }

  datatype Labelled = Labelled(buf: Bytes, lbl: Bytes) | BadLabel

  function RemoveLabel(buf: Bytes): Labelled {
    if buf == [] || buf[0] != HasLabelMsg then Labelled(buf, [])
    else if |buf| < 2 || buf[1] < 1 || |buf| < 2 + buf[1] as int then BadLabel
    else Labelled(buf[2 + buf[1] as int..], buf[2..2 + buf[1] as int])
  }

  /** Removing undoes adding exactly when there is a label, or the bare packet does not start like one. */
  lemma LabelReadsBackIff(buf: Bytes, lbl: Bytes)
    requires |lbl| <= LabelMaxSize
    ensures AddLabel(buf, lbl).Some? && |AddLabel(buf, lbl).value| == LabelOverhead(lbl) + |buf|
    ensures RemoveLabel(AddLabel(buf, lbl).value) == Labelled(buf, lbl) <==>
              lbl != [] || buf == [] || buf[0] != HasLabelMsg
  {
  }

  /** Removing a label finds one exactly where one was added: nothing else is taken for a label. */
  lemma LabelFoundIff(buf: Bytes, rest: Bytes, lbl: Bytes)
    ensures RemoveLabel(buf) == Labelled(rest, lbl) <==>
              AddLabel(rest, lbl) == Some(buf) && (lbl == [] ==> buf == [] || buf[0] != HasLabelMsg)
  {
    var r := RemoveLabel(buf);
    if r.Labelled? && r.lbl != [] {
      assert buf == [HasLabelMsg, |r.lbl|] + r.lbl + r.buf;
    }
    if AddLabel(rest, lbl) == Some(buf) && lbl != [] {
      assert buf[2..2 + |lbl|] == lbl && buf[2 + |lbl|..] == rest;
    }
  }

  // Padding and encryption.

  function Padding(n: nat): byte { BlockSize - n % BlockSize }

  function Repeat(c: byte, n: nat): (r: Bytes)
    ensures |r| == n && forall i :: 0 <= i < n ==> r[i] == c
  {
    if n == 0 then [] else Repeat(c, n - 1) + [c]
  }

  function Padded(msg: Bytes): Bytes { msg + Repeat(Padding(|msg|), Padding(|msg|)) }

  /** The padding loop of pkcs7encode and sealPayload. */
  method Pkcs7Encode(msg: Bytes) returns (buf: Bytes)
    ensures buf == Padded(msg)
  {
    var more := BlockSize - |msg| % BlockSize;
    buf := msg;
    for i := 0 to more
      invariant buf == msg + Repeat(more, i)
    {
      buf := buf + [more];
    }
  }

  /** pkcs7decode; None is a malformed pad. */
  function Unpadded(buf: Bytes): Option<Bytes> {
    if buf == [] then None
    else
      var pad := buf[|buf| - 1];
      if pad < 1 || pad > BlockSize || pad > |buf| then None else Some(buf[..|buf| - pad])
  }

  /** Unpadding undoes padding, and padding fills whole blocks. */
  lemma PaddingReadsBack(msg: Bytes)
    ensures Unpadded(Padded(msg)) == Some(msg) && |Padded(msg)| % BlockSize == 0 &&
            |msg| < |Padded(msg)| <= |msg| + BlockSize
  {
  }

  /** What unpadding accepts: the last byte says how many are dropped, 1 to 16 of them; the others are not looked at. */
  lemma UnpaddedIff(buf: Bytes, msg: Bytes)
    ensures Unpadded(buf) == Some(msg) <==>
              msg <= buf && 1 <= |buf| - |msg| <= BlockSize && buf[|buf| - 1] as int == |buf| - |msg|
  {
    if msg <= buf {
      assert msg == buf[..|msg|];
    }
  }

  /** Encryption version 0 pads; version 1 does not. */
  datatype Version = V0 | V1

  function VersionByte(v: Version): byte { if v.V0? then 0 else 1 }

  function EncryptOverhead(v: Version): nat { if v.V0? then 45 else 29 }

  function EncryptedLength(v: Version, n: nat): nat {
    if v.V1? then 1 + NonceSize + n + TagSize else 1 + NonceSize + n + Padding(n) + TagSize
  }

  /** A cipher: text and authenticated data to ciphertext, and back. */
  datatype Cipher = Cipher(seal: (Bytes, Bytes, Bytes) -> Bytes, open: (Bytes, Bytes, Bytes) -> Option<Bytes>)

  ghost predicate Sound(c: Cipher) {
    forall nonce, src, data ::
      var t := c.seal(nonce, src, data);
      |t| == |src| + TagSize && c.open(nonce, t, data) == Some(src)
  }

  function Seal(c: Cipher, v: Version, nonce: Bytes, msg: Bytes, data: Bytes): Bytes {
    [VersionByte(v)] + nonce + c.seal(nonce, if v.V0? then Padded(msg) else msg, data)
  }

  /** openPayload with one key. */
  function Open(c: Cipher, msg: Bytes, data: Bytes): Option<Bytes> {
    if msg == [] || msg[0] > 1 then None
    else
      var v := if msg[0] == 0 then V0 else V1;
      if |msg| < EncryptedLength(v, 0) then None
      else
        var plain := c.open(msg[1..1 + NonceSize], msg[1 + NonceSize..], data);
        if plain.None? then None else if v.V0? then Unpadded(plain.value) else plain
  }

  /** encryptedLength is exact and within encryptOverhead, and opening undoes sealing. */
  lemma SealedSize(c: Cipher, v: Version, nonce: Bytes, msg: Bytes, data: Bytes)
    requires Sound(c) && |nonce| == NonceSize
    ensures |Seal(c, v, nonce, msg, data)| == EncryptedLength(v, |msg|) <= |msg| + EncryptOverhead(v)
    ensures Open(c, Seal(c, v, nonce, msg, data), data) == Some(msg)
  {
  }

  /** The cipher authenticates: what it opens, it sealed. */
  ghost predicate Authentic(c: Cipher) {
    forall nonce, t, data :: var src := c.open(nonce, t, data);
      src.Some? ==> t == c.seal(nonce, src.value, data)
  }

  /** Whatever a payload opens to was sealed in it, under its own version byte and nonce and with the same data. */
  lemma OpenedWasSealed(c: Cipher, msg: Bytes, data: Bytes, plain: Bytes)
    requires Sound(c) && Authentic(c) && Open(c, msg, data) == Some(plain)
    ensures |msg| >= (if msg[0] == 0 then 45 else 29) && msg[0] <= 1
    ensures msg[0] == 1 ==> msg == Seal(c, V1, msg[1..13], plain, data)
    ensures msg[0] == 0 ==> exists src :: msg == [0] + msg[1..13] + c.seal(msg[1..13], src, data)
                                          && Unpadded(src) == Some(plain)
  {
    var nonce, t := msg[1..13], msg[13..];
    var src := c.open(nonce, t, data).value;
    assert t == c.seal(nonce, src, data);
    assert msg == [msg[0]] + nonce + t;
  }

  // The checksum.

  function Checked(crc: Bytes -> u32, msg: Bytes): Bytes { [HasCrcMsg] + Big32(crc(msg)) + msg }

  /** None: the checksum does not match. */
  function Unchecked(crc: Bytes -> u32, buf: Bytes): Option<Bytes> {
    if |buf| >= 5 && buf[0] == HasCrcMsg then if crc(buf[5..]) == Big(buf[1..5]) then Some(buf[5..]) else None
    else Some(buf)
  }

  lemma ChecksumReadsBack(crc: Bytes -> u32, msg: Bytes)
    ensures Unchecked(crc, Checked(crc, msg)) == Some(msg) && |Checked(crc, msg)| == CrcOverhead + |msg|
  {
    var b := Checked(crc, msg);
    Big32Reads(crc(msg));
    assert b[1..5] == Big32(crc(msg)) && b[5..] == msg;
  }

  /** A message is read from what was sent with its right checksum, or from what bears no checksum. */
  lemma CheckedIff(crc: Bytes -> u32, buf: Bytes, msg: Bytes)
    ensures Unchecked(crc, buf) == Some(msg) <==>
              buf == Checked(crc, msg) || (buf == msg && !(|msg| >= CrcOverhead && msg[0] == HasCrcMsg))
  {
    ChecksumReadsBack(crc, msg);
    if |buf| >= 5 && buf[0] == HasCrcMsg && Unchecked(crc, buf) == Some(msg) {
      Big32Inverse(buf[1..5]);
      assert buf == [HasCrcMsg] + buf[1..5] + buf[5..];
    }
  }

  // A whole packet.

  /** How a sender wraps: a checksum for peers that understand it, encryption when enabled, the label. */
  datatype Wrap = Wrap(crc: Bytes -> u32, checked: bool, cipher: Cipher, sealed: Option<Version>, nonce: Bytes,
                       lbl: Bytes)

  ghost predicate Usable(w: Wrap) { Sound(w.cipher) && |w.nonce| == NonceSize && |w.lbl| <= LabelMaxSize }

  function Summed(w: Wrap, msg: Bytes): Bytes { if w.checked then Checked(w.crc, msg) else msg }

  function SealedForm(w: Wrap, msg: Bytes): Bytes {
    if w.sealed.Some? then Seal(w.cipher, w.sealed.value, w.nonce, Summed(w, msg), w.lbl) else Summed(w, msg)
  }

  /** rawSendMsgPacket after compression, and the transport's label. */
  function Wrapped(w: Wrap, msg: Bytes): Bytes
    requires |w.lbl| <= LabelMaxSize
  {
    AddLabel(SealedForm(w, msg), w.lbl).value
  }

  function Reserve(lbl: Bytes, sealed: Option<Version>): nat {
    CrcOverhead + LabelOverhead(lbl) + if sealed.Some? then EncryptOverhead(sealed.value) else 0
  }

  /** ingestPacket at a receiver with the same label and key: what handleCommand gets. */
  function Ingested(w: Wrap, packet: Bytes): Option<Bytes> {
    var r := RemoveLabel(packet);
    if r.BadLabel? || r.lbl != w.lbl then None
    else
      var plain := if w.sealed.Some? then Open(w.cipher, r.buf, r.lbl) else Some(r.buf);
      if plain.None? then None else Unchecked(w.crc, plain.value)
  }

  /** Wrapping costs at most what senders reserve. */
  lemma WrappedSize(w: Wrap, msg: Bytes)
    requires Usable(w)
    ensures |Wrapped(w, msg)| <= |msg| + Reserve(w.lbl, w.sealed)
  {
  }

  /** The padding that the worst case would still add: none without it, and up to 15 bytes with it. */
  function Slack(w: Wrap, msg: Bytes): nat {
    (if w.checked then 0 else CrcOverhead) +
    if w.sealed == Some(V0) then BlockSize - Padding(|Summed(w, msg)|) as int else 0
  }

  /** Exactly what wrapping costs: the reserve, but for the checksum if there is none and for padding not needed. */
  lemma WrappedExactly(w: Wrap, msg: Bytes)
    requires Usable(w)
    ensures |Wrapped(w, msg)| + Slack(w, msg) == |msg| + Reserve(w.lbl, w.sealed)
  {
    if w.sealed.Some? {
      SealedSize(w.cipher, w.sealed.value, w.nonce, Summed(w, msg), w.lbl);
    }
    LabelReadsBackIff(SealedForm(w, msg), w.lbl);
  }

  /** The reserve is the least there can be: for a summed message some length of it, modulo the block, needs it all. */
  lemma ReserveIsTight(w: Wrap, msg: Bytes)
    requires Usable(w) && w.checked && (w.sealed == Some(V0) ==> (|msg| + CrcOverhead) % BlockSize == 0)
    ensures |Wrapped(w, msg)| == |msg| + Reserve(w.lbl, w.sealed)
  {
    WrappedExactly(w, msg);
    ChecksumReadsBack(w.crc, msg);
  }

  /** What arrives is what was sent, exactly when the message cannot be taken for a wrapper that was not added. */
  lemma ArrivesIff(w: Wrap, msg: Bytes)
    requires Usable(w)
    ensures Ingested(w, Wrapped(w, msg)) == Some(msg) <==>
              && (w.checked || !(|msg| >= CrcOverhead && msg[0] == HasCrcMsg))
              && (w.checked || w.sealed.Some? || w.lbl != [] || msg == [] || msg[0] != HasLabelMsg)
  {
    ChecksumReadsBack(w.crc, msg);
    if w.sealed.Some? {
      SealedSize(w.cipher, w.sealed.value, w.nonce, Summed(w, msg), w.lbl);
    }
    LabelReadsBackIff(SealedForm(w, msg), w.lbl);
  }
}
