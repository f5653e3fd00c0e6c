/** Compound messages of util.go: the type, the part count, a 16-bit length per part, then the parts. */
module Compound {
  import opened Base
  import opened Msgpack

  const CompoundMsg: byte := 7
  const MaxMsgs := 255

  function Lengths(msgs: seq<Bytes>): Bytes {
    if msgs == [] then [] else Big16(|msgs[0]| % 0x1_0000) + Lengths(msgs[1..])
  }

  function Flatten(msgs: seq<Bytes>): Bytes {
    if msgs == [] then [] else msgs[0] + Flatten(msgs[1..])
  }

  /** The count and the lengths keep only their low bits. */
  function Packed(msgs: seq<Bytes>): Bytes {
    [CompoundMsg, |msgs| % 0x100] + Lengths(msgs) + Flatten(msgs)
  }

  lemma {:induction false} LengthsAppend(msgs: seq<Bytes>, m: Bytes)
    ensures Lengths(msgs + [m]) == Lengths(msgs) + Big16(|m| % 0x1_0000)
  {
    if msgs == [] {
      assert msgs + [m] == [m];
    } else {
      assert (msgs + [m])[1..] == msgs[1..] + [m];
      LengthsAppend(msgs[1..], m);
    }
  }

  lemma {:induction false} FlattenConcat(a: seq<Bytes>, b: seq<Bytes>)
    ensures Flatten(a + b) == Flatten(a) + Flatten(b)
  {
    if a == [] {
      assert a + b == b;
    } else {
      assert (a + b)[1..] == a[1..] + b;
      FlattenConcat(a[1..], b);
    }
  }

  lemma FlattenAppend(msgs: seq<Bytes>, m: Bytes)
    ensures Flatten(msgs + [m]) == Flatten(msgs) + m
  {
    FlattenConcat(msgs, [m]);
    assert Flatten([m]) == m + Flatten([m][1..]);
  }

  /** makeCompoundMessage */
  method MakeCompoundMessage(msgs: seq<Bytes>) returns (buf: Bytes)
    ensures buf == Packed(msgs)
  {
    buf := [CompoundMsg, |msgs| % 0x100];
    ghost var head := buf;
    for i := 0 to |msgs|
      invariant buf == head + Lengths(msgs[..i])
    {
      assert msgs[..i + 1] == msgs[..i] + [msgs[i]];
      LengthsAppend(msgs[..i], msgs[i]);
      buf := buf + Big16(|msgs[i]| % 0x1_0000);
    }
    assert msgs[..|msgs|] == msgs;
    ghost var upTo := buf;
    for i := 0 to |msgs|
      invariant buf == upTo + Flatten(msgs[..i])
    {
      assert msgs[..i + 1] == msgs[..i] + [msgs[i]];
      FlattenAppend(msgs[..i], msgs[i]);
      buf := buf + msgs[i];
    }
  }

  // Unpacking.

  /** The parts, and how many the buffer ends too early for. */
  datatype Unpacked = Parts(trunc: nat, parts: seq<Bytes>) | Malformed

  function Split(lengths: seq<nat>, b: Bytes): (nat, seq<Bytes>) {
    if lengths == [] then (0, [])
    else if |b| < lengths[0] then (|lengths|, [])
    else
      var r := Split(lengths[1..], b[lengths[0]..]);
      (r.0, [b[..lengths[0]]] + r.1)
  }

  function ReadLengths(n: nat, b: Bytes): (r: seq<nat>)
    requires 2 * n <= |b|
    ensures |r| == n
  {
    if n == 0 then [] else [Big(b[..2])] + ReadLengths(n - 1, b[2..])
  }

  function Unpack(b: Bytes): Unpacked {
    if b == [] then Malformed
    else
      var n: nat := b[0] as int;
      if |b| - 1 < 2 * n then Malformed
      else
        var r := Split(ReadLengths(n, b[1..]), b[1 + 2 * n..]);
        Parts(r.0, r.1)
  }

  lemma PairAt(b: Bytes, j: nat)
    requires j + 4 <= |b|
    ensures b[2..][j..j + 2] == b[j + 2..j + 4]
  {
    assert b[2..][j..j + 2] == [b[j + 2], b[j + 3]];
  }

  lemma {:induction false} ReadLengthsAt(n: nat, b: Bytes, i: nat)
    requires 2 * n <= |b| && i < n
    ensures ReadLengths(n, b)[i] == Big(b[2 * i..2 * i + 2])
  {
    if i > 0 {
      ReadLengthsAt(n - 1, b[2..], i - 1);
      PairAt(b, 2 * (i - 1));
    }
  }

  lemma BigPair(b: Bytes)
    requires |b| == 2
    ensures Big(b) == b[0] as int * 0x100 + b[1]
  {
    assert b[..1] == [b[0]] && [b[0]][..0] == [];
    assert Big([b[0]]) == b[0];
  }

  /** The length loop of decodeCompoundMessage. */
  method DecodeLengths(n: nat, buf: Bytes) returns (lengths: seq<nat>)
    requires 2 * n <= |buf|
    ensures lengths == ReadLengths(n, buf)
  {
    lengths := [];
    for i := 0 to n
      invariant |lengths| == i && lengths == ReadLengths(n, buf)[..i]
    {
      ReadLengthsAt(n, buf, i);
      BigPair(buf[2 * i..2 * i + 2]);
      lengths := lengths + [buf[2 * i] as int * 0x100 + buf[2 * i + 1]];
    }
  }

  /** The part loop of decodeCompoundMessage. */
  method SplitParts(lengths: seq<nat>, b: Bytes) returns (trunc: nat, parts: seq<Bytes>)
    ensures (trunc, parts) == Split(lengths, b)
  {
    parts := [];
    var buf := b;
    for i := 0 to |lengths|
      invariant Split(lengths, b).0 == Split(lengths[i..], buf).0
      invariant Split(lengths, b).1 == parts + Split(lengths[i..], buf).1
    {
      assert lengths[i..][1..] == lengths[i + 1..];
      if |buf| < lengths[i] {
        assert parts + [] == parts;
        return |lengths| - i, parts;
      }
      parts, buf := parts + [buf[..lengths[i]]], buf[lengths[i]..];
    }
    assert parts + [] == parts;
    trunc := 0;
  }

  /** decodeCompoundMessage */
  method DecodeCompoundMessage(b: Bytes) returns (r: Unpacked)
    ensures r == Unpack(b)
  {
    if |b| < 1 {
      return Malformed;
    }
    var n: nat := b[0] as int;
    var buf := b[1..];
    if |buf| < n * 2 {
      return Malformed;
    }
    var lengths := DecodeLengths(n, buf);
    assert buf[2 * n..] == b[1 + 2 * n..];
    var trunc, parts := SplitParts(lengths, buf[2 * n..]);
    return Parts(trunc, parts);
  }

  // Round trip.

  /** At most 255 parts, each with a 16-bit length. */
  ghost predicate Packable(msgs: seq<Bytes>) {
    |msgs| <= 0xff && forall i :: 0 <= i < |msgs| ==> |msgs[i]| <= 0xffff
  }

  ghost function Sizes(msgs: seq<Bytes>): seq<nat> { seq(|msgs|, i requires 0 <= i < |msgs| => |msgs[i]|) }

  lemma {:induction false} LengthsSize(msgs: seq<Bytes>)
    ensures |Lengths(msgs)| == 2 * |msgs|
  {
    if msgs != [] {
      LengthsSize(msgs[1..]);
    }
  }

  lemma ReadLengthsStep(n: nat, v: nat, y: Bytes)
    requires n > 0 && v <= 0xffff && 2 * (n - 1) <= |y|
    ensures ReadLengths(n, Big16(v) + y) == [v] + ReadLengths(n - 1, y)
  {
    var b := Big16(v) + y;
    assert b[..2] == Big16(v) && b[2..] == y;
    Big16Reads(v);
  }

  lemma {:induction false} LengthsRead(msgs: seq<Bytes>, x: Bytes)
    requires forall i :: 0 <= i < |msgs| ==> |msgs[i]| <= 0xffff
    ensures |Lengths(msgs)| == 2 * |msgs| && ReadLengths(|msgs|, Lengths(msgs) + x) == Sizes(msgs)
  {
    LengthsSize(msgs);
    if msgs != [] {
      LengthsSize(msgs[1..]);
      LengthsRead(msgs[1..], x);
      assert Lengths(msgs) + x == Big16(|msgs[0]|) + (Lengths(msgs[1..]) + x);
      ReadLengthsStep(|msgs|, |msgs[0]|, Lengths(msgs[1..]) + x);
      assert Sizes(msgs) == [|msgs[0]|] + Sizes(msgs[1..]);
    }
  }

  lemma {:induction false} SplitFlatten(msgs: seq<Bytes>)
    ensures Split(Sizes(msgs), Flatten(msgs)) == (0, msgs)
  {
    if msgs != [] {
      SplitFlatten(msgs[1..]);
      assert Sizes(msgs)[1..] == Sizes(msgs[1..]);
      var b := Flatten(msgs);
      assert b[..|msgs[0]|] == msgs[0] && b[|msgs[0]|..] == Flatten(msgs[1..]);
      assert [msgs[0]] + msgs[1..] == msgs;
    }
  }

  lemma PackableUnpacks(msgs: seq<Bytes>)
    requires Packable(msgs)
    ensures Unpack(Packed(msgs)[1..]) == Parts(0, msgs)
  {
    var b := Packed(msgs)[1..];
    LengthsRead(msgs, Flatten(msgs));
    assert b[0] == |msgs| && b[1..] == Lengths(msgs) + Flatten(msgs);
    assert b[1 + 2 * |msgs|..] == Flatten(msgs);
    SplitFlatten(msgs);
  }

  /** Of the messages one after the other, the first n bytes hold exactly k whole. */
  predicate WholeWithin(msgs: seq<Bytes>, n: nat, k: nat) {
    k <= |msgs| && |Flatten(msgs[..k])| <= n && (k < |msgs| ==> n < |Flatten(msgs[..k + 1])|)
  }

  lemma FlattenHead(msgs: seq<Bytes>, k: nat)
    requires 0 < k <= |msgs|
    ensures Flatten(msgs[..k]) == msgs[0] + Flatten(msgs[1..][..k - 1])
  {
    assert msgs[..k][1..] == msgs[1..][..k - 1];
  }

  lemma SplitFirst(msgs: seq<Bytes>, b: Bytes)
    requires msgs != [] && |msgs[0]| <= |b|
    ensures var r, first := Split(Sizes(msgs[1..]), b[|msgs[0]|..]), |msgs[0]|;
            Split(Sizes(msgs), b) == (r.0, [b[..first]] + r.1)
  {
    assert Sizes(msgs)[1..] == Sizes(msgs[1..]);
  }

  /** After the first message, the rest holds one whole message less. */
  lemma WholeTail(msgs: seq<Bytes>, n: nat, k: nat)
    requires WholeWithin(msgs, n, k) && 0 < k
    ensures |msgs[0]| <= n && WholeWithin(msgs[1..], n - |msgs[0]|, k - 1)
  {
    FlattenHead(msgs, k);
    if k < |msgs| {
      FlattenHead(msgs, k + 1);
    }
  }

  lemma PrefixCut(a: Bytes, f: Bytes, b: Bytes)
    requires b <= a + f && |a| <= |b|
    ensures b[..|a|] == a && b[|a|..] <= f
  {
  }

  lemma NoneWhole(msgs: seq<Bytes>, n: nat)
    requires WholeWithin(msgs, n, 0) && msgs != []
    ensures n < |msgs[0]|
  {
    FlattenHead(msgs, 1);
    assert msgs[1..][..0] == [];
  }

  lemma {:induction false} SplitCut(msgs: seq<Bytes>, b: Bytes, k: nat)
    requires b <= Flatten(msgs) && WholeWithin(msgs, |b|, k)
    ensures Split(Sizes(msgs), b) == (|msgs| - k, msgs[..k])
    decreases |msgs|
  {
    if msgs != [] {
      if k == 0 {
        NoneWhole(msgs, |b|);
      } else {
        WholeTail(msgs, |b|, k);
        PrefixCut(msgs[0], Flatten(msgs[1..]), b);
        SplitCut(msgs[1..], b[|msgs[0]|..], k - 1);
        SplitFirst(msgs, b);
        assert [msgs[0]] + msgs[1..][..k - 1] == msgs[..k];
      }
    }
  }

  lemma DropFirst(h: byte, c: byte, l: Bytes, f: Bytes)
    ensures ([h, c] + l + f)[1..] == [c] + l + f
  {
  }

  lemma CountFits(n: nat)
    requires n <= 0xff
    ensures n % 0x100 == n
  {
  }

  lemma PackedTail(msgs: seq<Bytes>)
    requires |msgs| <= 0xff
    ensures Packed(msgs)[1..] == [|msgs|] + Lengths(msgs) + Flatten(msgs)
  {
    CountFits(|msgs|);
    DropFirst(CompoundMsg, |msgs| % 0x100, Lengths(msgs), Flatten(msgs));
  }

  lemma PrefixForm(c: byte, l: Bytes, f: Bytes, b: Bytes)
    requires b <= [c] + l + f && |b| >= 1 + |l|
    ensures b == [c] + (l + f[..|b| - 1 - |l|])
  {
  }

  lemma UnpackForm(n: nat, lengths: Bytes, body: Bytes)
    requires n <= 0xff && |lengths| == 2 * n
    ensures var r := Split(ReadLengths(n, lengths + body), body);
            Unpack([n] + (lengths + body)) == Parts(r.0, r.1)
  {
    var b := [n] + (lengths + body);
    assert b[1..] == lengths + body && b[1 + 2 * n..] == body;
  }

  /**
   Cut short anywhere after its lengths, a compound message still gives the
   parts that are whole, and says how many are missing.
   */
  lemma TruncationKeepsTheWhole(msgs: seq<Bytes>, b: Bytes, k: nat)
    requires Packable(msgs) && b <= Packed(msgs)[1..] && |b| >= 1 + 2 * |msgs|
    requires WholeWithin(msgs, |b| - 1 - 2 * |msgs|, k)
    ensures Unpack(b) == Parts(|msgs| - k, msgs[..k])
  {
    var n, l, f := |b| - 1 - 2 * |msgs|, Lengths(msgs), Flatten(msgs);
    PackedTail(msgs);
    LengthsSize(msgs);
    PrefixForm(|msgs|, l, f, b);
    LengthsRead(msgs, f[..n]);
    UnpackForm(|msgs|, l, f[..n]);
    SplitCut(msgs, f[..n], k);
  }

  /** Cut short within its lengths, it is refused. */
  lemma TruncatedLengthsRefused(msgs: seq<Bytes>, b: Bytes)
    requires Packable(msgs) && b <= Packed(msgs)[1..] && |b| <= 2 * |msgs|
    ensures Unpack(b) == Malformed
  {
    PackedTail(msgs);
    assert b != [] ==> b[0] == |msgs|;
  }

  /** A decoded part is never longer than its length field, nor are there more parts than the count. */
  lemma {:induction false} SplitBounded(lengths: seq<nat>, b: Bytes)
    requires forall i :: 0 <= i < |lengths| ==> lengths[i] <= 0xffff
    ensures var p := Split(lengths, b).1; |p| <= |lengths| && forall i :: 0 <= i < |p| ==> |p[i]| <= 0xffff
  {
    if lengths != [] && lengths[0] <= |b| {
      SplitBounded(lengths[1..], b[lengths[0]..]);
    }
  }

  lemma ReadLengthsBounded(n: nat, b: Bytes)
    requires 2 * n <= |b|
    ensures forall i :: 0 <= i < n ==> ReadLengths(n, b)[i] <= 0xffff
  {
    forall i | 0 <= i < n ensures ReadLengths(n, b)[i] <= 0xffff {
      ReadLengthsAt(n, b, i);
      BigPair(b[2 * i..2 * i + 2]);
    }
  }

  /** Whatever is decoded was packable. */
  lemma UnpackedIsPackable(b: Bytes)
    requires Unpack(b).Parts?
    ensures Packable(Unpack(b).parts)
  {
    var n: nat := b[0] as int;
    ReadLengthsBounded(n, b[1..]);
    SplitBounded(ReadLengths(n, b[1..]), b[1 + 2 * n..]);
  }

  /** A compound message reads back exactly when it has at most 255 parts of at most 65535 bytes. */
  lemma ReadsBackIff(msgs: seq<Bytes>)
    ensures Unpack(Packed(msgs)[1..]) == Parts(0, msgs) <==> Packable(msgs)
  {
    if Unpack(Packed(msgs)[1..]) == Parts(0, msgs) {
      UnpackedIsPackable(Packed(msgs)[1..]);
    }
    if Packable(msgs) {
      PackableUnpacks(msgs);
    }
  }

  /** makeCompoundMessage alone loses 256 messages, whatever they are: the count wraps to none. */
  lemma TooManyAreLost(msgs: seq<Bytes>)
    requires |msgs| == 0x100
    ensures Unpack(Packed(msgs)[1..]) == Parts(0, [])
  {
  }

  // Splitting into several.

  /** Groups of 255, the last one shorter. */
  function Groups(msgs: seq<Bytes>): seq<seq<Bytes>>
    decreases |msgs|
  {
    if |msgs| > MaxMsgs then [msgs[..MaxMsgs]] + Groups(msgs[MaxMsgs..]) else if msgs == [] then [] else [msgs]
  }

  lemma GroupsSplit(msgs: seq<Bytes>)
    requires |msgs| > MaxMsgs
    ensures Groups(msgs) != [] && Groups(msgs)[0] == msgs[..MaxMsgs] && Groups(msgs)[1..] == Groups(msgs[MaxMsgs..])
  {
  }

  function PackedAll(groups: seq<seq<Bytes>>): seq<Bytes> {
    if groups == [] then [] else [Packed(groups[0])] + PackedAll(groups[1..])
  }

  lemma {:induction false} PackedAllAppend(groups: seq<seq<Bytes>>, g: seq<Bytes>)
    ensures PackedAll(groups + [g]) == PackedAll(groups) + [Packed(g)]
  {
    if groups == [] {
      assert groups + [g] == [g];
    } else {
      assert (groups + [g])[1..] == groups[1..] + [g];
      PackedAllAppend(groups[1..], g);
    }
  }

  /** makeCompoundMessages */
  method MakeCompoundMessages(msgs: seq<Bytes>) returns (out: seq<Bytes>)
    ensures out == PackedAll(Groups(msgs))
  {
    out := [];
    var left := msgs;
    ghost var done: seq<seq<Bytes>> := [];
    while |left| > MaxMsgs
      invariant Groups(msgs) == done + Groups(left) && out == PackedAll(done)
      decreases |left|
    {
      var packed := MakeCompoundMessage(left[..MaxMsgs]);
      GroupDone(done, left);
      out, done, left := out + [packed], done + [left[..MaxMsgs]], left[MaxMsgs..];
    }
    if |left| > 0 {
      var packed := MakeCompoundMessage(left);
      PackedAllAppend(done, left);
      out := out + [packed];
    } else {
      assert done + [] == done;
    }
  }

  lemma GroupDone(done: seq<seq<Bytes>>, left: seq<Bytes>)
    requires |left| > MaxMsgs
    ensures done + Groups(left) == done + [left[..MaxMsgs]] + Groups(left[MaxMsgs..])
    ensures PackedAll(done + [left[..MaxMsgs]]) == PackedAll(done) + [Packed(left[..MaxMsgs])]
  {
    PackedAllAppend(done, left[..MaxMsgs]);
    Regroup(done, left[..MaxMsgs], Groups(left[MaxMsgs..]));
  }

  lemma Regroup<T>(a: seq<T>, x: T, b: seq<T>)
    ensures a + ([x] + b) == a + [x] + b
  {
  }

  /** What a receiver collects from compound packets, in order. */
  function UnpackAll(packets: seq<Bytes>): seq<Bytes>
    requires forall i :: 0 <= i < |packets| ==> packets[i] != []
  {
    if packets == [] then []
    else
      var r := Unpack(packets[0][1..]);
      (if r.Parts? then r.parts else []) + UnpackAll(packets[1..])
  }

  lemma {:induction false} PackedAllFull(groups: seq<seq<Bytes>>)
    ensures |PackedAll(groups)| == |groups|
    ensures forall i :: 0 <= i < |groups| ==> PackedAll(groups)[i] == Packed(groups[i]) && PackedAll(groups)[i] != []
  {
    if groups != [] {
      PackedAllFull(groups[1..]);
    }
  }

  /** However many messages there are, the split form delivers exactly them, in order. */
  lemma {:induction false} SplittingIsLossless(msgs: seq<Bytes>)
    requires forall i :: 0 <= i < |msgs| ==> |msgs[i]| <= 0xffff
    ensures forall i :: 0 <= i < |PackedAll(Groups(msgs))| ==> PackedAll(Groups(msgs))[i] != []
    ensures UnpackAll(PackedAll(Groups(msgs))) == msgs
    decreases |msgs|
  {
    PackedAllFull(Groups(msgs));
    if |msgs| > MaxMsgs {
      SplittingIsLossless(msgs[MaxMsgs..]);
      PackableUnpacks(msgs[..MaxMsgs]);
      assert PackedAll(Groups(msgs))[1..] == PackedAll(Groups(msgs[MaxMsgs..]));
      assert msgs == msgs[..MaxMsgs] + msgs[MaxMsgs..];
    } else if msgs != [] {
      PackableUnpacks(msgs);
      assert PackedAll(Groups(msgs)) == [Packed(msgs)];
      assert [Packed(msgs)][1..] == [];
    }
  }
}
