/**
 * The MessagePack subset of internal/msgpack: encoders as functions to bytes, and the decoder as functions from
 * the unread input to a value and what is left. `early` is slice mode, where counts are checked against the
 * remaining input before the elements are read; without it the input is a stream.
 */
module Msgpack {
  import opened Base

  const MaxKeyLen := 64
  const MaxSkipDepth := 32
  const MaxInt32 := 0x7fff_ffff
  const MaxInt64 := 0x7fff_ffff_ffff_ffff
  const MaxUint64 := 0xffff_ffff_ffff_ffff

  type u64 = x: int | 0 <= x <= 0xffff_ffff_ffff_ffff
  type i64 = x: int | -0x8000_0000_0000_0000 <= x <= 0x7fff_ffff_ffff_ffff

  // Big-endian integers.

  function Big16(v: int): Bytes
    requires 0 <= v < 0x1_0000
  {
    [v / 0x100, v % 0x100]
  }

  function Big32(v: int): Bytes
    requires 0 <= v < 0x1_0000_0000
  {
    Big16(v / 0x1_0000) + Big16(v % 0x1_0000)
  }

  function Big64(v: int): Bytes
    requires 0 <= v <= MaxUint64
  {
    Big32(v / 0x1_0000_0000) + Big32(v % 0x1_0000_0000)
  }

  /** The value readFixed accumulates. */
  function Big(b: Bytes): nat {
    if b == [] then 0 else Big(b[..|b| - 1]) * 0x100 + b[|b| - 1]
  }

  lemma {:induction false} BigConcat(a: Bytes, b: Bytes)
    ensures Big(a + b) == Big(a) * Pow256(|b|) + Big(b)
  {
    if b == [] {
      assert a + b == a;
    } else {
      var init := b[..|b| - 1];
      assert (a + b)[..|a + b| - 1] == a + init;
      BigConcat(a, init);
      Shift(Big(a), Pow256(|init|), Big(init));
    }
  }

  lemma Shift(x: int, p: int, y: int)
    ensures (x * p + y) * 0x100 == x * (0x100 * p) + y * 0x100
  {
  }

  function Pow256(n: nat): nat { if n == 0 then 1 else 0x100 * Pow256(n - 1) }

  lemma Big16Reads(v: int)
    requires 0 <= v < 0x1_0000
    ensures Big(Big16(v)) == v
  {
    assert Big16(v)[..1] == [v / 0x100];
    assert Big([v / 0x100]) == v / 0x100 by { assert [v / 0x100][..0] == []; }
  }

  lemma Big32Reads(v: int)
    requires 0 <= v < 0x1_0000_0000
    ensures Big(Big32(v)) == v
  {
    BigConcat(Big16(v / 0x1_0000), Big16(v % 0x1_0000));
    Big16Reads(v / 0x1_0000);
    Big16Reads(v % 0x1_0000);
    assert Pow256(2) == 0x1_0000;
  }

  lemma Big16Inverse(b: Bytes)
    requires |b| == 2
    ensures Big(b) < 0x1_0000 && Big16(Big(b)) == b
  {
    assert b[..1] == [b[0]] && [b[0]][..0] == [];
    assert Big([b[0]]) == b[0];
  }

  lemma Big32Halves(hi: int, lo: int)
    requires 0 <= hi < 0x1_0000 && 0 <= lo < 0x1_0000
    ensures Big32(hi * 0x1_0000 + lo) == Big16(hi) + Big16(lo)
  {
    assert (hi * 0x1_0000 + lo) / 0x1_0000 == hi && (hi * 0x1_0000 + lo) % 0x1_0000 == lo;
  }

  /** Four bytes are the big-endian form of the number they spell. */
  lemma Big32Inverse(b: Bytes)
    requires |b| == 4
    ensures Big(b) < 0x1_0000_0000 && Big32(Big(b)) == b
  {
    var hi, lo := b[..2], b[2..];
    assert Big(b) == Big(hi) * 0x1_0000 + Big(lo) by {
      assert b == hi + lo && Pow256(2) == 0x1_0000;
      BigConcat(hi, lo);
    }
    Big16Inverse(hi);
    Big16Inverse(lo);
    Big32Halves(Big(hi), Big(lo));
  }

  lemma Big64Reads(v: int)
    requires 0 <= v <= MaxUint64
    ensures Big(Big64(v)) == v
  {
    BigConcat(Big32(v / 0x1_0000_0000), Big32(v % 0x1_0000_0000));
    Big32Reads(v / 0x1_0000_0000);
    Big32Reads(v % 0x1_0000_0000);
    assert Pow256(2) == 0x1_0000 && Pow256(4) == 0x1_0000_0000;
  }

  // Encoders.

  function AppendBool(v: bool): Bytes { [if v then 0xc3 else 0xc2] }

  function AppendUint(v: u64): Bytes {
    if v <= 0x7f then [v]
    else if v <= 0xff then [0xcc, v]
    else if v <= 0xffff then [0xcd] + Big16(v)
    else if v <= 0xffff_ffff then [0xce] + Big32(v)
    else [0xcf] + Big64(v)
  }

  function AppendInt(v: i64): Bytes {
    if v > 0x7f then
      if v <= 0x7fff then [0xd1] + Big16(v)
      else if v <= 0x7fff_ffff then [0xd2] + Big32(v)
      else [0xd3] + Big64(v)
    else if v >= 0 then [v]
    else if v >= -32 then [0x100 + v]
    else if v >= -0x80 then [0xd0, 0x100 + v]
    else if v >= -0x8000 then [0xd1] + Big16(0x1_0000 + v)
    else if v >= -0x8000_0000 then [0xd2] + Big32(0x1_0000_0000 + v)
    else [0xd3] + Big64(0x1_0000_0000_0000_0000 + v)
  }

  /** A legacy raw header; the length is truncated to 32 bits. */
  function RawHeader(n: nat): Bytes {
    if n < 32 then [0xa0 + n]
    else if n < 0x1_0000 then [0xda] + Big16(n)
    else [0xdb] + Big32(n % 0x1_0000_0000)
  }

  function AppendString(s: Bytes): Bytes { RawHeader(|s|) + s }

  /** A nil slice encodes as nil, an empty one as an empty string. */
  function AppendBytes(p: Option<Bytes>): Bytes {
    match p
    case None => [0xc0]
    case Some(s) => RawHeader(|s|) + s
  }

  function AppendMapHeader(n: nat): Bytes {
    if n < 16 then [0x80 + n]
    else if n < 0x1_0000 then [0xde] + Big16(n)
    else [0xdf] + Big32(n % 0x1_0000_0000)
  }

  // The decoder.

  datatype Error = Truncated | WrongFormat | OverLimit | OutOfRange | TooDeep

  datatype Parse<+T> = Done(value: T, rest: Bytes) | Fail(error: Error)

  function ReadByte(b: Bytes): Parse<byte> { if b == [] then Fail(Truncated) else Done(b[0], b[1..]) }

  function Take(n: nat, b: Bytes): Parse<Bytes> { if |b| < n then Fail(Truncated) else Done(b[..n], b[n..]) }

  function ReadFixed(n: nat, b: Bytes): Parse<nat> {
    if |b| < n then Fail(Truncated) else Done(Big(b[..n]), b[n..])
  }

  /** Refused early: a count the remaining input cannot hold. */
  function Counted(early: bool, n: nat, room: nat, rest: Bytes): Parse<nat> {
    if n > MaxInt32 then Fail(OverLimit) else if early && n > room then Fail(Truncated) else Done(n, rest)
  }

  function ReadMapHeader(early: bool, b: Bytes): Parse<nat> {
    if b == [] then Fail(Truncated)
    else
      var c, t := b[0], b[1..];
      if 0x80 <= c <= 0x8f then Done(c - 0x80, t)
      else if c == 0xc0 then Done(0, t)
      else if c != 0xde && c != 0xdf then Fail(WrongFormat)
      else
        var p := ReadFixed(if c == 0xde then 2 else 4, t);
        if p.Fail? then Fail(p.error) else Counted(early, p.value, |p.rest| / 2, p.rest)
  }

  /** The bytes of the length of a str or bin value; 0 for other formats. */
  function RawWidth(c: byte): nat {
    if c in {0xd9, 0xc4} then 1 else if c in {0xda, 0xc5} then 2 else if c in {0xdb, 0xc6} then 4 else 0
  }

  /** A str or bin header; None is a nil value. */
  function RawLen(b: Bytes): Parse<Option<nat>> {
    if b == [] then Fail(Truncated)
    else
      var c, t := b[0], b[1..];
      if 0xa0 <= c <= 0xbf then Done(Some(c - 0xa0), t)
      else if c == 0xc0 then Done(None, t)
      else
        if RawWidth(c) == 0 then Fail(WrongFormat)
        else
          var p := ReadFixed(RawWidth(c), t);
          if p.Fail? then Fail(p.error) else Done(Some(p.value), p.rest)
  }

  function ReadBytes(limit: nat, b: Bytes): Parse<Option<Bytes>> {
    var h := RawLen(b);
    if h.Fail? then Fail(h.error)
    else if h.value.None? then Done(None, h.rest)
    else if h.value.value > limit then Fail(OverLimit)
    else
      var p := Take(h.value.value, h.rest);
      if p.Fail? then Fail(p.error) else Done(Some(p.value), p.rest)
  }

  /** nil reads as the empty string. */
  function ReadString(limit: nat, b: Bytes): Parse<Bytes> {
    var h := RawLen(b);
    if h.Fail? then Fail(h.error)
    else if h.value.None? || h.value.value == 0 then Done([], h.rest)
    else if h.value.value > limit then Fail(OverLimit)
    else Take(h.value.value, h.rest)
  }

  /** A key of more than 64 bytes is consumed and, like nil, matches no field. */
  function ReadKey(b: Bytes): Parse<Option<Bytes>> {
    var h := RawLen(b);
    if h.Fail? then Fail(h.error)
    else if h.value.None? then Done(None, h.rest)
    else
      var p := Take(h.value.value, h.rest);
      if p.Fail? then Fail(p.error) else Done(if h.value.value > MaxKeyLen then None else Some(p.value), p.rest)
  }

  function Signed(v: nat, span: nat): int { if v >= span / 2 then v - span else v }

  /** The bytes of a sized integer; 0 for other formats. */
  function IntWidth(c: byte): nat {
    if c in {0xcc, 0xd0} then 1 else if c in {0xcd, 0xd1} then 2
    else if c in {0xce, 0xd2} then 4 else if c in {0xcf, 0xd3} then 8 else 0
  }

  /** Any integer format; nil reads as 0. */
  function ReadInteger(b: Bytes): Parse<int> {
    if b == [] then Fail(Truncated)
    else
      var c, t := b[0], b[1..];
      if c <= 0x7f then Done(c, t)
      else if c >= 0xe0 then Done(c as int - 0x100, t)
      else if c == 0xc0 then Done(0, t)
      else
        if IntWidth(c) == 0 then Fail(WrongFormat)
        else
          var p := ReadFixed(IntWidth(c), t);
          if p.Fail? then Fail(p.error)
          else Done(if c >= 0xd0 then Signed(p.value, Pow256(IntWidth(c))) else p.value, p.rest)
  }

  function ReadUint(limit: nat, b: Bytes): Parse<nat> {
    var p := ReadInteger(b);
    if p.Fail? then Fail(p.error)
    else if p.value < 0 || p.value > limit then Fail(OutOfRange)
    else Done(p.value, p.rest)
  }

  function ReadInt(lo: int, hi: int, b: Bytes): Parse<int> {
    var p := ReadInteger(b);
    if p.Fail? then Fail(p.error)
    else if p.value > MaxInt64 || p.value < lo || p.value > hi then Fail(OutOfRange)
    else Done(p.value, p.rest)
  }

  function ReadBool(b: Bytes): Parse<bool> {
    if b == [] then Fail(Truncated)
    else if b[0] in {0xc3, 1} then Done(true, b[1..])
    else if b[0] in {0xc2, 0, 0xc0} then Done(false, b[1..])
    else Fail(WrongFormat)
  }

  /** What a value being skipped holds after its header: payload bytes, or elements. */
  datatype Head = Head(bytes: nat, elems: nat)

  /** The formats whose header is one byte. */
  function FixedFormat(c: byte): Option<Head> {
    if c <= 0x7f || c >= 0xe0 || c in {0xc0, 0xc2, 0xc3} then Some(Head(0, 0))
    else if c <= 0x8f then Some(Head(0, 2 * (c - 0x80)))
    else if c <= 0x9f then Some(Head(0, c - 0x90))
    else if c <= 0xbf then Some(Head(c - 0xa0, 0))
    else if c in {0xcc, 0xd0} then Some(Head(1, 0))
    else if c in {0xcd, 0xd1} then Some(Head(2, 0))
    else if c in {0xce, 0xd2, 0xca} then Some(Head(4, 0))
    else if c in {0xcf, 0xd3, 0xcb} then Some(Head(8, 0))
    else if 0xd4 <= c <= 0xd8 then Some(Head(1 + Pow2(c - 0xd4), 0))
    else None
  }

  /** The width of a length or count, what it leaves out, and the elements per unit (0 for bytes). */
  datatype Layout = Layout(width: nat, extra: nat, each: nat)

  function LayoutOf(c: byte): Option<Layout> {
    if c in {0xd9, 0xc4} then Some(Layout(1, 0, 0))
    else if c in {0xda, 0xc5} then Some(Layout(2, 0, 0))
    else if c in {0xdb, 0xc6} then Some(Layout(4, 0, 0))
    else if c == 0xc7 then Some(Layout(1, 1, 0))
    else if c == 0xc8 then Some(Layout(2, 1, 0))
    else if c == 0xc9 then Some(Layout(4, 1, 0))
    else if c == 0xdc then Some(Layout(2, 0, 1))
    else if c == 0xdd then Some(Layout(4, 0, 1))
    else if c == 0xde then Some(Layout(2, 0, 2))
    else if c == 0xdf then Some(Layout(4, 0, 2))
    else None
  }

  function HeadFor(f: Layout, n: nat): Head {
    if f.each == 0 then Head(n + f.extra, 0) else Head(0, n * f.each)
  }

  /** The formats whose header holds a length or a count. */
  function SizedFormat(c: byte, t: Bytes): Parse<Head> {
    var f := LayoutOf(c);
    if f.None? then Fail(WrongFormat)
    else
      var p := ReadFixed(f.value.width, t);
      if p.Fail? then Fail(p.error) else Done(HeadFor(f.value, p.value), p.rest)
  }

  function SkipHead(b: Bytes): (r: Parse<Head>)
    ensures r.Done? ==> |r.rest| < |b|
  {
    if b == [] then Fail(Truncated)
    else if FixedFormat(b[0]).Some? then Done(FixedFormat(b[0]).value, b[1..])
    else SizedFormat(b[0], b[1..])
  }

  function Pow2(n: nat): nat { if n == 0 then 1 else 2 * Pow2(n - 1) }

  /** Consume one value of any type; containers nest at most 32 deep. */
  function Skip(early: bool, depth: nat, b: Bytes): (r: Parse<()>)
    ensures r.Done? ==> |r.rest| < |b|
    decreases |b|, 0, 0
  {
    if depth > MaxSkipDepth then Fail(TooDeep)
    else
      var h := SkipHead(b);
      if h.Fail? then Fail(h.error)
      else if h.value.elems == 0 then
        var p := Take(h.value.bytes, h.rest);
        if p.Fail? then Fail(p.error) else Done((), p.rest)
      else if early && h.value.elems > |h.rest| then Fail(Truncated)
      else SkipMany(early, depth + 1, h.value.elems, h.rest)
  }

  function SkipMany(early: bool, depth: nat, n: nat, b: Bytes): (r: Parse<()>)
    ensures r.Done? ==> |r.rest| + n <= |b|
    decreases |b|, 1, n
  {
    if n == 0 then Done((), b)
    else
      var p := Skip(early, depth, b);
      if p.Fail? then p else SkipMany(early, depth, n - 1, p.rest)
  }

  // More input changes nothing that was already decoded.

  /** A finished parse stays the same when x follows, and x is left over. */
  ghost predicate Extends<T(!new)>(p: Parse<T>, q: Parse<T>, x: Bytes) {
    p.Done? ==> q == Done(p.value, p.rest + x)
  }

  lemma TakeExtends(n: nat, b: Bytes, x: Bytes)
    ensures Extends(Take(n, b), Take(n, b + x), x) && Extends(ReadFixed(n, b), ReadFixed(n, b + x), x)
  {
    if n <= |b| {
      assert (b + x)[..n] == b[..n] && (b + x)[n..] == b[n..] + x;
    }
  }

  lemma TailExtends(b: Bytes, x: Bytes)
    requires b != []
    ensures (b + x)[0] == b[0] && (b + x)[1..] == b[1..] + x
  {
  }

  lemma ReadMapHeaderExtends(early: bool, b: Bytes, x: Bytes)
    ensures Extends(ReadMapHeader(early, b), ReadMapHeader(early, b + x), x)
  {
    if b != [] {
      TailExtends(b, x);
      TakeExtends(if b[0] == 0xde then 2 else 4, b[1..], x);
    }
  }

  lemma RawLenExtends(b: Bytes, x: Bytes)
    ensures Extends(RawLen(b), RawLen(b + x), x)
  {
    if b != [] {
      TailExtends(b, x);
      TakeExtends(RawWidth(b[0]), b[1..], x);
    }
  }

  lemma ReadBytesExtends(limit: nat, b: Bytes, x: Bytes)
    ensures Extends(ReadBytes(limit, b), ReadBytes(limit, b + x), x)
  {
    RawLenExtends(b, x);
    var h := RawLen(b);
    if h.Done? && h.value.Some? {
      TakeExtends(h.value.value, h.rest, x);
    }
  }

  lemma ReadStringExtends(limit: nat, b: Bytes, x: Bytes)
    ensures Extends(ReadString(limit, b), ReadString(limit, b + x), x)
  {
    RawLenExtends(b, x);
    var h := RawLen(b);
    if h.Done? && h.value.Some? {
      TakeExtends(h.value.value, h.rest, x);
    }
  }

  lemma ReadKeyExtends(b: Bytes, x: Bytes)
    ensures Extends(ReadKey(b), ReadKey(b + x), x)
  {
    RawLenExtends(b, x);
    var h := RawLen(b);
    if h.Done? && h.value.Some? {
      TakeExtends(h.value.value, h.rest, x);
    }
  }

  lemma ReadIntegerExtends(b: Bytes, x: Bytes)
    ensures Extends(ReadInteger(b), ReadInteger(b + x), x)
  {
    if b != [] {
      TailExtends(b, x);
      TakeExtends(IntWidth(b[0]), b[1..], x);
    }
  }

  lemma SizedFormatExtends(c: byte, t: Bytes, x: Bytes)
    ensures Extends(SizedFormat(c, t), SizedFormat(c, t + x), x)
  {
    if LayoutOf(c).Some? {
      TakeExtends(LayoutOf(c).value.width, t, x);
    }
  }

  lemma SkipHeadExtends(b: Bytes, x: Bytes)
    ensures Extends(SkipHead(b), SkipHead(b + x), x)
  {
    if b != [] {
      TailExtends(b, x);
      SizedFormatExtends(b[0], b[1..], x);
    }
  }

  lemma {:induction false} SkipExtends(early: bool, depth: nat, b: Bytes, x: Bytes)
    ensures Extends(Skip(early, depth, b), Skip(early, depth, b + x), x)
    decreases |b|, 0, 0
  {
    SkipHeadExtends(b, x);
    var h := SkipHead(b);
    if depth <= MaxSkipDepth && h.Done? {
      if h.value.elems == 0 {
        TakeExtends(h.value.bytes, h.rest, x);
      } else {
        SkipManyExtends(early, depth + 1, h.value.elems, h.rest, x);
      }
    }
  }

  lemma {:induction false} SkipManyExtends(early: bool, depth: nat, n: nat, b: Bytes, x: Bytes)
    ensures Extends(SkipMany(early, depth, n, b), SkipMany(early, depth, n, b + x), x)
    decreases |b|, 1, n
  {
    if n > 0 {
      SkipExtends(early, depth, b, x);
      var p := Skip(early, depth, b);
      if p.Done? {
        SkipManyExtends(early, depth, n - 1, p.rest, x);
      }
    }
  }

  // The two modes agree: an early check refuses only what the elements would refuse.

  /** Both finish alike, or neither finishes. */
  ghost predicate Agrees<T(!new)>(p: Parse<T>, q: Parse<T>) {
    p.Done? == q.Done? && (p.Done? ==> p == q)
  }

  lemma {:induction false} SkipModesAgree(depth: nat, b: Bytes)
    ensures Agrees(Skip(true, depth, b), Skip(false, depth, b))
    decreases |b|, 0, 0
  {
    var h := SkipHead(b);
    if depth <= MaxSkipDepth && h.Done? && h.value.elems > 0 {
      SkipManyModesAgree(depth + 1, h.value.elems, h.rest);
    }
  }

  lemma {:induction false} SkipManyModesAgree(depth: nat, n: nat, b: Bytes)
    ensures Agrees(SkipMany(true, depth, n, b), SkipMany(false, depth, n, b))
    decreases |b|, 1, n
  {
    if n > 0 {
      SkipModesAgree(depth, b);
      var p := Skip(true, depth, b);
      if p.Done? {
        SkipManyModesAgree(depth, n - 1, p.rest);
      }
    }
  }

  // Each encoder is undone, whatever follows.

  lemma FixedReads(head: byte, tail: Bytes, x: Bytes)
    ensures ([head] + tail + x)[0] == head && ([head] + tail + x)[1..] == tail + x
    ensures ReadFixed(|tail|, tail + x) == Done(Big(tail), x)
  {
    assert [head] + tail + x == [head] + (tail + x);
    TakePrefix(tail, x);
  }

  lemma TakePrefix(tail: Bytes, x: Bytes)
    ensures (tail + x)[..|tail|] == tail && (tail + x)[|tail|..] == x
  {
  }

  lemma UintReads(v: u64, x: Bytes)
    ensures ReadInteger(AppendUint(v) + x) == Done(v, x)
  {
    if v <= 0x7f {
      FixedReads(v, [], x);
      assert [v] + [] + x == [v] + x;
    } else if v <= 0xff {
      FixedReads(0xcc, [v], x);
      assert [0xcc] + [v] == [0xcc, v];
      assert Big([v]) == v by { assert [v][..0] == []; }
    } else if v <= 0xffff {
      FixedReads(0xcd, Big16(v), x);
      Big16Reads(v);
    } else if v <= 0xffff_ffff {
      FixedReads(0xce, Big32(v), x);
      Big32Reads(v);
    } else {
      FixedReads(0xcf, Big64(v), x);
      Big64Reads(v);
    }
  }

  lemma Pow256Values()
    ensures Pow256(1) == 0x100 && Pow256(2) == 0x1_0000 && Pow256(4) == 0x1_0000_0000
    ensures Pow256(8) == 0x1_0000_0000_0000_0000
  {
  }

  lemma FixintReads(c: byte, x: Bytes)
    requires c <= 0x7f || c >= 0xe0
    ensures ReadInteger([c] + x) == Done(if c <= 0x7f then c as int else c - 0x100, x)
  {
  }

  lemma Int8Reads(c: byte, x: Bytes)
    ensures ReadInteger([0xd0, c] + x) == Done(if c >= 0x80 then c as int - 0x100 else c, x)
  {
    assert [0xd0] + [c] + x == [0xd0, c] + x;
    FixedReads(0xd0, [c], x);
    assert Big([c]) == c by { assert [c][..0] == []; }
    assert Pow256(1) == 0x100;
  }

  /** A signed format holds the value modulo its span. */
  lemma WideReads(c: byte, w: Bytes, span: nat, v: int, x: Bytes)
    requires (c == 0xd1 && |w| == 2) || (c == 0xd2 && |w| == 4) || (c == 0xd3 && |w| == 8)
    requires span == Pow256(|w|) && -(span / 2) <= v < span / 2 && Big(w) == if v < 0 then span + v else v
    ensures ReadInteger([c] + w + x) == Done(v, x)
  {
    FixedReads(c, w, x);
  }

  lemma IntReads(v: i64, x: Bytes)
    ensures ReadInteger(AppendInt(v) + x) == Done(v, x)
  {
    Pow256Values();
    if -32 <= v <= 0x7f {
      FixintReads(if v < 0 then 0x100 + v else v, x);
    } else if -0x80 <= v < 0 {
      Int8Reads(0x100 + v, x);
    } else if -0x8000 <= v <= 0x7fff {
      var w := if v < 0 then 0x1_0000 + v else v;
      Big16Reads(w);
      WideReads(0xd1, Big16(w), 0x1_0000, v, x);
    } else if -0x8000_0000 <= v <= 0x7fff_ffff {
      var w := if v < 0 then 0x1_0000_0000 + v else v;
      Big32Reads(w);
      WideReads(0xd2, Big32(w), 0x1_0000_0000, v, x);
    } else {
      var w := if v < 0 then 0x1_0000_0000_0000_0000 + v else v;
      Big64Reads(w);
      WideReads(0xd3, Big64(w), 0x1_0000_0000_0000_0000, v, x);
    }
  }

  lemma RawReads(n: nat, x: Bytes)
    requires n < 0x1_0000_0000
    ensures RawLen(RawHeader(n) + x) == Done(Some(n), x)
  {
    if n < 32 {
      assert ([0xa0 + n] + x)[1..] == x;
    } else if n < 0x1_0000 {
      Big16Reads(n);
      SizedRawReads(0xda, Big16(n), x);
    } else {
      Big32Reads(n);
      SizedRawReads(0xdb, Big32(n), x);
    }
  }

  /** A raw header with a size of its own after the format byte. */
  lemma SizedRawReads(c: byte, size: Bytes, x: Bytes)
    requires RawWidth(c) == |size| > 0 && !(0xa0 <= c <= 0xbf) && c != 0xc0
    ensures RawLen([c] + size + x) == Done(Some(Big(size)), x)
  {
    FixedReads(c, size, x);
  }

  lemma StringReads(limit: nat, s: Bytes, x: Bytes)
    requires |s| <= limit && |s| < 0x1_0000_0000
    ensures ReadString(limit, AppendString(s) + x) == Done(s, x)
  {
    assert AppendString(s) + x == RawHeader(|s|) + (s + x);
    RawReads(|s|, s + x);
    assert (s + x)[..|s|] == s && (s + x)[|s|..] == x;
  }

  lemma BytesRead(limit: nat, p: Option<Bytes>, x: Bytes)
    requires p.Some? ==> |p.value| <= limit && |p.value| < 0x1_0000_0000
    ensures ReadBytes(limit, AppendBytes(p) + x) == Done(p, x)
  {
    if p.None? {
      FixedReads(0xc0, [], x);
      assert [0xc0] + [] + x == [0xc0] + x;
    } else {
      var s := p.value;
      assert AppendBytes(p) + x == RawHeader(|s|) + (s + x);
      RawReads(|s|, s + x);
      assert (s + x)[..|s|] == s && (s + x)[|s|..] == x;
    }
  }

  lemma KeyReads(k: Bytes, x: Bytes)
    requires |k| <= MaxKeyLen
    ensures ReadKey(AppendString(k) + x) == Done(Some(k), x)
  {
    assert AppendString(k) + x == RawHeader(|k|) + (k + x);
    RawReads(|k|, k + x);
    assert (k + x)[..|k|] == k && (k + x)[|k|..] == x;
  }

  lemma BoolReads(v: bool, x: Bytes)
    ensures ReadBool(AppendBool(v) + x) == Done(v, x)
  {
  }

  /** The early check never refuses a header whose entries follow. */
  lemma MapHeaderReads(early: bool, n: nat, x: Bytes)
    requires n <= MaxInt32 && 2 * n <= |x|
    ensures ReadMapHeader(early, AppendMapHeader(n) + x) == Done(n, x)
  {
    if n < 16 {
      FixedReads(0x80 + n, [], x);
      assert [0x80 + n] + [] + x == [0x80 + n] + x && [] + x == x;
    } else if n < 0x1_0000 {
      Map16Reads(early, n, x);
    } else {
      assert AppendMapHeader(n) == [0xdf] + Big32(n);
      Map32Reads(early, n, x);
    }
  }

  lemma Map16Reads(early: bool, n: nat, x: Bytes)
    requires n < 0x1_0000 && 2 * n <= |x|
    ensures ReadMapHeader(early, [0xde] + Big16(n) + x) == Done(n, x)
  {
    FixedReads(0xde, Big16(n), x);
    Big16Reads(n);
  }

  lemma Map32Reads(early: bool, n: nat, x: Bytes)
    requires n <= MaxInt32 && 2 * n <= |x|
    ensures ReadMapHeader(early, [0xdf] + Big32(n) + x) == Done(n, x)
  {
    FixedReads(0xdf, Big32(n), x);
    Big32Reads(n);
  }
}