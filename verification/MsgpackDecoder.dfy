/**
 * The Decoder of internal/msgpack in place: an offset that advances over a slice, or over what a stream delivers.
 * Each method is proved to read what the functions of Msgpack say and to stop where they say.
 */
module MsgpackDecoder {
  import opened Base
  import M = Msgpack
  import W = Wire

  const StreamChunk := 0x1_0000

  datatype Got<+T> = Ok(value: T) | Err(error: M.Error)

  /** r is the outcome of p, and on success the decoder stands at p's rest. */
  ghost predicate Reads<T(!new)>(r: Got<T>, rest: Bytes, p: M.Parse<T>) {
    match p
    case Done(v, left) => r == Ok(v) && rest == left
    case Fail(e) => r == Err(e)
  }

  function Min(a: int, b: int): int { if a < b then a else b }

  function Max(a: int, b: int): int { if a < b then b else a }

  /** What rounding up to a size class and the constant part of the growth formula may add to a grown slice. */
  const GrowSlack := 8192 + 192

  /**
   * The capacities slices.Grow may leave, for a slice already of a chunk or more: what was asked, up to a quarter more
   * from growing in steps, and the rounding.
   */
  predicate Grown(want: nat, capacity: nat) { want <= capacity <= want + want / 4 + GrowSlack }

  method Grow(want: nat) returns (capacity: nat)
    ensures Grown(want, capacity)
  {
    assert Grown(want, want);
    capacity :| Grown(want, capacity);
  }

  /** The bounds on a stream buffer's capacity once r bytes have arrived. */
  predicate Bounded(capacity: nat, overshoot: nat, r: nat) {
    capacity <= 2 * r + StreamChunk + overshoot && 2 * capacity <= 5 * r + 2 * StreamChunk
  }

  /** Growing a full buffer of at least a chunk. */
  lemma GrowthIsBounded(r: nat, n: nat, capacity: nat)
    requires StreamChunk <= r < n && Grown(r + Min(n - r, Max(r, StreamChunk)), capacity)
    ensures r < capacity && Bounded(capacity, capacity - (r + Min(n - r, Max(r, StreamChunk))), r)
  {
  }

  /** The capacity the growth loop asks for when r bytes fill the buffer. */
  function Wanted(n: nat, r: nat): nat
    requires r < n
  {
    r + Min(n - r, Max(r, StreamChunk))
  }

  /** The capacities a stream read of n bytes goes through: each is full before the next is asked for. */
  ghost predicate Growths(n: nat, caps: seq<nat>) {
    caps != [] && caps[0] == Min(n, StreamChunk) && forall i :: 0 < i < |caps| ==> GrowsAt(n, caps, i)
  }

  predicate GrowsAt(n: nat, caps: seq<nat>, i: nat)
    requires 0 < i < |caps|
  {
    caps[i - 1] < n && Grown(Wanted(n, caps[i - 1]), caps[i])
  }

  /** Each capacity is within twice what had arrived when it was asked for, plus one chunk. */
  ghost predicate KeepsTwice(caps: seq<nat>) { forall i :: 0 < i < |caps| ==> TwiceAt(caps, i) }

  predicate TwiceAt(caps: seq<nat>, i: nat)
    requires 0 < i < |caps|
  {
    caps[i] <= 2 * caps[i - 1] + StreamChunk
  }

  /** The lengths for which even the worst growth stays within five chunks. */
  predicate Modest(n: nat) { n + n / 4 + GrowSlack <= 5 * StreamChunk }

  lemma GrowthsNext(n: nat, caps: seq<nat>, capacity: nat) returns (more: seq<nat>)
    requires Growths(n, caps) && caps[|caps| - 1] < n && Grown(Wanted(n, caps[|caps| - 1]), capacity)
    ensures more == caps + [capacity] && Growths(n, more)
  {
    more := caps + [capacity];
    forall i | 0 < i < |more| ensures GrowsAt(n, more, i) {
      assert i < |caps| ==> GrowsAt(n, caps, i);
    }
  }

  lemma {:induction false} SecondGrowthHasTwoChunks(n: nat, caps: seq<nat>, i: nat)
    requires Growths(n, caps) && 0 < i < |caps| && caps[i] < n
    ensures caps[i] >= 2 * StreamChunk
  {
    assert GrowsAt(n, caps, i);
    if i > 1 {
      SecondGrowthHasTwoChunks(n, caps, i - 1);
    }
  }

  lemma ModestKeepsTwice(n: nat, caps: seq<nat>)
    requires Growths(n, caps) && Modest(n)
    ensures KeepsTwice(caps)
  {
    forall i | 0 < i < |caps| ensures TwiceAt(caps, i) {
      assert GrowsAt(n, caps, i);
      if i > 1 {
        SecondGrowthHasTwoChunks(n, caps, i - 1);
      }
    }
  }

  /** slices.Grow on a full buffer. */
  method GrowFull(n: nat, full: nat, ghost caps: seq<nat>) returns (capacity: nat, overshoot: nat, ghost more: seq<nat>)
    requires StreamChunk <= full < n && Growths(n, caps) && caps[|caps| - 1] == full
    ensures full < capacity && Bounded(capacity, overshoot, full)
    ensures Growths(n, more) && |more| > 1 && more[|more| - 1] == capacity && more[|more| - 2] == full
  {
    var want := full + Min(n - full, Max(full, StreamChunk));
    capacity := Grow(want);
    overshoot := capacity - want;
    more := GrowthsNext(n, caps, capacity);
    GrowthIsBounded(full, n, capacity);
  }

  /** For any longer read there are growths that exceed the bound: the second one, after an exact first. */
  function Excess(n: nat): seq<nat>
    requires n > 2 * StreamChunk
  {
    var w := Wanted(n, 2 * StreamChunk);
    [StreamChunk, 2 * StreamChunk, w + w / 4 + GrowSlack]
  }

  /**
   * The documented bound, twice what has arrived plus one chunk, is kept throughout a stream read of n bytes, whatever
   * slices.Grow leaves, exactly when n with its quarter and the rounding is within five chunks.
   */
  lemma TwiceIsKeptIff(n: nat)
    ensures (forall caps :: Growths(n, caps) ==> KeepsTwice(caps)) <==> Modest(n)
  {
    if Modest(n) {
      forall caps | Growths(n, caps) ensures KeepsTwice(caps) {
        ModestKeepsTwice(n, caps);
      }
    } else {
      var caps := Excess(n);
      assert GrowsAt(n, caps, 1) && GrowsAt(n, caps, 2) && !TwiceAt(caps, 2);
      assert Growths(n, caps);
    }
  }

  class Decoder {
    const early: bool
    const buf: Bytes
    var off: nat

    constructor (early: bool, buf: Bytes)
      ensures Valid() && this.early == early && Rest() == buf
    {
      this.early, this.buf, this.off := early, buf, 0;
    }

    ghost predicate Valid()
      reads this
    {
      off <= |buf|
    }

    ghost function Rest(): Bytes
      requires Valid()
      reads this
    {
      buf[off..]
    }

    /** The unread input in slice mode; -1 in stream mode. */
    method Remaining() returns (r: int)
      requires Valid()
      ensures r == if early then |Rest()| else -1
    {
      return if early then |buf| - off else -1;
    }

    method ReadByte() returns (r: Got<byte>)
      requires Valid()
      modifies this
      ensures Valid() && off >= old(off) && Reads(r, Rest(), M.ReadByte(old(Rest())))
    {
      if off >= |buf| {
        return Err(M.Truncated);
      }
      r := Ok(buf[off]);
      off := off + 1;
    }

    /** Read n bytes as a big-endian integer. */
    method ReadFixed(n: nat) returns (r: Got<nat>)
      requires Valid()
      modifies this
      ensures Valid() && off >= old(off) && Reads(r, Rest(), M.ReadFixed(n, old(Rest())))
    {
      if |buf| - off < n {
        return Err(M.Truncated);
      }
      var p := buf[off..off + n];
      off := off + n;
      var v: nat := 0;
      for i := 0 to n
        invariant v == M.Big(p[..i])
      {
        assert p[..i + 1][..i] == p[..i];
        v := v * 0x100 + p[i];
      }
      assert p[..n] == p == old(Rest())[..n];
      r := Ok(v);
    }

    /**
     * Fill a new n-byte slice. In stream mode the buffer grows with what has arrived, whatever n claims: its capacity
     * is at most twice the bytes received plus one chunk for modest n, and for any n at most that plus what the last
     * growth overshot, and at most two and a half times the bytes received plus one chunk.
     */
    method ReadInto(n: nat) returns (r: Got<Bytes>, capacity: nat, overshoot: nat)
      requires Valid()
      modifies this
      ensures Valid() && Reads(r, Rest(), M.Take(n, old(Rest())))
      ensures early && r.Ok? ==> capacity == n
      ensures early && r.Err? ==> capacity == 0
      ensures Modest(n) ==> capacity <= 2 * Min(n, |old(Rest())|) + StreamChunk
      ensures capacity <= 2 * Min(n, |old(Rest())|) + StreamChunk + overshoot
      ensures 2 * capacity <= 5 * Min(n, |old(Rest())|) + 2 * StreamChunk
    {
      if early {
        if |buf| - off < n {
          return Err(M.Truncated), 0, 0;
        }
        var out := buf[off..off + n];
        off := off + n;
        assert out == old(Rest())[..n] && Rest() == old(Rest())[n..];
        return Ok(out), n, 0;
      }
      ghost var caps;
      r, capacity, overshoot, caps := ReadStream(n);
      if Modest(n) {
        ModestKeepsTwice(n, caps);
        assert |caps| > 1 ==> TwiceAt(caps, |caps| - 1);
      }
    }

    /** The growth loop of readInto, and the capacities it goes through. */
    method ReadStream(n: nat) returns (r: Got<Bytes>, capacity: nat, overshoot: nat, ghost caps: seq<nat>)
      requires Valid()
      modifies this
      ensures Valid() && Reads(r, Rest(), M.Take(n, old(Rest())))
      ensures Bounded(capacity, overshoot, Min(n, |old(Rest())|))
      ensures Growths(n, caps) && capacity == caps[|caps| - 1]
      ensures |caps| > 1 ==> caps[|caps| - 2] <= Min(n, |old(Rest())|)
    {
      var out: Bytes := [];
      capacity, overshoot := Min(n, StreamChunk), 0;
      caps := [capacity];
      while |out| < n
        invariant |out| <= Min(capacity, n) && Valid() && off == old(off) + |out|
        invariant out == old(Rest())[..|out|]
        invariant Bounded(capacity, overshoot, |out|) && capacity >= Min(n, StreamChunk)
        invariant Growths(n, caps) && capacity == caps[|caps| - 1]
        invariant |caps| > 1 ==> caps[|caps| - 2] <= |out|
        decreases n - |out|
      {
        if |out| == capacity {
          capacity, overshoot, caps := GrowFull(n, capacity, caps);
        }
        var chunk := Min(capacity, n) - |out|;
        if |buf| - off < chunk {
          off := |buf|;
          return Err(M.Truncated), capacity, overshoot, caps;
        }
        out := out + buf[off..off + chunk];
        off := off + chunk;
      }
      assert out == old(Rest())[..n] && Rest() == old(Rest())[n..];
      r := Ok(out);
    }

    method Discard(n: nat) returns (r: Got<()>)
      requires Valid()
      modifies this
      ensures Valid() && off >= old(off)
      ensures var p := M.Take(n, old(Rest())); if p.Fail? then r == Err(p.error) else r == Ok(()) && Rest() == p.rest
    {
      if |buf| - off < n {
        off := if early then off else |buf|;
        return Err(M.Truncated);
      }
      off := off + n;
      r := Ok(());
    }

    method ReadMapHeader() returns (r: Got<nat>)
      requires Valid()
      modifies this
      ensures Valid() && Reads(r, Rest(), M.ReadMapHeader(early, old(Rest())))
    {
      var c := ReadByte();
      if c.Err? {
        return Err(c.error);
      }
      if 0x80 <= c.value <= 0x8f {
        return Ok(c.value - 0x80);
      } else if c.value == 0xc0 {
        return Ok(0);
      } else if c.value != 0xde && c.value != 0xdf {
        return Err(M.WrongFormat);
      }
      var n := ReadFixed(if c.value == 0xde then 2 else 4);
      if n.Err? {
        return n;
      }
      if n.value > M.MaxInt32 {
        return Err(M.OverLimit);
      }
      var left := Remaining();
      if left >= 0 && n.value > left / 2 {
        return Err(M.Truncated);
      }
      return n;
    }

    method RawLen() returns (r: Got<Option<nat>>)
      requires Valid()
      modifies this
      ensures Valid() && Reads(r, Rest(), M.RawLen(old(Rest())))
    {
      var c := ReadByte();
      if c.Err? {
        return Err(c.error);
      }
      if 0xa0 <= c.value <= 0xbf {
        return Ok(Some(c.value - 0xa0));
      } else if c.value == 0xc0 {
        return Ok(None);
      } else if M.RawWidth(c.value) == 0 {
        return Err(M.WrongFormat);
      }
      var n := ReadFixed(M.RawWidth(c.value));
      if n.Err? {
        return Err(n.error);
      }
      return Ok(Some(n.value));
    }

    method ReadBytes(limit: nat) returns (r: Got<Option<Bytes>>)
      requires Valid()
      modifies this
      ensures Valid() && Reads(r, Rest(), M.ReadBytes(limit, old(Rest())))
    {
      var n := RawLen();
      if n.Err? {
        return Err(n.error);
      }
      if n.value.None? {
        return Ok(None);
      }
      if n.value.value > limit {
        return Err(M.OverLimit);
      }
      if n.value.value == 0 {
        return Ok(Some([]));
      }
      var p, _, _ := ReadInto(n.value.value);
      if p.Err? {
        return Err(p.error);
      }
      return Ok(Some(p.value));
    }

    method ReadString(limit: nat) returns (r: Got<Bytes>)
      requires Valid()
      modifies this
      ensures Valid() && Reads(r, Rest(), M.ReadString(limit, old(Rest())))
    {
      var n := RawLen();
      if n.Err? {
        return Err(n.error);
      }
      if n.value.None? || n.value.value == 0 {
        return Ok([]);
      }
      if n.value.value > limit {
        return Err(M.OverLimit);
      }
      var p, _, _ := ReadInto(n.value.value);
      return p;
    }

    method ReadKey() returns (r: Got<Option<Bytes>>)
      requires Valid()
      modifies this
      ensures Valid() && Reads(r, Rest(), M.ReadKey(old(Rest())))
    {
      var n := RawLen();
      if n.Err? {
        return Err(n.error);
      }
      if n.value.None? {
        return Ok(None);
      }
      if n.value.value > M.MaxKeyLen {
        var d := Discard(n.value.value);
        return if d.Err? then Err(d.error) else Ok(None);
      }
      var p, _, _ := ReadInto(n.value.value);
      return if p.Err? then Err(p.error) else Ok(Some(p.value));
    }

    method ReadInteger() returns (r: Got<int>)
      requires Valid()
      modifies this
      ensures Valid() && Reads(r, Rest(), M.ReadInteger(old(Rest())))
    {
      var c := ReadByte();
      if c.Err? {
        return Err(c.error);
      }
      if c.value <= 0x7f {
        return Ok(c.value);
      } else if c.value >= 0xe0 {
        return Ok(c.value as int - 0x100);
      } else if c.value == 0xc0 {
        return Ok(0);
      } else if M.IntWidth(c.value) == 0 {
        return Err(M.WrongFormat);
      }
      var v := ReadFixed(M.IntWidth(c.value));
      if v.Err? {
        return Err(v.error);
      }
      return Ok(if c.value >= 0xd0 then M.Signed(v.value, M.Pow256(M.IntWidth(c.value))) else v.value);
    }

    method ReadUint(limit: nat) returns (r: Got<nat>)
      requires Valid()
      modifies this
      ensures Valid() && Reads(r, Rest(), M.ReadUint(limit, old(Rest())))
    {
      var v := ReadInteger();
      if v.Err? {
        return Err(v.error);
      }
      if v.value < 0 || v.value > limit {
        return Err(M.OutOfRange);
      }
      return Ok(v.value);
    }

    method ReadInt(lo: int, hi: int) returns (r: Got<int>)
      requires Valid()
      modifies this
      ensures Valid() && Reads(r, Rest(), M.ReadInt(lo, hi, old(Rest())))
    {
      var v := ReadInteger();
      if v.Ok? && (v.value > M.MaxInt64 || v.value < lo || v.value > hi) {
        return Err(M.OutOfRange);
      }
      return v;
    }

    method ReadBool() returns (r: Got<bool>)
      requires Valid()
      modifies this
      ensures Valid() && Reads(r, Rest(), M.ReadBool(old(Rest())))
    {
      var c := ReadByte();
      if c.Err? {
        return Err(c.error);
      }
      if c.value in {0xc3, 1} {
        return Ok(true);
      } else if c.value in {0xc2, 0, 0xc0} {
        return Ok(false);
      }
      return Err(M.WrongFormat);
    }

    /** The header of a value being skipped. */
    method SkipHead() returns (r: Got<M.Head>)
      requires Valid()
      modifies this
      ensures Valid() && off >= old(off) && Reads(r, Rest(), M.SkipHead(old(Rest())))
    {
      var c := ReadByte();
      if c.Err? {
        return Err(c.error);
      }
      var fixed := M.FixedFormat(c.value);
      if fixed.Some? {
        return Ok(fixed.value);
      }
      r := SkipSized(c.value);
    }

    method SkipSized(c: byte) returns (r: Got<M.Head>)
      requires Valid()
      modifies this
      ensures Valid() && off >= old(off) && Reads(r, Rest(), M.SizedFormat(c, old(Rest())))
    {
      var f := M.LayoutOf(c);
      if f.None? {
        return Err(M.WrongFormat);
      }
      var n := ReadFixed(f.value.width);
      if n.Err? {
        return Err(n.error);
      }
      return Ok(M.HeadFor(f.value, n.value));
    }

    /** Consume one value of any type. */
    method Skip(depth: nat) returns (r: Got<()>)
      requires Valid()
      modifies this
      ensures Valid() && off >= old(off) && Reads(r, Rest(), M.Skip(early, depth, old(Rest())))
      decreases |buf| - off, 0
    {
      if depth > M.MaxSkipDepth {
        return Err(M.TooDeep);
      }
      var h := SkipHead();
      if h.Err? {
        return Err(h.error);
      }
      if h.value.elems == 0 {
        r := Discard(h.value.bytes);
        return;
      }
      var left := Remaining();
      if left >= 0 && h.value.elems > left {
        return Err(M.Truncated);
      }
      r := SkipElements(depth + 1, h.value.elems);
    }

    /** Skipping n more values from b is what goal says. */
    ghost predicate Skips(depth: nat, n: nat, b: Bytes, goal: M.Parse<()>) {
      goal == M.SkipMany(early, depth, n, b)
    }

    /** One iteration of the loop of skip. */
    method SkipNext(depth: nat, ghost left: nat, ghost goal: M.Parse<()>) returns (failure: Option<M.Error>)
      requires Valid() && left > 0 && Skips(depth, left, Rest(), goal)
      modifies this
      ensures Valid() && off >= old(off)
      ensures if failure.Some? then goal == M.Fail(failure.value) else Skips(depth, left - 1, Rest(), goal)
      decreases |buf| - off, 1
    {
      var r := Skip(depth);
      return if r.Err? then Some(r.error) else None;
    }

    /** The loop of skip. */
    method SkipElements(depth: nat, n: nat) returns (r: Got<()>)
      requires Valid()
      modifies this
      ensures Valid() && off >= old(off) && Reads(r, Rest(), M.SkipMany(early, depth, n, old(Rest())))
      decreases |buf| - off, 2
    {
      ghost var goal := M.SkipMany(early, depth, n, Rest());
      for i := 0 to n
        invariant Valid() && off >= old(off) && Skips(depth, n - i, Rest(), goal)
      {
        var failure := SkipNext(depth, n - i, goal);
        if failure.Some? {
          return Err(failure.value);
        }
      }
      NoneLeft(depth, Rest(), goal);
      r := Ok(());
    }

    lemma NoneLeft(depth: nat, b: Bytes, goal: M.Parse<()>)
      requires Skips(depth, 0, b, goal)
      ensures goal == M.Done((), b)
    {
    }
  }

  /** The field decoders. */
  method ReadValue(d: Decoder, k: W.Kind) returns (r: Got<W.Value>)
    requires d.Valid() && (k.AsUint? ==> k.limit <= M.MaxUint64)
    modifies d
    ensures d.Valid() && Reads(r, d.Rest(), W.ReadValue(k, old(d.Rest())))
  {
    match k
    case AsUint(limit) =>
      var v := d.ReadUint(limit);
      r := if v.Err? then Err(v.error) else Ok(W.UintV(v.value));
    case AsInt =>
      var v := d.ReadInt(-0x8000_0000_0000_0000, M.MaxInt64);
      r := if v.Err? then Err(v.error) else Ok(W.IntV(v.value));
    case AsString =>
      var v := d.ReadString(W.MaxFieldBytes);
      r := if v.Err? then Err(v.error) else Ok(W.StringV(v.value));
    case AsBytes(limit) =>
      var v := d.ReadBytes(limit);
      r := if v.Err? then Err(v.error) else Ok(W.BytesV(v.value));
    case AsBool =>
      var v := d.ReadBool();
      r := if v.Err? then Err(v.error) else Ok(W.BoolV(v.value));
  }

  /** The value of one map entry: into the field, or skipped when the key names none. */
  method DecodeField(d: Decoder, m: W.Message, f: Option<W.FieldName>) returns (r: Got<W.Message>)
    requires d.Valid() && (f.Some? ==> W.KindOf(m, f.value).Some?)
    modifies d
    ensures d.Valid() && Reads(r, d.Rest(), W.DecodeField(d.early, m, f, old(d.Rest())))
  {
    if f.None? {
      var skipped := d.Skip(0);
      return if skipped.Err? then Err(skipped.error) else Ok(m);
    }
    var v := ReadValue(d, W.KindOf(m, f.value).value);
    if v.Err? {
      return Err(v.error);
    }
    return Ok(W.Assign(m, f.value, v.value));
  }

  method DecodeEntry(d: Decoder, m: W.Message) returns (r: Got<W.Message>)
    requires d.Valid()
    modifies d
    ensures d.Valid() && Reads(r, d.Rest(), W.DecodeEntry(d.early, m, old(d.Rest())))
  {
    var k := d.ReadKey();
    if k.Err? {
      return Err(k.error);
    }
    r := DecodeField(d, m, W.FieldOf(m, k.value));
  }

  /** DecodeMsgpack: reset the message, then decodeMap. */
  method DecodeMessage(d: Decoder, m: W.Message) returns (r: Got<W.Message>)
    requires d.Valid()
    modifies d
    ensures d.Valid() && Reads(r, d.Rest(), W.Decode(d.early, m, old(d.Rest())))
  {
    var n := d.ReadMapHeader();
    if n.Err? {
      return Err(n.error);
    }
    r := DecodeEntries(d, n.value, W.Zero(m));
  }

  /** Decoding n more entries into m from b is what goal says. */
  ghost predicate Leads(early: bool, n: nat, m: W.Message, b: Bytes, goal: M.Parse<W.Message>) {
    goal == W.DecodeEntries(early, n, m, b)
  }

  /** One iteration of decodeMap. */
  method DecodeNext(d: Decoder, m: W.Message, left: nat, ghost goal: M.Parse<W.Message>)
    returns (next: W.Message, less: nat, failure: Option<M.Error>)
    requires d.Valid() && left > 0 && Leads(d.early, left, m, d.Rest(), goal)
    modifies d
    ensures d.Valid() && less == left - 1
    ensures if failure.Some? then goal == M.Fail(failure.value) else Leads(d.early, less, next, d.Rest(), goal)
  {
    var r := DecodeEntry(d, m);
    if r.Err? {
      return m, left - 1, Some(r.error);
    }
    return r.value, left - 1, None;
  }

  /** The loop of decodeMap. */
  method DecodeEntries(d: Decoder, n: nat, m: W.Message) returns (r: Got<W.Message>)
    requires d.Valid()
    modifies d
    ensures d.Valid() && Reads(r, d.Rest(), W.DecodeEntries(d.early, n, m, old(d.Rest())))
  {
    ghost var goal := W.DecodeEntries(d.early, n, m, d.Rest());
    r := DecodeLoop(d, n, m, goal);
  }

  method DecodeLoop(d: Decoder, n: nat, m: W.Message, ghost goal: M.Parse<W.Message>) returns (r: Got<W.Message>)
    requires d.Valid() && Leads(d.early, n, m, d.Rest(), goal)
    modifies d
    ensures d.Valid() && Reads(r, d.Rest(), goal)
  {
    var cur, left := m, n;
    while left > 0
      invariant d.Valid() && Leads(d.early, left, cur, d.Rest(), goal)
    {
      var failure;
      cur, left, failure := DecodeNext(d, cur, left, goal);
      if failure.Some? {
        return Err(failure.value);
      }
    }
    r := Ok(cur);
  }
}
