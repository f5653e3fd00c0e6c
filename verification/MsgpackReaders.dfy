/**
 What the typed readers make of a value in any MessagePack format: which formats
 each of them accepts, what it takes them for, and that it refuses all others.
 Newer peers may write the same value in another format, so this is more than
 reading back what this library writes.
 */
module MsgpackReaders {
  import opened Base
  import opened Msgpack
  import opened MsgpackFormats

  const Nil := Scalar(0xc0, [])

  /** The byte a value starts with. */
  function FirstByte(v: Mp): byte
    requires WellFormed(v)
  {
    match v
    case Scalar(c, _) => c
    case FixStr(body) => 0xa0 + |body|
    case Str(w, _) => StrByte(w)
    case Bin(w, _) => BinByte(w)
    case Ext(w, _, _) => ExtByte(w)
    case FixArray(items) => 0x90 + |items|
    case Array(w, _) => if w.W2? then 0xdc else 0xdd
    case FixMap(items) => 0x80 + |items| / 2
    case Map(w, _) => if w.W2? then 0xde else 0xdf
  }

  /** The first byte tells the formats apart. */
  lemma FirstByteTells(v: Mp)
    requires WellFormed(v)
    ensures var c := FirstByte(v);
            && (0xa0 <= c <= 0xbf <==> v.FixStr?) && (RawWidth(c) != 0 <==> v.Str? || v.Bin?)
            && (0x80 <= c <= 0x8f <==> v.FixMap?) && (c == 0xde || c == 0xdf <==> v.Map?)
            && (c == 0xc0 <==> v == Nil) && (IntWidth(c) != 0 <==> v.Scalar? && 0xcc <= v.head <= 0xd3)
            && (c <= 0x7f || c >= 0xe0 <==> v.Scalar? && (v.head <= 0x7f || v.head >= 0xe0))
  {
  }

  lemma StartsWith(v: Mp, x: Bytes)
    requires WellFormed(v)
    ensures Print(v) + x != [] && (Print(v) + x)[0] == FirstByte(v)
  {
  }

  lemma ScalarSplits(v: Mp, x: Bytes)
    requires WellFormed(v) && v.Scalar?
    ensures (Print(v) + x)[0] == v.head && (Print(v) + x)[1..] == v.body + x
    ensures v.body == [] ==> (Print(v) + x)[1..] == x
  {
    FixedReads(v.head, v.body, x);
    assert v.body == [] ==> v.body + x == x;
  }

  // ---------------------------------------------------------------- integers

  /** A big-endian number in two's complement: negative when the top bit is set. */
  function TwosComplement(b: Bytes): int
    requires b != []
  {
    if b[0] >= 0x80 then Big(b) - Pow256(|b|) else Big(b)
  }

  /** The integer a format stands for; None for the formats that are no integers. */
  function Number(v: Mp): Option<int>
    requires WellFormed(v)
  {
    if !v.Scalar? then None
    else if v.head <= 0x7f then Some(v.head)                              // positive fixint
    else if v.head >= 0xe0 then Some(v.head - 0x100)                      // negative fixint
    else if 0xcc <= v.head <= 0xcf then Some(Big(v.body))                 // uint 8 to 64
    else if 0xd0 <= v.head <= 0xd3 then Some(TwosComplement(v.body))      // int 8 to 64
    else None
  }

  lemma {:induction false} BigBelow(b: Bytes)
    ensures Big(b) < Pow256(|b|)
  {
    if b != [] {
      BigBelow(b[..|b| - 1]);
    }
  }

  /** The top bit decides whether a number is in the upper half. */
  lemma TopBit(b: Bytes)
    requires b != []
    ensures Big(b) >= Pow256(|b|) / 2 <==> b[0] >= 0x80
  {
    var rest := b[1..];
    assert b == [b[0]] + rest;
    BigConcat([b[0]], rest);
    BigBelow(rest);
    assert [b[0]][..0] == [] && Big([b[0]]) == b[0];
    HighHalf(b[0], Pow256(|rest|), Big(rest));
  }

  lemma HighHalf(top: byte, p: nat, low: nat)
    requires low < p
    ensures top * p + low >= 0x100 * p / 2 <==> top >= 0x80
  {
    if top >= 0x80 {
      assert top * p >= 0x80 * p;
    } else {
      assert top * p <= 0x7f * p;
    }
  }

  lemma SizedIntegerReads(v: Mp, x: Bytes)
    requires WellFormed(v) && v.Scalar? && 0xcc <= v.head <= 0xd3
    ensures ReadInteger(Print(v) + x) == Done(Number(v).value, x)
  {
    ScalarSplits(v, x);
    FixedReads(v.head, v.body, x);
    TopBit(v.body);
    assert IntWidth(v.head) == |v.body|;
  }

  /** An integer in any format is read as the number it is, nil as 0, and no other format is taken for an integer. */
  lemma IntegerFormats(v: Mp, x: Bytes)
    requires WellFormed(v)
    ensures ReadInteger(Print(v) + x) ==
              if v == Nil then Done(0, x) else if Number(v).Some? then Done(Number(v).value, x) else Fail(WrongFormat)
  {
    StartsWith(v, x);
    if v.Scalar? {
      ScalarSplits(v, x);
      if 0xcc <= v.head <= 0xd3 {
        SizedIntegerReads(v, x);
      }
    }
  }

  /** A field of a bounded unsigned type takes exactly the numbers in its range, in any format. */
  lemma UintFormats(limit: nat, v: Mp, x: Bytes)
    requires WellFormed(v) && Number(v).Some?
    ensures ReadUint(limit, Print(v) + x) ==
              if 0 <= Number(v).value <= limit then Done(Number(v).value, x) else Fail(OutOfRange)
  {
    IntegerFormats(v, x);
  }

  // ---------------------------------------------------------------- strings and byte slices

  predicate IsRaw(v: Mp) { v.FixStr? || v.Str? || v.Bin? }

  lemma SizedRawLen(c: byte, w: Width, body: Bytes, x: Bytes)
    requires Fits(w, |body|) && RawWidth(c) == Octets(w) && !(0xa0 <= c <= 0xbf) && c != 0xc0
    ensures RawLen([c] + Size(w, |body|) + body + x) == Done(Some(|body|), body + x)
  {
    SizeReads(w, |body|, body + x);
    FixedReads(c, Size(w, |body|), body + x);
    Reassociate([c] + Size(w, |body|), body, x);
  }

  lemma RawLenReads(v: Mp, x: Bytes)
    requires WellFormed(v) && IsRaw(v)
    ensures RawLen(Print(v) + x) == Done(Some(|v.body|), v.body + x)
  {
    if v.FixStr? {
      FixStrLen(v.body, x);
    } else {
      var c := if v.Str? then StrByte(v.w) else BinByte(v.w);
      assert Print(v) == [c] + Size(v.w, |v.body|) + v.body;
      SizedRawLen(c, v.w, v.body, x);
    }
  }

  lemma FixStrLen(body: Bytes, x: Bytes)
    requires |body| < 32
    ensures RawLen([0xa0 + |body|] + body + x) == Done(Some(|body|), body + x)
  {
    FixedReads(0xa0 + |body|, body, x);
  }

  lemma RawLenOther(b: Bytes)
    requires b != [] && !(0xa0 <= b[0] <= 0xbf) && RawWidth(b[0]) == 0
    ensures RawLen(b) == if b[0] == 0xc0 then Done(None, b[1..]) else Fail(WrongFormat)
  {
  }

  lemma RawLenRefuses(v: Mp, x: Bytes)
    requires WellFormed(v) && !IsRaw(v)
    ensures RawLen(Print(v) + x) == if v == Nil then Done(None, x) else Fail(WrongFormat)
  {
    StartsWith(v, x);
    FirstByteTells(v);
    RawLenOther(Print(v) + x);
    if v == Nil {
      ScalarSplits(v, x);
    }
  }

  lemma RawFormat(v: Mp, x: Bytes)
    requires WellFormed(v)
    ensures RawLen(Print(v) + x) == if IsRaw(v) then Done(Some(|v.body|), v.body + x)
                                    else if v == Nil then Done(None, x) else Fail(WrongFormat)
  {
    if IsRaw(v) {
      RawLenReads(v, x);
    } else {
      RawLenRefuses(v, x);
    }
  }

  /** A string or binary value of any format is read whole if it is within the limit; nil is absent; nothing else is. */
  lemma BytesFormats(limit: nat, v: Mp, x: Bytes)
    requires WellFormed(v)
    ensures ReadBytes(limit, Print(v) + x) ==
              if IsRaw(v) then (if |v.body| <= limit then Done(Some(v.body), x) else Fail(OverLimit))
              else if v == Nil then Done(None, x) else Fail(WrongFormat)
  {
    RawFormat(v, x);
    if IsRaw(v) {
      TakePrefix(v.body, x);
    }
  }

  /** The same for strings, except that nil is the empty one. */
  lemma StringFormats(limit: nat, v: Mp, x: Bytes)
    requires WellFormed(v)
    ensures ReadString(limit, Print(v) + x) ==
              if IsRaw(v) then (if |v.body| <= limit then Done(v.body, x) else Fail(OverLimit))
              else if v == Nil then Done([], x) else Fail(WrongFormat)
  {
    RawFormat(v, x);
    if IsRaw(v) {
      TakePrefix(v.body, x);
      assert v.body == [] ==> v.body + x == x;
    }
  }

  /** A key of any length is consumed whole, and names a field only up to 64 bytes. */
  lemma KeyFormats(v: Mp, x: Bytes)
    requires WellFormed(v)
    ensures ReadKey(Print(v) + x) ==
              if IsRaw(v) then Done(if |v.body| <= 64 then Some(v.body) else None, x)
              else if v == Nil then Done(None, x) else Fail(WrongFormat)
  {
    RawFormat(v, x);
    if IsRaw(v) {
      TakePrefix(v.body, x);
    }
  }

  // ---------------------------------------------------------------- booleans and maps

  /** True and 1, false, 0 and nil. */
  lemma BoolFormats(v: Mp, x: Bytes)
    requires WellFormed(v)
    ensures ReadBool(Print(v) + x) ==
              if v == Scalar(0xc3, []) || v == Scalar(1, []) then Done(true, x)
              else if v == Scalar(0xc2, []) || v == Scalar(0, []) || v == Nil then Done(false, x)
              else Fail(WrongFormat)
  {
    StartsWith(v, x);
    if v.Scalar? {
      ScalarSplits(v, x);
    }
  }

  lemma CountReads(early: bool, w: Width, n: nat, rest: Bytes)
    requires !w.W1? && Fits(w, n) && 2 * n <= |rest|
    ensures var c: byte := if w.W2? then 0xde else 0xdf;
            ReadMapHeader(early, [c] + Size(w, n) + rest) == if n <= MaxInt32 then Done(n, rest) else Fail(OverLimit)
  {
    var c: byte := if w.W2? then 0xde else 0xdf;
    SizeReads(w, n, rest);
    FixedReads(c, Size(w, n), rest);
  }

  lemma CountedMapReads(early: bool, v: Mp, x: Bytes)
    requires WellFormed(v) && v.Map?
    ensures var n := |v.items| / 2;
            ReadMapHeader(early, Print(v) + x) ==
              if n <= MaxInt32 then Done(n, PrintAll(v.items) + x) else Fail(OverLimit)
  {
    var n, all, c: byte := |v.items| / 2, PrintAll(v.items), if v.w.W2? then 0xde else 0xdf;
    EachTakesAByte(v.items);
    CountReads(early, v.w, n, all + x);
    assert Print(v) == [c] + Size(v.w, n) + all;
    Reassociate([c] + Size(v.w, n), all, x);
  }

  lemma MapHeaderOther(early: bool, b: Bytes)
    requires b != [] && !(0x80 <= b[0] <= 0x8f) && b[0] != 0xde && b[0] != 0xdf
    ensures ReadMapHeader(early, b) == if b[0] == 0xc0 then Done(0, b[1..]) else Fail(WrongFormat)
  {
  }

  lemma FixMapReads(early: bool, v: Mp, x: Bytes)
    requires WellFormed(v) && v.FixMap?
    ensures ReadMapHeader(early, Print(v) + x) == Done(|v.items| / 2, PrintAll(v.items) + x)
  {
    var c, all: Bytes := 0x80 + |v.items| / 2, PrintAll(v.items);
    assert Print(v) == [c] + all;
    FixedReads(c, all, x);
  }

  /** A map of any format gives its number of pairs, up to the limit and in both modes; nil is the empty map. */
  lemma MapFormats(early: bool, v: Mp, x: Bytes)
    requires WellFormed(v)
    ensures ReadMapHeader(early, Print(v) + x) ==
              if v.Map? || v.FixMap? then
                (if |v.items| / 2 <= MaxInt32 then Done(|v.items| / 2, PrintAll(v.items) + x) else Fail(OverLimit))
              else if v == Nil then Done(0, x) else Fail(WrongFormat)
  {
    if v.Map? {
      CountedMapReads(early, v, x);
    } else if v.FixMap? {
      FixMapReads(early, v, x);
    } else {
      StartsWith(v, x);
      FirstByteTells(v);
      MapHeaderOther(early, Print(v) + x);
      if v == Nil {
        ScalarSplits(v, x);
      }
    }
  }
}
