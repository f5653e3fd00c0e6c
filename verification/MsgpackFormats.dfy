/**
 Values in every format of the MessagePack specification, printed as it says,
 and what skipping does with them: it consumes exactly one value, whatever its
 format, as long as containers nest at most 32 deep. The protocol's own
 messages are such values, and fields nobody knows are passed over.
 */
module MsgpackFormats {
  import opened Base
  import opened Msgpack
  import opened Wire

  /** How many bytes a length or count takes. */
  datatype Width = W1 | W2 | W4

  predicate Fits(w: Width, n: nat) {
    match w
    case W1 => n < 0x100
    case W2 => n < 0x1_0000
    case W4 => n < 0x1_0000_0000
  }

  function Octets(w: Width): nat { match w case W1 => 1 case W2 => 2 case W4 => 4 }

  function Size(w: Width, n: nat): Bytes
    requires Fits(w, n)
  {
    match w
    case W1 => [n]
    case W2 => Big16(n)
    case W4 => Big32(n)
  }

  datatype Mp =
    | Scalar(head: byte, body: Bytes)             // integers, nil, booleans, floats, fixext
    | FixStr(body: Bytes)
    | Str(w: Width, body: Bytes)
    | Bin(w: Width, body: Bytes)
    | Ext(w: Width, kind: byte, body: Bytes)
    | FixArray(items: seq<Mp>)
    | Array(w: Width, items: seq<Mp>)
    | FixMap(items: seq<Mp>)                      // keys and values in turn
    | Map(w: Width, items: seq<Mp>)

  /** The payload of a scalar format; None for other bytes. */
  function ScalarSize(c: byte): Option<nat> {
    if c <= 0x7f || c >= 0xe0 then Some(0)                        // fixint
    else if c == 0xc0 || c == 0xc2 || c == 0xc3 then Some(0)      // nil, false, true
    else if c == 0xca then Some(4)                                // float 32
    else if c == 0xcb then Some(8)                                // float 64
    else if c == 0xcc || c == 0xd0 then Some(1)                   // uint 8, int 8
    else if c == 0xcd || c == 0xd1 then Some(2)                   // uint 16, int 16
    else if c == 0xce || c == 0xd2 then Some(4)                   // uint 32, int 32
    else if c == 0xcf || c == 0xd3 then Some(8)                   // uint 64, int 64
    else if c == 0xd4 then Some(2)                                // fixext 1: a type byte and the data
    else if c == 0xd5 then Some(3)
    else if c == 0xd6 then Some(5)
    else if c == 0xd7 then Some(9)
    else if c == 0xd8 then Some(17)
    else None
  }

  function StrByte(w: Width): byte { match w case W1 => 0xd9 case W2 => 0xda case W4 => 0xdb }

  function BinByte(w: Width): byte { match w case W1 => 0xc4 case W2 => 0xc5 case W4 => 0xc6 }

  function ExtByte(w: Width): byte { match w case W1 => 0xc7 case W2 => 0xc8 case W4 => 0xc9 }

  predicate WellFormed(v: Mp)
    decreases v, 1
  {
    match v
    case Scalar(c, body) => ScalarSize(c) == Some(|body|)
    case FixStr(body) => |body| < 32
    case Str(w, body) => Fits(w, |body|)
    case Bin(w, body) => Fits(w, |body|)
    case Ext(w, _, body) => Fits(w, |body|)
    case FixArray(items) => |items| < 16 && AllWellFormed(items)
    case Array(w, items) => !w.W1? && Fits(w, |items|) && AllWellFormed(items)
    case FixMap(items) => |items| % 2 == 0 && |items| / 2 < 16 && AllWellFormed(items)
    case Map(w, items) => !w.W1? && |items| % 2 == 0 && Fits(w, |items| / 2) && AllWellFormed(items)
  }

  predicate AllWellFormed(vs: seq<Mp>)
    decreases vs, 0
  {
    vs != [] ==> WellFormed(vs[0]) && AllWellFormed(vs[1..])
  }

  function Print(v: Mp): Bytes
    requires WellFormed(v)
    decreases v, 1
  {
    match v
    case Scalar(c, body) => [c] + body
    case FixStr(body) => [0xa0 + |body|] + body
    case Str(w, body) => [StrByte(w)] + Size(w, |body|) + body
    case Bin(w, body) => [BinByte(w)] + Size(w, |body|) + body
    case Ext(w, kind, body) => [ExtByte(w)] + Size(w, |body|) + ([kind] + body)
    case FixArray(items) => [0x90 + |items|] + PrintAll(items)
    case Array(w, items) => [if w.W2? then 0xdc else 0xdd] + Size(w, |items|) + PrintAll(items)
    case FixMap(items) => [0x80 + |items| / 2] + PrintAll(items)
    case Map(w, items) => [if w.W2? then 0xde else 0xdf] + Size(w, |items| / 2) + PrintAll(items)
  }

  function PrintAll(vs: seq<Mp>): (b: Bytes)
    requires AllWellFormed(vs)
    decreases vs, 0
  {
    if vs == [] then [] else Print(vs[0]) + PrintAll(vs[1..])
  }

  predicate IsContainer(v: Mp) { v.FixArray? || v.Array? || v.FixMap? || v.Map? }

  function Max(a: nat, b: nat): nat { if a < b then b else a }

  /** How deep non-empty containers nest. */
  function Nesting(v: Mp): nat
    decreases v, 1
  {
    if IsContainer(v) && v.items != [] then 1 + NestingAll(v.items) else 0
  }

  function NestingAll(vs: seq<Mp>): nat
    decreases vs, 0
  {
    if vs == [] then 0 else Max(Nesting(vs[0]), NestingAll(vs[1..]))
  }

  // ---------------------------------------------------------------- headers

  lemma SizeReads(w: Width, n: nat, x: Bytes)
    requires Fits(w, n)
    ensures |Size(w, n)| == Octets(w)
    ensures ReadFixed(|Size(w, n)|, Size(w, n) + x) == Done(n, x)
  {
    FixedReads(0, Size(w, n), x);
    match w
    case W1 => assert [n][..0] == [];
    case W2 => Big16Reads(n);
    case W4 => Big32Reads(n);
  }

  /** A header with a size of its own, and the rest of the value. */
  lemma SizedHead(c: byte, w: Width, n: nat, body: Bytes, x: Bytes)
    requires Fits(w, n) && FixedFormat(c).None? && LayoutOf(c).Some? && LayoutOf(c).value.width == Octets(w)
    ensures SkipHead([c] + Size(w, n) + body + x) == Done(HeadFor(LayoutOf(c).value, n), body + x)
  {
    SizeReads(w, n, body + x);
    FixedReads(c, Size(w, n), body + x);
    Reassociate([c] + Size(w, n), body, x);
    assert SizedFormat(c, Size(w, n) + (body + x)) == Done(HeadFor(LayoutOf(c).value, n), body + x);
  }

  lemma Reassociate(a: Bytes, b: Bytes, c: Bytes)
    ensures a + b + c == a + (b + c)
  {
  }

  lemma FixedHead(c: byte, body: Bytes, x: Bytes)
    requires FixedFormat(c).Some?
    ensures SkipHead([c] + body + x) == Done(FixedFormat(c).value, body + x)
  {
    assert ([c] + body + x)[1..] == body + x;
  }

  lemma ScalarFormat(c: byte)
    requires ScalarSize(c).Some?
    ensures FixedFormat(c) == Some(Head(ScalarSize(c).value, 0))
  {
    assert Pow2(0) == 1 && Pow2(1) == 2 && Pow2(2) == 4 && Pow2(3) == 8 && Pow2(4) == 16;
  }

  /** The bytes of a leaf after its header. */
  function Body(v: Mp): Bytes
    requires !IsContainer(v)
  {
    if v.Ext? then [v.kind] + v.body else v.body
  }

  /** What a value's header announces, and where it ends. */
  lemma HeadOfSized(v: Mp, x: Bytes)
    requires WellFormed(v) && (v.Str? || v.Bin? || v.Ext?)
    ensures SkipHead(Print(v) + x) == Done(Head(|Body(v)|, 0), Body(v) + x)
  {
    var c := if v.Str? then StrByte(v.w) else if v.Bin? then BinByte(v.w) else ExtByte(v.w);
    assert Print(v) == [c] + Size(v.w, |v.body|) + Body(v);
    SizedHead(c, v.w, |v.body|, Body(v), x);
  }

  lemma HeadOfLeaf(v: Mp, x: Bytes)
    requires WellFormed(v) && !IsContainer(v)
    ensures SkipHead(Print(v) + x) == Done(Head(|Body(v)|, 0), Body(v) + x)
  {
    if v.Scalar? {
      ScalarFormat(v.head);
      FixedHead(v.head, v.body, x);
    } else if v.FixStr? {
      FixedHead(0xa0 + |v.body|, v.body, x);
    } else {
      HeadOfSized(v, x);
    }
  }

  lemma HeadOfContainer(v: Mp, x: Bytes)
    requires WellFormed(v) && IsContainer(v)
    ensures SkipHead(Print(v) + x) == Done(Head(0, |v.items|), PrintAll(v.items) + x)
  {
    if v.FixArray? || v.FixMap? {
      HeadOfFixed(v, x);
    } else {
      HeadOfCounted(v, x);
    }
  }

  lemma HeadOfFixed(v: Mp, x: Bytes)
    requires WellFormed(v) && (v.FixArray? || v.FixMap?)
    ensures SkipHead(Print(v) + x) == Done(Head(0, |v.items|), PrintAll(v.items) + x)
  {
    var c, all: Bytes := if v.FixArray? then 0x90 + |v.items| else 0x80 + |v.items| / 2, PrintAll(v.items);
    assert Print(v) == [c] + all;
    FixedHead(c, all, x);
  }

  /** The byte before the count of an array, or of a map. */
  function CountByte(pairs: bool, w: Width): byte
    requires !w.W1?
  {
    if pairs then (if w.W2? then 0xde else 0xdf) else if w.W2? then 0xdc else 0xdd
  }

  lemma CountLayout(pairs: bool, w: Width)
    requires !w.W1?
    ensures FixedFormat(CountByte(pairs, w)).None?
    ensures LayoutOf(CountByte(pairs, w)) == Some(Layout(Octets(w), 0, if pairs then 2 else 1))
  {
  }

  lemma HeadOfCounted(v: Mp, x: Bytes)
    requires WellFormed(v) && (v.Array? || v.Map?)
    ensures SkipHead(Print(v) + x) == Done(Head(0, |v.items|), PrintAll(v.items) + x)
  {
    var c, n, all := CountByte(v.Map?, v.w), if v.Map? then |v.items| / 2 else |v.items|, PrintAll(v.items);
    CountLayout(v.Map?, v.w);
    assert Print(v) == [c] + Size(v.w, n) + all;
    SizedHead(c, v.w, n, all, x);
  }

  lemma {:induction false} EachTakesAByte(vs: seq<Mp>)
    requires AllWellFormed(vs)
    ensures |PrintAll(vs)| >= |vs|
    decreases vs
  {
    if vs != [] {
      EachTakesAByte(vs[1..]);
      assert |Print(vs[0])| >= 1;
    }
  }

  // ---------------------------------------------------------------- skipping

  /** What skipping one value at this depth comes to: the rest, exactly when it is not nested too deeply. */
  ghost predicate SkippedIff(r: Parse<()>, x: Bytes, deep: nat) {
    if deep <= MaxSkipDepth then r == Done((), x) else r.Fail?
  }

  lemma SkipLeaf(early: bool, depth: nat, v: Mp, x: Bytes)
    requires WellFormed(v) && !IsContainer(v)
    ensures SkippedIff(Skip(early, depth, Print(v) + x), x, depth)
  {
    HeadOfLeaf(v, x);
    assert (Body(v) + x)[|Body(v)|..] == x;
  }

  lemma SkipContainer(early: bool, depth: nat, v: Mp, x: Bytes)
    requires WellFormed(v) && IsContainer(v) && depth <= MaxSkipDepth
    ensures Skip(early, depth, Print(v) + x) ==
              if v.items == [] then Done((), x)
              else SkipMany(early, depth + 1, |v.items|, PrintAll(v.items) + x)
  {
    HeadOfContainer(v, x);
    EachTakesAByte(v.items);
    assert v.items == [] ==> PrintAll(v.items) + x == x;
    assert x[0..] == x;
  }

  /**
   Skipping a value in any format consumes exactly that value, whatever follows
   and in both modes, if it nests at most 32 deep, and is refused if deeper.
   */
  lemma {:induction false} SkipsAnyValueIff(early: bool, depth: nat, v: Mp, x: Bytes)
    requires WellFormed(v)
    ensures SkippedIff(Skip(early, depth, Print(v) + x), x, depth + Nesting(v))
    decreases v, 1
  {
    if !IsContainer(v) {
      SkipLeaf(early, depth, v, x);
    } else if depth > MaxSkipDepth {
      TooDeepFails(early, depth, Print(v) + x);
    } else {
      SkipContainer(early, depth, v, x);
      if v.items != [] {
        SkipsAllIff(early, depth + 1, v.items, x);
      }
    }
  }

  lemma TooDeepFails(early: bool, depth: nat, b: Bytes)
    requires depth > MaxSkipDepth
    ensures Skip(early, depth, b).Fail?
  {
  }

  /** The first value of several, then the others. */
  lemma ManyIff(early: bool, depth: nat, n: nat, b: Bytes, rest: Bytes, x: Bytes, deep: nat, others: nat)
    requires SkippedIff(Skip(early, depth, b), rest, depth + deep)
    requires if n == 0 then rest == x && others == 0
             else SkippedIff(SkipMany(early, depth, n, rest), x, depth + others)
    ensures SkippedIff(SkipMany(early, depth, n + 1, b), x, depth + Max(deep, others))
  {
  }

  lemma PrintAllHead(vs: seq<Mp>, x: Bytes)
    requires AllWellFormed(vs) && vs != []
    ensures PrintAll(vs) + x == Print(vs[0]) + (PrintAll(vs[1..]) + x)
  {
  }

  lemma {:induction false} SkipsAllIff(early: bool, depth: nat, vs: seq<Mp>, x: Bytes)
    requires AllWellFormed(vs) && vs != []
    ensures SkippedIff(SkipMany(early, depth, |vs|, PrintAll(vs) + x), x, depth + NestingAll(vs))
    decreases vs, 0
  {
    var first, others, rest := vs[0], vs[1..], PrintAll(vs[1..]) + x;
    PrintAllHead(vs, x);
    SkipsAnyValueIff(early, depth, first, rest);
    if others == [] {
      assert rest == x;
    } else {
      SkipsAllIff(early, depth, others, x);
    }
    ManyIff(early, depth, |others|, PrintAll(vs) + x, rest, x, Nesting(first), NestingAll(others));
  }

  // ---------------------------------------------------------------- the protocol's own values

  function RawAs(s: Bytes): Mp {
    if |s| < 32 then FixStr(s) else if |s| < 0x1_0000 then Str(W2, s) else Str(W4, s)
  }

  function UintAs(v: u64): Mp {
    if v <= 0x7f then Scalar(v, []) else if v <= 0xff then Scalar(0xcc, [v])
    else if v <= 0xffff then Scalar(0xcd, Big16(v)) else if v <= 0xffff_ffff then Scalar(0xce, Big32(v))
    else Scalar(0xcf, Big64(v))
  }

  /** The integer format a signed value is written in, by the first byte of its encoding. */
  function IntAs(v: i64): Mp { Scalar(AppendInt(v)[0], AppendInt(v)[1..]) }

  /** The value as MessagePack has it. */
  function ValueAs(v: Value): Mp {
    match v
    case UintV(u) => UintAs(u)
    case IntV(i) => IntAs(i)
    case StringV(s) => RawAs(s)
    case BytesV(p) => if p.None? then Scalar(0xc0, []) else RawAs(p.value)
    case BoolV(f) => Scalar(if f then 0xc3 else 0xc2, [])
  }

  predicate Short(v: Value) {
    match v
    case StringV(s) => |s| < 0x1_0000_0000
    case BytesV(p) => p.Some? ==> |p.value| < 0x1_0000_0000
    case _ => true
  }

  lemma RawHeaderIs(n: nat)
    requires n < 0x1_0000_0000
    ensures RawHeader(n) == if n < 32 then [0xa0 + n] else if n < 0x1_0000 then [0xda] + Big16(n) else [0xdb] + Big32(n)
  {
  }

  lemma RawIsMp(s: Bytes)
    requires |s| < 0x1_0000_0000
    ensures WellFormed(RawAs(s)) && Print(RawAs(s)) == RawHeader(|s|) + s
  {
    RawHeaderIs(|s|);
  }

  lemma IntIsMp(v: i64)
    ensures WellFormed(IntAs(v)) && Print(IntAs(v)) == AppendInt(v)
  {
    assert Print(IntAs(v)) == AppendInt(v) by {
      assert AppendInt(v) == [AppendInt(v)[0]] + AppendInt(v)[1..];
    }
  }

  /** Every field value is written as a well-formed MessagePack value. */
  lemma ValueIsMp(v: Value)
    requires Short(v)
    ensures WellFormed(ValueAs(v)) && Print(ValueAs(v)) == AppendValue(v) && Nesting(ValueAs(v)) == 0
  {
    match v
    case UintV(u) => assert AppendUint(u) == [AppendUint(u)[0]] + AppendUint(u)[1..];
    case IntV(i) => IntIsMp(i);
    case StringV(s) => RawIsMp(s);
    case BytesV(p) => if p.Some? { RawIsMp(p.value); }
    case BoolV(f) =>
  }

  /** Skipping undoes every encoder. */
  lemma SkipUndoesAppend(early: bool, depth: nat, v: Value, x: Bytes)
    requires Short(v) && depth <= MaxSkipDepth
    ensures Skip(early, depth, AppendValue(v) + x) == Done((), x)
  {
    ValueIsMp(v);
    SkipsAnyValueIff(early, depth, ValueAs(v), x);
  }

  function FieldsAs(fs: seq<Field>): seq<Mp> {
    if fs == [] then [] else [RawAs(Spelled(fs[0].name)), ValueAs(fs[0].value)] + FieldsAs(fs[1..])
  }

  lemma {:induction false} FieldsAreMp(fs: seq<Field>)
    requires forall i :: 0 <= i < |fs| ==> Short(fs[i].value)
    ensures AllWellFormed(FieldsAs(fs)) && PrintAll(FieldsAs(fs)) == AppendFields(fs)
    ensures |FieldsAs(fs)| == 2 * |fs| && NestingAll(FieldsAs(fs)) == 0
  {
    if fs != [] {
      FieldsAreMp(fs[1..]);
      FieldIsMp(fs[0]);
      var k, v, rest := RawAs(Spelled(fs[0].name)), ValueAs(fs[0].value), FieldsAs(fs[1..]);
      PairPrints(k, v, rest);
      assert FieldsAs(fs) == [k, v] + rest;
    }
  }

  lemma FieldIsMp(f: Field)
    requires Short(f.value)
    ensures var k, v := RawAs(Spelled(f.name)), ValueAs(f.value);
            && WellFormed(k) && WellFormed(v) && Nesting(k) == 0 && Nesting(v) == 0
            && Print(k) + Print(v) == AppendField(f)
  {
    NamesAreDistinct(f.name);
    RawIsMp(Spelled(f.name));
    ValueIsMp(f.value);
  }

  lemma ConsPrints(v: Mp, rest: seq<Mp>)
    requires WellFormed(v) && AllWellFormed(rest)
    ensures AllWellFormed([v] + rest) && PrintAll([v] + rest) == Print(v) + PrintAll(rest)
    ensures NestingAll([v] + rest) == Max(Nesting(v), NestingAll(rest))
  {
    assert ([v] + rest)[1..] == rest;
  }

  lemma PairPrints(k: Mp, v: Mp, rest: seq<Mp>)
    requires WellFormed(k) && WellFormed(v) && AllWellFormed(rest)
    ensures AllWellFormed([k, v] + rest) && PrintAll([k, v] + rest) == Print(k) + Print(v) + PrintAll(rest)
    ensures NestingAll([k, v] + rest) == Max(Nesting(k), Max(Nesting(v), NestingAll(rest)))
  {
    ConsPrints(v, rest);
    ConsPrints(k, [v] + rest);
    assert [k, v] + rest == [k] + ([v] + rest);
  }

  function MessageAs(m: Message): Mp { FixMap(FieldsAs(Fields(m))) }

  /** Every message is written as one well-formed MessagePack map, and so is skipped whole. */
  lemma MessageIsMp(m: Message)
    requires forall i :: 0 <= i < |Fields(m)| ==> Short(Fields(m)[i].value)
    ensures WellFormed(MessageAs(m)) && Print(MessageAs(m)) == Encode(m) && Nesting(MessageAs(m)) <= 1
  {
    var fs := Fields(m);
    assert Count(m) == |fs| <= 8 by { CountsFields(m); }
    FieldsAreMap(fs, FieldsAs(fs));
  }

  lemma FieldsAreMap(fs: seq<Field>, items: seq<Mp>)
    requires items == FieldsAs(fs) && |fs| < 16 && forall i :: 0 <= i < |fs| ==> Short(fs[i].value)
    ensures WellFormed(FixMap(items)) && Nesting(FixMap(items)) <= 1
    ensures Print(FixMap(items)) == AppendMapHeader(|fs|) + AppendFields(fs)
  {
    FieldsAreMp(fs);
    FixMapPrints(items, |fs|);
  }

  lemma Halves(n: nat)
    ensures 2 * n % 2 == 0 && 2 * n / 2 == n
  {
  }

  lemma FixMapPrints(items: seq<Mp>, n: nat)
    requires AllWellFormed(items) && |items| == 2 * n && n < 16
    ensures WellFormed(FixMap(items)) && Print(FixMap(items)) == [0x80 + n] + PrintAll(items)
    ensures Nesting(FixMap(items)) <= 1 + NestingAll(items)
  {
    Halves(n);
    assert |items| % 2 == 0 && |items| / 2 == n;
  }

  lemma SkipUndoesEncode(early: bool, depth: nat, m: Message, x: Bytes)
    requires depth < MaxSkipDepth && forall i :: 0 <= i < |Fields(m)| ==> Short(Fields(m)[i].value)
    ensures Skip(early, depth, Encode(m) + x) == Done((), x)
  {
    MessageIsMp(m);
    SkipsAnyValueIff(early, depth, MessageAs(m), x);
  }

  // ---------------------------------------------------------------- unknown fields

  /** The key names no field of the message. */
  predicate Unknown(m: Message, key: Bytes) { NameOf(key).None? || KindOf(m, NameOf(key).value).None? }

  lemma AnyKeyReads(key: Bytes, x: Bytes)
    requires |key| < 0x1_0000_0000
    ensures ReadKey(RawHeader(|key|) + key + x) == Done(if |key| > MaxKeyLen then None else Some(key), x)
  {
    assert RawHeader(|key|) + key + x == RawHeader(|key|) + (key + x);
    RawReads(|key|, key + x);
    assert (key + x)[..|key|] == key && (key + x)[|key|..] == x;
  }

  /** An entry under an unknown or overlong key is passed over, whatever value it holds, nested up to 32 deep. */
  lemma UnknownEntryIsPassedOver(early: bool, m: Message, key: Bytes, v: Mp, x: Bytes)
    requires |key| < 0x1_0000_0000 && (|key| <= MaxKeyLen ==> Unknown(m, key))
    requires WellFormed(v) && Nesting(v) <= MaxSkipDepth
    ensures DecodeEntry(early, m, AppendString(key) + Print(v) + x) == Done(m, x)
  {
    assert AppendString(key) + Print(v) + x == RawHeader(|key|) + key + (Print(v) + x);
    AnyKeyReads(key, Print(v) + x);
    SkipsAnyValueIff(early, 0, v, x);
  }
}
