/**
 * The twelve protocol messages of internal/wire. A message encodes as a map keyed by field name, its entries in
 * sorted order; decoding resets the message, ignores unknown fields and lets the last duplicate win. Strings are
 * their bytes; None is a nil slice.
 */
module Wire {
  import opened Base
  import opened Msgpack

  const MaxFieldBytes := 0x10_0000
  const MaxCompressedBytes := 0x400_0000

  datatype FieldName =
    | Addr | Algo | Buf | Error | From | Incarnation | Join | Meta | Nack | Name | Node | Nodes | Payload | Port | SeqNo
    | SourceAddr | SourceNode | SourcePort | State | Target | UserMsgLen | UserStateLen | Vsn

  function Spelling(f: FieldName): string {
    match f
    case Addr => "Addr"
    case Algo => "Algo"
    case Buf => "Buf"
    case Error => "Error"
    case From => "From"
    case Incarnation => "Incarnation"
    case Join => "Join"
    case Meta => "Meta"
    case Nack => "Nack"
    case Name => "Name"
    case Node => "Node"
    case Nodes => "Nodes"
    case Payload => "Payload"
    case Port => "Port"
    case SeqNo => "SeqNo"
    case SourceAddr => "SourceAddr"
    case SourceNode => "SourceNode"
    case SourcePort => "SourcePort"
    case State => "State"
    case Target => "Target"
    case UserMsgLen => "UserMsgLen"
    case UserStateLen => "UserStateLen"
    case Vsn => "Vsn"
  }

  function Ascii(s: string): Bytes { seq(|s|, i requires 0 <= i < |s| => s[i] as int % 0x100) }

  function Text(k: Bytes): string { seq(|k|, i requires 0 <= i < |k| => k[i] as char) }

  function Spelled(f: FieldName): Bytes { Ascii(Spelling(f)) }

  function ByName(s: string): Option<FieldName> {
    if s == "Addr" then Some(Addr)
    else if s == "Algo" then Some(Algo)
    else if s == "Buf" then Some(Buf)
    else if s == "Error" then Some(Error)
    else if s == "From" then Some(From)
    else if s == "Incarnation" then Some(Incarnation)
    else if s == "Join" then Some(Join)
    else if s == "Meta" then Some(Meta)
    else if s == "Nack" then Some(Nack)
    else if s == "Name" then Some(Name)
    else if s == "Node" then Some(Node)
    else if s == "Nodes" then Some(Nodes)
    else if s == "Payload" then Some(Payload)
    else if s == "Port" then Some(Port)
    else if s == "SeqNo" then Some(SeqNo)
    else if s == "SourceAddr" then Some(SourceAddr)
    else if s == "SourceNode" then Some(SourceNode)
    else if s == "SourcePort" then Some(SourcePort)
    else if s == "State" then Some(State)
    else if s == "Target" then Some(Target)
    else if s == "UserMsgLen" then Some(UserMsgLen)
    else if s == "UserStateLen" then Some(UserStateLen)
    else if s == "Vsn" then Some(Vsn)
    else None
  }

  /** The field a key names, if any message has it. */
  function NameOf(k: Bytes): Option<FieldName> { ByName(Text(k)) }

  predicate UpToName(f: FieldName) {
    f.Addr? || f.Algo? || f.Buf? || f.Error? || f.From? || f.Incarnation? || f.Join? || f.Meta? || f.Nack? || f.Name?
  }

  lemma FirstSpellings(f: FieldName)
    requires UpToName(f)
    ensures ByName(Spelling(f)) == Some(f)
  {
  }

  lemma LastSpellings(f: FieldName)
    requires !UpToName(f)
    ensures ByName(Spelling(f)) == Some(f)
  {
  }

  lemma SpellingsAreDistinct(f: FieldName)
    ensures ByName(Spelling(f)) == Some(f)
  {
    if UpToName(f) {
      FirstSpellings(f);
    } else {
      LastSpellings(f);
    }
  }

  lemma TextOfAscii(s: string)
    requires forall i :: 0 <= i < |s| ==> s[i] as int < 0x100
    ensures Text(Ascii(s)) == s
  {
  }

  lemma SpellingsAreAscii(f: FieldName)
    ensures |Spelling(f)| <= MaxKeyLen && forall i :: 0 <= i < |Spelling(f)| ==> Spelling(f)[i] as int < 0x100
  {
  }

  lemma NamesAreDistinct(f: FieldName)
    ensures NameOf(Spelled(f)) == Some(f) && |Spelled(f)| <= MaxKeyLen
  {
    SpellingsAreDistinct(f);
    SpellingsAreAscii(f);
    TextOfAscii(Spelling(f));
  }

  // Field values.

  datatype Value = UintV(u: u64) | IntV(i: i64) | StringV(s: Bytes) | BytesV(p: Option<Bytes>) | BoolV(f: bool)

  /** How a field is decoded, with its limit. */
  datatype Kind = AsUint(limit: nat) | AsInt | AsString | AsBytes(max: nat) | AsBool

  const AsU32 := AsUint(0xffff_ffff)
  const AsU16 := AsUint(0xffff)
  const AsU8 := AsUint(0xff)

  function AppendValue(v: Value): Bytes {
    match v
    case UintV(u) => AppendUint(u)
    case IntV(i) => AppendInt(i)
    case StringV(s) => AppendString(s)
    case BytesV(p) => AppendBytes(p)
    case BoolV(f) => AppendBool(f)
  }

  function ReadValue(k: Kind, b: Bytes): (r: Parse<Value>)
    requires k.AsUint? ==> k.limit <= MaxUint64
    ensures r.Done? ==> Suits(k, r.value)
  {
    match k
    case AsUint(limit) =>
      var p := ReadUint(limit, b);
      if p.Fail? then Fail(p.error) else Done(UintV(p.value), p.rest)
    case AsInt =>
      var p := ReadInt(-0x8000_0000_0000_0000, MaxInt64, b);
      if p.Fail? then Fail(p.error) else Done(IntV(p.value), p.rest)
    case AsString =>
      var p := ReadString(MaxFieldBytes, b);
      if p.Fail? then Fail(p.error) else Done(StringV(p.value), p.rest)
    case AsBytes(limit) =>
      var p := ReadBytes(limit, b);
      if p.Fail? then Fail(p.error) else Done(BytesV(p.value), p.rest)
    case AsBool =>
      var p := ReadBool(b);
      if p.Fail? then Fail(p.error) else Done(BoolV(p.value), p.rest)
  }

  /** The value is of the kind and within its limit. */
  predicate Suits(k: Kind, v: Value) {
    match k
    case AsUint(limit) => v.UintV? && v.u <= limit
    case AsInt => v.IntV?
    case AsString => v.StringV? && |v.s| <= MaxFieldBytes
    case AsBytes(limit) => v.BytesV? && (v.p.Some? ==> |v.p.value| <= limit)
    case AsBool => v.BoolV?
  }

  // Messages.

  datatype Message =
    | Ping(seqNo: u32, node: Bytes, sourceAddr: Option<Bytes>, sourcePort: u16, sourceNode: Bytes)
    | IndirectPing(seqNo: u32, target: Option<Bytes>, port: u16, node: Bytes, nack: bool,
                   sourceAddr: Option<Bytes>, sourcePort: u16, sourceNode: Bytes)
    | AckResp(seqNo: u32, payload: Option<Bytes>)
    | NackResp(seqNo: u32)
    | ErrResp(error: Bytes)
    | Suspect(incarnation: u32, node: Bytes, from: Bytes)
    | Alive(incarnation: u32, node: Bytes, addr: Option<Bytes>, port: u16, meta: Option<Bytes>, vsn: Option<Bytes>)
    | Dead(incarnation: u32, node: Bytes, from: Bytes)
    | PushPullHeader(nodes: i64, userStateLen: i64, join: bool)
    | UserMsgHeader(userMsgLen: i64)
    | PushNodeState(name: Bytes, addr: Option<Bytes>, port: u16, meta: Option<Bytes>, incarnation: u32, state: i64,
                    vsn: Option<Bytes>)
    | Compress(algo: byte, buf: Option<Bytes>)

  /** The message of the same type with every field zero. */
  function Zero(m: Message): Message {
    match m
    case Ping(_, _, _, _, _) => Ping(0, [], None, 0, [])
    case IndirectPing(_, _, _, _, _, _, _, _) => IndirectPing(0, None, 0, [], false, None, 0, [])
    case AckResp(_, _) => AckResp(0, None)
    case NackResp(_) => NackResp(0)
    case ErrResp(_) => ErrResp([])
    case Suspect(_, _, _) => Suspect(0, [], [])
    case Alive(_, _, _, _, _, _) => Alive(0, [], None, 0, None, None)
    case Dead(_, _, _) => Dead(0, [], [])
    case PushPullHeader(_, _, _) => PushPullHeader(0, 0, false)
    case UserMsgHeader(_) => UserMsgHeader(0)
    case PushNodeState(_, _, _, _, _, _, _) => PushNodeState([], None, 0, None, 0, 0, None)
    case Compress(_, _) => Compress(0, None)
  }

  /** The decoder each message's decodeField picks for a field, if it knows it. */
  function KindOf(m: Message, f: FieldName): (k: Option<Kind>)
    ensures k.Some? && k.value.AsUint? ==> k.value.limit <= 0xffff_ffff
  {
    match m
    case Ping(_, _, _, _, _) =>
      (match f
       case SeqNo => Some(AsU32)
       case Node => Some(AsString)
       case SourceAddr => Some(AsBytes(MaxFieldBytes))
       case SourcePort => Some(AsU16)
       case SourceNode => Some(AsString)
       case _ => None)
    case IndirectPing(_, _, _, _, _, _, _, _) =>
      (match f
       case SeqNo => Some(AsU32)
       case Target => Some(AsBytes(MaxFieldBytes))
       case Port => Some(AsU16)
       case Node => Some(AsString)
       case Nack => Some(AsBool)
       case SourceAddr => Some(AsBytes(MaxFieldBytes))
       case SourcePort => Some(AsU16)
       case SourceNode => Some(AsString)
       case _ => None)
    case AckResp(_, _) =>
      (match f case SeqNo => Some(AsU32) case Payload => Some(AsBytes(MaxFieldBytes)) case _ => None)
    case NackResp(_) => (match f case SeqNo => Some(AsU32) case _ => None)
    case ErrResp(_) => (match f case Error => Some(AsString) case _ => None)
    case Suspect(_, _, _) =>
      (match f case Incarnation => Some(AsU32) case Node => Some(AsString) case From => Some(AsString) case _ => None)
    case Alive(_, _, _, _, _, _) =>
      (match f
       case Incarnation => Some(AsU32)
       case Node => Some(AsString)
       case Addr => Some(AsBytes(MaxFieldBytes))
       case Port => Some(AsU16)
       case Meta => Some(AsBytes(MaxFieldBytes))
       case Vsn => Some(AsBytes(MaxFieldBytes))
       case _ => None)
    case Dead(_, _, _) =>
      (match f case Incarnation => Some(AsU32) case Node => Some(AsString) case From => Some(AsString) case _ => None)
    case PushPullHeader(_, _, _) =>
      (match f case Nodes => Some(AsInt) case UserStateLen => Some(AsInt) case Join => Some(AsBool) case _ => None)
    case UserMsgHeader(_) => (match f case UserMsgLen => Some(AsInt) case _ => None)
    case PushNodeState(_, _, _, _, _, _, _) =>
      (match f
       case Name => Some(AsString)
       case Addr => Some(AsBytes(MaxFieldBytes))
       case Port => Some(AsU16)
       case Meta => Some(AsBytes(MaxFieldBytes))
       case Incarnation => Some(AsU32)
       case State => Some(AsInt)
       case Vsn => Some(AsBytes(MaxFieldBytes))
       case _ => None)
    case Compress(_, _) =>
      (match f case Algo => Some(AsU8) case Buf => Some(AsBytes(MaxCompressedBytes)) case _ => None)
  }

  /** Store a decoded field. */
  function Assign(m: Message, f: FieldName, v: Value): (r: Message)
    requires KindOf(m, f).Some? && Suits(KindOf(m, f).value, v)
    ensures Zero(r) == Zero(m)
  {
    match m
    case Ping(q, n, a, w, h) =>
      (match f
       case SeqNo => Ping(v.u, n, a, w, h)
       case Node => Ping(q, v.s, a, w, h)
       case SourceAddr => Ping(q, n, v.p, w, h)
       case SourcePort => Ping(q, n, a, v.u, h)
       case SourceNode => Ping(q, n, a, w, v.s))
    case IndirectPing(q, t, o, n, k, a, w, h) =>
      (match f
       case SeqNo => IndirectPing(v.u, t, o, n, k, a, w, h)
       case Target => IndirectPing(q, v.p, o, n, k, a, w, h)
       case Port => IndirectPing(q, t, v.u, n, k, a, w, h)
       case Node => IndirectPing(q, t, o, v.s, k, a, w, h)
       case Nack => IndirectPing(q, t, o, n, v.f, a, w, h)
       case SourceAddr => IndirectPing(q, t, o, n, k, v.p, w, h)
       case SourcePort => IndirectPing(q, t, o, n, k, a, v.u, h)
       case SourceNode => IndirectPing(q, t, o, n, k, a, w, v.s))
    case AckResp(q, p) =>
      (match f
       case SeqNo => AckResp(v.u, p)
       case Payload => AckResp(q, v.p))
    case NackResp(_) => NackResp(v.u)
    case ErrResp(_) => ErrResp(v.s)
    case Suspect(i, n, r) =>
      (match f
       case Incarnation => Suspect(v.u, n, r)
       case Node => Suspect(i, v.s, r)
       case From => Suspect(i, n, v.s))
    case Alive(i, n, a, o, t, w) =>
      (match f
       case Incarnation => Alive(v.u, n, a, o, t, w)
       case Node => Alive(i, v.s, a, o, t, w)
       case Addr => Alive(i, n, v.p, o, t, w)
       case Port => Alive(i, n, a, v.u, t, w)
       case Meta => Alive(i, n, a, o, v.p, w)
       case Vsn => Alive(i, n, a, o, t, v.p))
    case Dead(i, n, r) =>
      (match f
       case Incarnation => Dead(v.u, n, r)
       case Node => Dead(i, v.s, r)
       case From => Dead(i, n, v.s))
    case PushPullHeader(n, l, j) =>
      (match f
       case Nodes => PushPullHeader(v.i, l, j)
       case UserStateLen => PushPullHeader(n, v.i, j)
       case Join => PushPullHeader(n, l, v.f))
    case UserMsgHeader(_) => UserMsgHeader(v.i)
    case PushNodeState(n, a, o, t, i, z, w) =>
      (match f
       case Name => PushNodeState(v.s, a, o, t, i, z, w)
       case Addr => PushNodeState(n, v.p, o, t, i, z, w)
       case Port => PushNodeState(n, a, v.u, t, i, z, w)
       case Meta => PushNodeState(n, a, o, v.p, i, z, w)
       case Incarnation => PushNodeState(n, a, o, t, v.u, z, w)
       case State => PushNodeState(n, a, o, t, i, v.i, w)
       case Vsn => PushNodeState(n, a, o, t, i, z, v.p))
    case Compress(g, c) =>
      (match f
       case Algo => Compress(v.u, c)
       case Buf => Compress(g, v.p))
  }

  // Encoding.

  datatype Field = Field(name: FieldName, value: Value)

  function AppendField(f: Field): Bytes { AppendString(Spelled(f.name)) + AppendValue(f.value) }

  function AppendFields(fs: seq<Field>): Bytes {
    if fs == [] then [] else AppendField(fs[0]) + AppendFields(fs[1..])
  }

  function Omitted(addr: Option<Bytes>, port: u16, node: Bytes): nat {
    (if addr.None? || addr.value == [] then 1 else 0) + (if port == 0 then 1 else 0) + (if node == [] then 1 else 0)
  }

  function AddrField(addr: Option<Bytes>): seq<Field> {
    if addr.None? || addr.value == [] then [] else [Field(SourceAddr, BytesV(addr))]
  }

  function NodeField(node: Bytes): seq<Field> { if node == [] then [] else [Field(SourceNode, StringV(node))] }

  function PortField(port: u16): seq<Field> { if port == 0 then [] else [Field(SourcePort, UintV(port))] }

  /** The fields left out when zero. */
  function SourceFields(addr: Option<Bytes>, port: u16, node: Bytes): seq<Field> {
    AddrField(addr) + NodeField(node) + PortField(port)
  }

  /** The count each encoder writes in the map header. */
  function Count(m: Message): nat {
    match m
    case Ping(_, _, addr, port, node) => 5 - Omitted(addr, port, node)
    case IndirectPing(_, _, _, _, _, addr, port, node) => 8 - Omitted(addr, port, node)
    case AckResp(_, _) => 2
    case NackResp(_) => 1
    case ErrResp(_) => 1
    case Suspect(_, _, _) => 3
    case Alive(_, _, _, _, _, _) => 6
    case Dead(_, _, _) => 3
    case PushPullHeader(_, _, _) => 3
    case UserMsgHeader(_) => 1
    case PushNodeState(_, _, _, _, _, _, _) => 7
    case Compress(_, _) => 2
  }

  /** The entries each encoder writes, in its order. */
  function Fields(m: Message): seq<Field> {
    match m
    case Ping(seqNo, node, addr, port, source) =>
      [Field(Node, StringV(node)), Field(SeqNo, UintV(seqNo))] + SourceFields(addr, port, source)
    case IndirectPing(seqNo, target, port, node, nack, addr, sport, source) =>
      [Field(Nack, BoolV(nack)), Field(Node, StringV(node)), Field(Port, UintV(port)), Field(SeqNo, UintV(seqNo))] +
      SourceFields(addr, sport, source) + [Field(Target, BytesV(target))]
    case AckResp(seqNo, payload) => [Field(Payload, BytesV(payload)), Field(SeqNo, UintV(seqNo))]
    case NackResp(seqNo) => [Field(SeqNo, UintV(seqNo))]
    case ErrResp(error) => [Field(Error, StringV(error))]
    case Suspect(inc, node, from) =>
      [Field(From, StringV(from)), Field(Incarnation, UintV(inc)), Field(Node, StringV(node))]
    case Alive(inc, node, addr, port, meta, vsn) =>
      [Field(Addr, BytesV(addr)), Field(Incarnation, UintV(inc)), Field(Meta, BytesV(meta)), Field(Node, StringV(node)),
       Field(Port, UintV(port)), Field(Vsn, BytesV(vsn))]
    case Dead(inc, node, from) =>
      [Field(From, StringV(from)), Field(Incarnation, UintV(inc)), Field(Node, StringV(node))]
    case PushPullHeader(nodes, len, join) =>
      [Field(Join, BoolV(join)), Field(Nodes, IntV(nodes)), Field(UserStateLen, IntV(len))]
    case UserMsgHeader(len) => [Field(UserMsgLen, IntV(len))]
    case PushNodeState(name, addr, port, meta, inc, state, vsn) =>
      [Field(Addr, BytesV(addr)), Field(Incarnation, UintV(inc)), Field(Meta, BytesV(meta)), Field(Name, StringV(name)),
       Field(Port, UintV(port)), Field(State, IntV(state)), Field(Vsn, BytesV(vsn))]
    case Compress(algo, buf) => [Field(Algo, UintV(algo)), Field(Buf, BytesV(buf))]
  }

  function Encode(m: Message): Bytes { AppendMapHeader(Count(m)) + AppendFields(Fields(m)) }

  // Decoding.

  /** The field of m a key names, if m has it. */
  function FieldOf(m: Message, k: Option<Bytes>): (f: Option<FieldName>)
    ensures f.Some? ==> KindOf(m, f.value).Some?
  {
    if k.None? || NameOf(k.value).None? || KindOf(m, NameOf(k.value).value).None? then None else NameOf(k.value)
  }

  /** The value of one map entry into m: an unknown key's value is skipped. */
  function DecodeField(early: bool, m: Message, f: Option<FieldName>, b: Bytes): (r: Parse<Message>)
    requires f.Some? ==> KindOf(m, f.value).Some?
    ensures r.Done? ==> Zero(r.value) == Zero(m)
  {
    if f.None? then
      var p := Skip(early, 0, b);
      if p.Fail? then Fail(p.error) else Done(m, p.rest)
    else
      var p := ReadValue(KindOf(m, f.value).value, b);
      if p.Fail? then Fail(p.error) else Done(Assign(m, f.value, p.value), p.rest)
  }

  /** One map entry into m. */
  function DecodeEntry(early: bool, m: Message, b: Bytes): (r: Parse<Message>)
    ensures r.Done? ==> Zero(r.value) == Zero(m)
  {
    var k := ReadKey(b);
    if k.Fail? then Fail(k.error) else DecodeField(early, m, FieldOf(m, k.value), k.rest)
  }

  function DecodeEntries(early: bool, n: nat, m: Message, b: Bytes): (r: Parse<Message>)
    ensures r.Done? ==> Zero(r.value) == Zero(m) && (WithinLimits(m) ==> WithinLimits(r.value))
    decreases n
  {
    if n == 0 then Done(m, b)
    else
      var p := DecodeEntry(early, m, b);
      if p.Fail? then p
      else
        assert WithinLimits(m) ==> WithinLimits(p.value) by {
          if WithinLimits(m) { EntryKeepsLimits(early, m, b); }
        }
        DecodeEntries(early, n - 1, p.value, p.rest)
  }

  /** Decode a message of m's type: reset it, then read its map. */
  function Decode(early: bool, m: Message, b: Bytes): (r: Parse<Message>)
    ensures r.Done? ==> Zero(r.value) == Zero(m) && WithinLimits(r.value)
  {
    var h := ReadMapHeader(early, b);
    if h.Fail? then Fail(h.error) else ZeroFits(m); DecodeEntries(early, h.value, Zero(m), h.rest)
  }

  lemma ZeroFits(m: Message)
    ensures WithinLimits(Zero(m)) && Zero(Zero(m)) == Zero(m)
  {
  }

  // Round trip.

  predicate Known(m: Message, f: Field) {
    KindOf(Zero(m), f.name).Some? && Suits(KindOf(Zero(m), f.name).value, f.value)
  }

  ghost predicate AllKnown(m: Message, fs: seq<Field>) { forall i :: 0 <= i < |fs| ==> Known(m, fs[i]) }

  lemma KnownHead(m: Message, fs: seq<Field>)
    requires AllKnown(m, fs) && fs != []
    ensures KindOf(m, fs[0].name).Some? && Suits(KindOf(m, fs[0].name).value, fs[0].value)
    ensures AllKnown(Assign(m, fs[0].name, fs[0].value), fs[1..])
  {
  }

  /** Storing the fields one after another. */
  ghost function Store(m: Message, fs: seq<Field>): Message
    requires AllKnown(m, fs)
    decreases |fs|
  {
    if fs == [] then m else KnownHead(m, fs); Store(Assign(m, fs[0].name, fs[0].value), fs[1..])
  }

  lemma ValueReads(k: Kind, v: Value, x: Bytes)
    requires Suits(k, v) && (k.AsUint? ==> k.limit <= MaxUint64) && (k.AsBytes? ==> k.max < 0x1_0000_0000)
    ensures ReadValue(k, AppendValue(v) + x) == Done(v, x)
  {
    match v
    case UintV(u) => UintReads(u, x);
    case IntV(i) => IntReads(i, x);
    case StringV(s) => StringReads(MaxFieldBytes, s, x);
    case BytesV(p) => BytesRead(k.max, p, x);
    case BoolV(f) => BoolReads(f, x);
  }

  lemma BytesLimits(m: Message, f: FieldName)
    ensures KindOf(m, f).Some? && KindOf(m, f).value.AsBytes? ==> KindOf(m, f).value.max < 0x1_0000_0000
  {
  }

  lemma EntryReads(early: bool, m: Message, f: Field, x: Bytes)
    requires KindOf(m, f.name).Some? && Suits(KindOf(m, f.name).value, f.value)
    ensures DecodeEntry(early, m, AppendField(f) + x) == Done(Assign(m, f.name, f.value), x)
  {
    BytesLimits(m, f.name);
    NamesAreDistinct(f.name);
    assert AppendField(f) + x == AppendString(Spelled(f.name)) + (AppendValue(f.value) + x);
    KeyReads(Spelled(f.name), AppendValue(f.value) + x);
    ValueReads(KindOf(m, f.name).value, f.value, x);
  }

  lemma EntriesStep(early: bool, n: nat, m: Message, b: Bytes, next: Message, rest: Bytes, r: Parse<Message>)
    requires DecodeEntry(early, m, b) == Done(next, rest) && DecodeEntries(early, n, next, rest) == r
    ensures DecodeEntries(early, n + 1, m, b) == r
  {
  }

  lemma AppendFieldsHead(fs: seq<Field>, x: Bytes)
    requires fs != []
    ensures AppendFields(fs) + x == AppendField(fs[0]) + (AppendFields(fs[1..]) + x)
  {
  }

  lemma FirstEntryReads(early: bool, m: Message, fs: seq<Field>, x: Bytes) returns (next: Message)
    requires AllKnown(m, fs) && fs != []
    ensures AllKnown(next, fs[1..]) && Store(next, fs[1..]) == Store(m, fs)
    ensures DecodeEntry(early, m, AppendFields(fs) + x) == Done(next, AppendFields(fs[1..]) + x)
  {
    KnownHead(m, fs);
    next := Assign(m, fs[0].name, fs[0].value);
    AppendFieldsHead(fs, x);
    EntryReads(early, m, fs[0], AppendFields(fs[1..]) + x);
  }

  lemma NoEntries(early: bool, m: Message, x: Bytes)
    ensures DecodeEntries(early, 0, m, AppendFields([]) + x) == Done(m, x) && Store(m, []) == m
  {
  }

  lemma {:induction false} EntriesRead(early: bool, n: nat, m: Message, fs: seq<Field>, x: Bytes, r: Message)
    requires AllKnown(m, fs) && r == Store(m, fs) && n == |fs|
    ensures DecodeEntries(early, n, m, AppendFields(fs) + x) == Done(r, x)
    decreases n
  {
    if n == 0 {
      NoEntries(early, m, x);
      assert fs == [];
    } else {
      var next := FirstEntryReads(early, m, fs, x);
      EntriesRead(early, n - 1, next, fs[1..], x, r);
      EntriesStep(early, n - 1, m, AppendFields(fs) + x, next, AppendFields(fs[1..]) + x, Done(r, x));
    }
  }

  lemma {:induction false} FieldsTakeRoom(fs: seq<Field>)
    ensures |AppendFields(fs)| >= 2 * |fs|
  {
    if fs != [] {
      FieldsTakeRoom(fs[1..]);
      ValueTakesRoom(fs[0].value);
    }
  }

  lemma ValueTakesRoom(v: Value)
    ensures |AppendValue(v)| >= 1
  {
  }

  /** Every value is within the limit its decoder has. */
  ghost predicate InLimits(m: Message) {
    AllKnown(m, Fields(m))
  }

  predicate AtMost(p: Option<Bytes>, n: nat) { p.Some? ==> |p.value| <= n }

  /** Every string and byte slice has at most n bytes, and a compressed payload at most `payload`. */
  predicate Bounded(m: Message, n: nat, payload: nat) {
    match m
    case Ping(_, node, addr, _, source) => |node| <= n && AtMost(addr, n) && |source| <= n
    case IndirectPing(_, target, _, node, _, addr, _, source) =>
      AtMost(target, n) && |node| <= n && AtMost(addr, n) && |source| <= n
    case AckResp(_, p) => AtMost(p, n)
    case NackResp(_) => true
    case ErrResp(error) => |error| <= n
    case Suspect(_, node, from) => |node| <= n && |from| <= n
    case Alive(_, node, addr, _, meta, vsn) => |node| <= n && AtMost(addr, n) && AtMost(meta, n) && AtMost(vsn, n)
    case Dead(_, node, from) => |node| <= n && |from| <= n
    case PushPullHeader(_, _, _) => true
    case UserMsgHeader(_) => true
    case PushNodeState(name, addr, _, meta, _, _, vsn) =>
      |name| <= n && AtMost(addr, n) && AtMost(meta, n) && AtMost(vsn, n)
    case Compress(_, buf) => AtMost(buf, payload)
  }

  /** Strings and byte slices of up to a mebibyte, compressed payloads of up to 64; integers as their types allow. */
  predicate WithinLimits(m: Message) { Bounded(m, 0x10_0000, 0x400_0000) }

  /** Whatever a 32-bit length can say. */
  predicate Writable(m: Message) { Bounded(m, 0xffff_ffff, 0xffff_ffff) }

  /** The value has the type of the kind, and a length that can be written. */
  predicate Typed(k: Kind, v: Value) {
    match k
    case AsUint(limit) => v.UintV? && v.u <= limit
    case AsInt => v.IntV?
    case AsString => v.StringV? && |v.s| <= 0xffff_ffff
    case AsBytes(_) => v.BytesV? && AtMost(v.p, 0xffff_ffff)
    case AsBool => v.BoolV?
  }

  predicate TypedField(m: Message, f: Field) {
    KindOf(Zero(m), f.name).Some? && Typed(KindOf(Zero(m), f.name).value, f.value)
  }

  ghost predicate AllTyped(m: Message, fs: seq<Field>) { forall i :: 0 <= i < |fs| ==> TypedField(m, fs[i]) }

  lemma SourceTyped(m: Message, addr: Option<Bytes>, port: u16, node: Bytes)
    requires (m.Ping? || m.IndirectPing?) && AtMost(addr, 0xffff_ffff) && |node| <= 0xffff_ffff
    ensures AllTyped(m, SourceFields(addr, port, node))
  {
  }

  lemma TypedConcat(m: Message, a: seq<Field>, b: seq<Field>)
    requires AllTyped(m, a) && AllTyped(m, b)
    ensures AllTyped(m, a + b)
  {
  }

  lemma PingTyped(m: Message)
    requires m.Ping? && Writable(m)
    ensures AllTyped(m, Fields(m))
  {
    var a := [Field(Node, StringV(m.node)), Field(SeqNo, UintV(m.seqNo))];
    assert TypedField(m, a[0]) && TypedField(m, a[1]);
    SourceTyped(m, m.sourceAddr, m.sourcePort, m.sourceNode);
    TypedConcat(m, a, SourceFields(m.sourceAddr, m.sourcePort, m.sourceNode));
  }

  lemma IndirectPingTyped(m: Message)
    requires m.IndirectPing? && Writable(m)
    ensures AllTyped(m, Fields(m))
  {
    var a := [Field(Nack, BoolV(m.nack)), Field(Node, StringV(m.node)), Field(Port, UintV(m.port)),
              Field(SeqNo, UintV(m.seqNo))];
    var s, t := SourceFields(m.sourceAddr, m.sourcePort, m.sourceNode), [Field(Target, BytesV(m.target))];
    assert TypedField(m, a[0]) && TypedField(m, a[1]) && TypedField(m, a[2]) && TypedField(m, a[3]);
    assert TypedField(m, t[0]);
    SourceTyped(m, m.sourceAddr, m.sourcePort, m.sourceNode);
    TypedConcat(m, a, s);
    TypedConcat(m, a + s, t);
  }

  lemma AliveTyped(m: Message)
    requires m.Alive? && Writable(m)
    ensures AllTyped(m, Fields(m))
  {
    var a := [Field(Addr, BytesV(m.addr)), Field(Incarnation, UintV(m.incarnation)), Field(Meta, BytesV(m.meta))];
    var b := [Field(Node, StringV(m.node)), Field(Port, UintV(m.port)), Field(Vsn, BytesV(m.vsn))];
    assert TypedField(m, a[0]) && TypedField(m, a[1]) && TypedField(m, a[2]);
    assert TypedField(m, b[0]) && TypedField(m, b[1]) && TypedField(m, b[2]);
    TypedConcat(m, a, b);
    assert Fields(m) == a + b;
  }

  lemma PushNodeStateTyped(m: Message)
    requires m.PushNodeState? && Writable(m)
    ensures AllTyped(m, Fields(m))
  {
    var a := [Field(Addr, BytesV(m.addr)), Field(Incarnation, UintV(m.incarnation)), Field(Meta, BytesV(m.meta))];
    var b := [Field(Name, StringV(m.name)), Field(Port, UintV(m.port)), Field(State, IntV(m.state)),
              Field(Vsn, BytesV(m.vsn))];
    FirstPushFieldsTyped(m);
    LastPushFieldsTyped(m);
    TypedConcat(m, a, b);
    assert Fields(m) == a + b;
  }

  lemma FirstPushFieldsTyped(m: Message)
    requires m.PushNodeState? && Writable(m)
    ensures AllTyped(m, [Field(Addr, BytesV(m.addr)), Field(Incarnation, UintV(m.incarnation)),
                         Field(Meta, BytesV(m.meta))])
  {
  }

  lemma LastPushFieldsTyped(m: Message)
    requires m.PushNodeState? && Writable(m)
    ensures AllTyped(m, [Field(Name, StringV(m.name)), Field(Port, UintV(m.port)), Field(State, IntV(m.state)),
                         Field(Vsn, BytesV(m.vsn))])
  {
  }

  lemma ShortMessagesTyped(m: Message)
    requires !m.Ping? && !m.IndirectPing? && !m.Alive? && !m.PushNodeState? && Writable(m)
    ensures AllTyped(m, Fields(m))
  {
    var fs := Fields(m);
    assert |fs| <= 3 && TypedField(m, fs[0]);
    assert |fs| > 1 ==> TypedField(m, fs[1]);
    assert |fs| > 2 ==> TypedField(m, fs[2]);
  }

  /** The encoders write each field in the type its decoder expects. */
  lemma WritableIsTyped(m: Message)
    requires Writable(m)
    ensures AllTyped(m, Fields(m))
  {
    if m.Ping? {
      PingTyped(m);
    } else if m.IndirectPing? {
      IndirectPingTyped(m);
    } else if m.Alive? {
      AliveTyped(m);
    } else if m.PushNodeState? {
      PushNodeStateTyped(m);
    } else {
      ShortMessagesTyped(m);
    }
  }

  /** A field of this length, if it is written at all. */
  function LengthOf(v: Value): nat {
    match v
    case StringV(s) => |s|
    case BytesV(p) => if p.Some? then |p.value| else 0
    case _ => 0
  }

  /** The limit of a field, by what it holds. */
  function LimitOf(m: Message): nat { if m.Compress? then 0x400_0000 else 0x10_0000 }

  lemma KindLimit(m: Message, f: FieldName, v: Value)
    requires KindOf(m, f).Some? && Typed(KindOf(m, f).value, v)
    ensures Suits(KindOf(m, f).value, v) <==> LengthOf(v) <= LimitOf(m)
  {
  }

  lemma TypedIsKnownIff(m: Message, fs: seq<Field>)
    requires AllTyped(m, fs)
    ensures AllKnown(m, fs) <==> forall i :: 0 <= i < |fs| ==> LengthOf(fs[i].value) <= LimitOf(m)
  {
    forall i | 0 <= i < |fs| ensures Known(m, fs[i]) <==> LengthOf(fs[i].value) <= LimitOf(m) {
      KindLimit(Zero(m), fs[i].name, fs[i].value);
    }
  }

  ghost predicate AllShort(fs: seq<Field>, n: nat) { forall i :: 0 <= i < |fs| ==> LengthOf(fs[i].value) <= n }

  lemma ShortConcat(a: seq<Field>, b: seq<Field>, n: nat)
    ensures AllShort(a + b, n) <==> AllShort(a, n) && AllShort(b, n)
  {
    if AllShort(a + b, n) {
      forall i | 0 <= i < |a| ensures LengthOf(a[i].value) <= n {
        assert (a + b)[i] == a[i];
      }
      forall i | 0 <= i < |b| ensures LengthOf(b[i].value) <= n {
        assert (a + b)[|a| + i] == b[i];
      }
    }
  }

  lemma SourceShort(addr: Option<Bytes>, port: u16, node: Bytes, n: nat)
    ensures AllShort(SourceFields(addr, port, node), n) <==> AtMost(addr, n) && |node| <= n
  {
    ShortConcat(AddrField(addr) + NodeField(node), PortField(port), n);
    ShortConcat(AddrField(addr), NodeField(node), n);
    assert addr.Some? && addr.value != [] ==> LengthOf(AddrField(addr)[0].value) == |addr.value|;
    assert node != [] ==> LengthOf(NodeField(node)[0].value) == |node|;
  }

  lemma PairShort(f: Field, g: Field, n: nat)
    ensures AllShort([f, g], n) <==> LengthOf(f.value) <= n && LengthOf(g.value) <= n
  {
    assert [f, g][0] == f && [f, g][1] == g;
  }

  lemma PingShort(m: Message, n: nat)
    requires m.Ping?
    ensures AllShort(Fields(m), n) <==> Bounded(m, n, n)
  {
    var a := [Field(Node, StringV(m.node)), Field(SeqNo, UintV(m.seqNo))];
    PairShort(a[0], a[1], n);
    ShortConcat(a, SourceFields(m.sourceAddr, m.sourcePort, m.sourceNode), n);
    SourceShort(m.sourceAddr, m.sourcePort, m.sourceNode, n);
  }

  lemma IndirectPingShort(m: Message, n: nat)
    requires m.IndirectPing?
    ensures AllShort(Fields(m), n) <==> Bounded(m, n, n)
  {
    var a, b := [Field(Nack, BoolV(m.nack)), Field(Node, StringV(m.node))],
                [Field(Port, UintV(m.port)), Field(SeqNo, UintV(m.seqNo))];
    var s, t := SourceFields(m.sourceAddr, m.sourcePort, m.sourceNode), [Field(Target, BytesV(m.target))];
    assert Fields(m) == a + b + s + t;
    PairShort(a[0], a[1], n);
    PairShort(b[0], b[1], n);
    assert AllShort(t, n) <==> AtMost(m.target, n) by { assert t[0].value == BytesV(m.target); }
    ShortConcat(a + b + s, t, n);
    ShortConcat(a + b, s, n);
    ShortConcat(a, b, n);
    SourceShort(m.sourceAddr, m.sourcePort, m.sourceNode, n);
  }

  /** The fields of a message are short exactly when the message is bounded. */
  lemma ShortIffBounded(m: Message, n: nat)
    ensures AllShort(Fields(m), n) <==> Bounded(m, n, n)
  {
    match m
    case Ping(_, _, _, _, _) => PingShort(m, n);
    case IndirectPing(_, _, _, _, _, _, _, _) => IndirectPingShort(m, n);
    case _ => OthersShort(m, n);
  }

  lemma OthersShort(m: Message, n: nat)
    requires !m.Ping? && !m.IndirectPing?
    ensures AllShort(Fields(m), n) <==> Bounded(m, n, n)
  {
    var fs := Fields(m);
    assert |fs| <= 7;
    assert AllShort(fs, n) <==>
      && (|fs| > 0 ==> LengthOf(fs[0].value) <= n) && (|fs| > 1 ==> LengthOf(fs[1].value) <= n)
      && (|fs| > 2 ==> LengthOf(fs[2].value) <= n) && (|fs| > 3 ==> LengthOf(fs[3].value) <= n)
      && (|fs| > 4 ==> LengthOf(fs[4].value) <= n) && (|fs| > 5 ==> LengthOf(fs[5].value) <= n)
      && (|fs| > 6 ==> LengthOf(fs[6].value) <= n);
  }

  /** The decoders' limits are those: up to a mebibyte, and 64 for a compressed payload; integers are never refused. */
  lemma LimitsAre(m: Message)
    requires Writable(m)
    ensures InLimits(m) <==> WithinLimits(m)
  {
    WritableIsTyped(m);
    TypedIsKnownIff(m, Fields(m));
    ShortIffBounded(m, LimitOf(m));
  }

  /** The message as it reads back: an empty source address reads as nil. */
  function Normal(m: Message): Message {
    match m
    case Ping(q, n, a, w, h) => Ping(q, n, if a == Some([]) then None else a, w, h)
    case IndirectPing(q, t, o, n, k, a, w, h) => IndirectPing(q, t, o, n, k, if a == Some([]) then None else a, w, h)
    case _ => m
  }

  lemma CountsFields(m: Message)
    ensures Count(m) == |Fields(m)| <= 8
  {
  }

  /** Storing the field at i and going on after it. */
  lemma StoreAt(m: Message, fs: seq<Field>, i: nat) returns (next: Message)
    requires i < |fs| && AllKnown(m, fs[i..])
    ensures KindOf(m, fs[i].name).Some? && Suits(KindOf(m, fs[i].name).value, fs[i].value)
    ensures next == Assign(m, fs[i].name, fs[i].value)
    ensures AllKnown(next, fs[i + 1..]) && Store(m, fs[i..]) == Store(next, fs[i + 1..])
  {
    KnownHead(m, fs[i..]);
    assert fs[i..][1..] == fs[i + 1..];
    next := Assign(m, fs[i].name, fs[i].value);
  }

  lemma {:induction false} StoreConcat(m: Message, a: seq<Field>, b: seq<Field>)
    requires AllKnown(m, a + b)
    ensures AllKnown(m, a) && AllKnown(Store(m, a), b) && Store(m, a + b) == Store(Store(m, a), b)
    decreases |a|
  {
    assert a == (a + b)[..|a|];
    if a == [] {
      assert a + b == b;
    } else {
      KnownHead(m, a + b);
      assert (a + b)[1..] == a[1..] + b && (a + b)[0] == a[0];
      StoreConcat(Assign(m, a[0].name, a[0].value), a[1..], b);
    }
  }

  lemma AckRespStored(m0: Message, m: Message)
    requires m.AckResp? && m0 == Zero(m) && AllKnown(m0, Fields(m))
    ensures Store(m0, Fields(m)) == m
  {
    var fs := Fields(m);
    assert fs[0..] == fs;
    var m1 := StoreAt(m0, fs, 0);
    var m2 := StoreAt(m1, fs, 1);
    assert fs[2..] == [];
  }

  lemma NackRespStored(m0: Message, m: Message)
    requires m.NackResp? && m0 == Zero(m) && AllKnown(m0, Fields(m))
    ensures Store(m0, Fields(m)) == m
  {
  }

  lemma ErrRespStored(m0: Message, m: Message)
    requires m.ErrResp? && m0 == Zero(m) && AllKnown(m0, Fields(m))
    ensures Store(m0, Fields(m)) == m
  {
  }

  lemma SuspectStored(m0: Message, m: Message)
    requires m.Suspect? && m0 == Zero(m) && AllKnown(m0, Fields(m))
    ensures Store(m0, Fields(m)) == m
  {
    var fs := Fields(m);
    assert fs[0..] == fs;
    var m1 := StoreAt(m0, fs, 0);
    var m2 := StoreAt(m1, fs, 1);
    var m3 := StoreAt(m2, fs, 2);
    assert fs[3..] == [];
  }

  lemma AliveBegun(m0: Message, m: Message, fs: seq<Field>) returns (m3: Message)
    requires m.Alive? && m0 == Zero(m) && fs == Fields(m) && AllKnown(m0, fs)
    ensures m3 == Alive(m.incarnation, [], m.addr, 0, m.meta, None)
    ensures AllKnown(m3, fs[3..]) && Store(m0, fs) == Store(m3, fs[3..])
  {
    assert fs[0..] == fs;
    var m1 := StoreAt(m0, fs, 0);
    var m2 := StoreAt(m1, fs, 1);
    m3 := StoreAt(m2, fs, 2);
  }

  lemma AliveStored(m0: Message, m: Message)
    requires m.Alive? && m0 == Zero(m) && AllKnown(m0, Fields(m))
    ensures Store(m0, Fields(m)) == m
  {
    var fs := Fields(m);
    var m3 := AliveBegun(m0, m, fs);
    var m4 := StoreAt(m3, fs, 3);
    var m5 := StoreAt(m4, fs, 4);
    var m6 := StoreAt(m5, fs, 5);
    assert fs[6..] == [];
  }

  lemma DeadStored(m0: Message, m: Message)
    requires m.Dead? && m0 == Zero(m) && AllKnown(m0, Fields(m))
    ensures Store(m0, Fields(m)) == m
  {
    var fs := Fields(m);
    assert fs[0..] == fs;
    var m1 := StoreAt(m0, fs, 0);
    var m2 := StoreAt(m1, fs, 1);
    var m3 := StoreAt(m2, fs, 2);
    assert fs[3..] == [];
  }

  lemma PushPullHeaderStored(m0: Message, m: Message)
    requires m.PushPullHeader? && m0 == Zero(m) && AllKnown(m0, Fields(m))
    ensures Store(m0, Fields(m)) == m
  {
    var fs := Fields(m);
    assert fs[0..] == fs;
    var m1 := StoreAt(m0, fs, 0);
    var m2 := StoreAt(m1, fs, 1);
    var m3 := StoreAt(m2, fs, 2);
    assert fs[3..] == [];
  }

  lemma UserMsgHeaderStored(m0: Message, m: Message)
    requires m.UserMsgHeader? && m0 == Zero(m) && AllKnown(m0, Fields(m))
    ensures Store(m0, Fields(m)) == m
  {
  }

  lemma PushNodeStateBegun(m0: Message, m: Message, fs: seq<Field>) returns (m4: Message)
    requires m.PushNodeState? && m0 == Zero(m) && fs == Fields(m) && AllKnown(m0, fs)
    ensures m4 == PushNodeState(m.name, m.addr, 0, m.meta, m.incarnation, 0, None)
    ensures AllKnown(m4, fs[4..]) && Store(m0, fs) == Store(m4, fs[4..])
  {
    assert fs[0..] == fs;
    var m1 := StoreAt(m0, fs, 0);
    var m2 := StoreAt(m1, fs, 1);
    var m3 := StoreAt(m2, fs, 2);
    m4 := StoreAt(m3, fs, 3);
  }

  lemma PushNodeStateStored(m0: Message, m: Message)
    requires m.PushNodeState? && m0 == Zero(m) && AllKnown(m0, Fields(m))
    ensures Store(m0, Fields(m)) == m
  {
    var fs := Fields(m);
    var m4 := PushNodeStateBegun(m0, m, fs);
    var m5 := StoreAt(m4, fs, 4);
    var m6 := StoreAt(m5, fs, 5);
    var m7 := StoreAt(m6, fs, 6);
    assert fs[7..] == [];
  }

  lemma CompressStored(m0: Message, m: Message)
    requires m.Compress? && m0 == Zero(m) && AllKnown(m0, Fields(m))
    ensures Store(m0, Fields(m)) == m
  {
    var fs := Fields(m);
    assert fs[0..] == fs;
    var m1 := StoreAt(m0, fs, 0);
    var m2 := StoreAt(m1, fs, 1);
    assert fs[2..] == [];
  }


  /** The source fields on a message that may have them. */
  function WithSource(m: Message, addr: Option<Bytes>, port: u16, node: Bytes): Message
    requires m.Ping? || m.IndirectPing?
  {
    match m
    case Ping(q, n, _, _, _) => Ping(q, n, addr, port, node)
    case IndirectPing(q, t, o, n, k, _, _, _) => IndirectPing(q, t, o, n, k, addr, port, node)
  }

  lemma AddrStored(m: Message, addr: Option<Bytes>)
    requires (m.Ping? || m.IndirectPing?) && m == WithSource(m, None, 0, []) && AllKnown(m, AddrField(addr))
    ensures Store(m, AddrField(addr)) == WithSource(m, if addr == Some([]) then None else addr, 0, [])
  {
  }

  lemma NodeStored(m: Message, addr: Option<Bytes>, node: Bytes)
    requires (m.Ping? || m.IndirectPing?) && m == WithSource(m, addr, 0, []) && AllKnown(m, NodeField(node))
    ensures Store(m, NodeField(node)) == WithSource(m, addr, 0, node)
  {
  }

  lemma PortStored(m: Message, addr: Option<Bytes>, node: Bytes, port: u16)
    requires (m.Ping? || m.IndirectPing?) && m == WithSource(m, addr, 0, node) && AllKnown(m, PortField(port))
    ensures Store(m, PortField(port)) == WithSource(m, addr, port, node)
  {
  }

  lemma SourceStored(m: Message, addr: Option<Bytes>, port: u16, node: Bytes)
    requires (m.Ping? || m.IndirectPing?) && m == WithSource(m, None, 0, [])
    requires AllKnown(m, SourceFields(addr, port, node))
    ensures Store(m, SourceFields(addr, port, node)) ==
              WithSource(m, if addr == Some([]) then None else addr, port, node)
  {
    var known := if addr == Some([]) then None else addr;
    StoreConcat(m, AddrField(addr) + NodeField(node), PortField(port));
    StoreConcat(m, AddrField(addr), NodeField(node));
    AddrStored(m, addr);
    NodeStored(WithSource(m, known, 0, []), known, node);
    PortStored(WithSource(m, known, 0, node), known, node, port);
  }

  lemma PingStored(m0: Message, m: Message)
    requires m.Ping? && m0 == Zero(m) && AllKnown(m0, Fields(m))
    ensures Store(m0, Fields(m)) == Normal(m)
  {
    var fs := [Field(Node, StringV(m.node)), Field(SeqNo, UintV(m.seqNo))];
    StoreConcat(m0, fs, SourceFields(m.sourceAddr, m.sourcePort, m.sourceNode));
    assert fs[0..] == fs;
    var m1 := StoreAt(m0, fs, 0);
    var m2 := StoreAt(m1, fs, 1);
    assert fs[2..] == [];
    SourceStored(m2, m.sourceAddr, m.sourcePort, m.sourceNode);
  }

  function IndirectPingHead(m: Message): seq<Field>
    requires m.IndirectPing?
  {
    [Field(Nack, BoolV(m.nack)), Field(Node, StringV(m.node)), Field(Port, UintV(m.port)), Field(SeqNo, UintV(m.seqNo))]
  }

  lemma IndirectPingBegun(m0: Message, m: Message)
    requires m.IndirectPing? && m0 == Zero(m) && AllKnown(m0, IndirectPingHead(m))
    ensures Store(m0, IndirectPingHead(m)) == IndirectPing(m.seqNo, None, m.port, m.node, m.nack, None, 0, [])
  {
    var fs := IndirectPingHead(m);
    assert fs[0..] == fs;
    var m1 := StoreAt(m0, fs, 0);
    var m2 := StoreAt(m1, fs, 1);
    var m3 := StoreAt(m2, fs, 2);
    var m4 := StoreAt(m3, fs, 3);
    assert fs[4..] == [];
  }

  lemma IndirectPingStored(m0: Message, m: Message)
    requires m.IndirectPing? && m0 == Zero(m) && AllKnown(m0, Fields(m))
    ensures Store(m0, Fields(m)) == Normal(m)
  {
    var src := SourceFields(m.sourceAddr, m.sourcePort, m.sourceNode);
    var last := [Field(Target, BytesV(m.target))];
    StoreConcat(m0, IndirectPingHead(m) + src, last);
    StoreConcat(m0, IndirectPingHead(m), src);
    IndirectPingBegun(m0, m);
    var m4 := Store(m0, IndirectPingHead(m));
    SourceStored(m4, m.sourceAddr, m.sourcePort, m.sourceNode);
    KnownHead(Store(m4, src), last);
  }

  lemma AllStored(m: Message)
    requires InLimits(m)
    ensures AllKnown(Zero(m), Fields(m)) && Store(Zero(m), Fields(m)) == Normal(m)
  {
    var z := Zero(m);
    assert AllKnown(z, Fields(m));
    match m
    case Ping(_, _, _, _, _) => PingStored(z, m);
    case IndirectPing(_, _, _, _, _, _, _, _) => IndirectPingStored(z, m);
    case AckResp(_, _) => AckRespStored(z, m);
    case NackResp(_) => NackRespStored(z, m);
    case ErrResp(_) => ErrRespStored(z, m);
    case Suspect(_, _, _) => SuspectStored(z, m);
    case Alive(_, _, _, _, _, _) => AliveStored(z, m);
    case Dead(_, _, _) => DeadStored(z, m);
    case PushPullHeader(_, _, _) => PushPullHeaderStored(z, m);
    case UserMsgHeader(_) => UserMsgHeaderStored(z, m);
    case PushNodeState(_, _, _, _, _, _, _) => PushNodeStateStored(z, m);
    case Compress(_, _) => CompressStored(z, m);
  }

  lemma DecodeOf(early: bool, m: Message, b: Bytes, n: nat, body: Bytes, r: Parse<Message>)
    requires ReadMapHeader(early, b) == Done(n, body) && DecodeEntries(early, n, Zero(m), body) == r
    ensures Decode(early, m, b) == r
  {
  }

  lemma EncodedSplits(m: Message, x: Bytes)
    ensures Encode(m) + x == AppendMapHeader(Count(m)) + (AppendFields(Fields(m)) + x)
  {
  }

  /**
   Decoding an encoding followed by anything gives the message back and leaves exactly what followed, in both modes.
   */
  lemma RoundTrip(early: bool, m: Message, any: Message, x: Bytes)
    requires WithinLimits(m) && Zero(any) == Zero(m)
    ensures Decode(early, any, Encode(m) + x) == Done(Normal(m), x)
  {
    LimitsAre(m);
    var n, body := Count(m), AppendFields(Fields(m)) + x;
    assert n <= 8 && n == |Fields(m)| by { CountsFields(m); }
    assert 2 * n <= |body| by { FieldsTakeRoom(Fields(m)); }
    EncodedSplits(m, x);
    MapHeaderReads(early, n, body);
    AllStored(m);
    EntriesRead(early, n, Zero(m), Fields(m), x, Normal(m));
    DecodeOf(early, any, Encode(m) + x, n, body, Done(Normal(m), x));
  }

  // Whatever is decoded is within the limits.

  lemma AssignKeepsPing(m: Message, f: FieldName, v: Value)
    requires WithinLimits(m) && KindOf(m, f).Some? && Suits(KindOf(m, f).value, v) && (m.Ping? || m.IndirectPing?)
    ensures WithinLimits(Assign(m, f, v))
  {
  }

  lemma AssignKeepsNode(m: Message, f: FieldName, v: Value)
    requires WithinLimits(m) && KindOf(m, f).Some? && Suits(KindOf(m, f).value, v) && (m.Alive? || m.PushNodeState?)
    ensures WithinLimits(Assign(m, f, v))
  {
  }

  lemma AssignKeepsLimits(m: Message, f: FieldName, v: Value)
    requires WithinLimits(m) && KindOf(m, f).Some? && Suits(KindOf(m, f).value, v)
    ensures WithinLimits(Assign(m, f, v))
  {
    if m.Ping? || m.IndirectPing? {
      AssignKeepsPing(m, f, v);
    } else if m.Alive? || m.PushNodeState? {
      AssignKeepsNode(m, f, v);
    }
  }

  lemma EntryKeepsLimits(early: bool, m: Message, b: Bytes)
    requires WithinLimits(m) && DecodeEntry(early, m, b).Done?
    ensures WithinLimits(DecodeEntry(early, m, b).value)
  {
    var k := ReadKey(b);
    var f := FieldOf(m, k.value);
    if f.Some? {
      AssignKeepsLimits(m, f.value, ReadValue(KindOf(m, f.value).value, k.rest).value);
    }
  }

  /** Whatever the bytes, a decoded message is within the limits, so it can be passed on and reads back there. */
  lemma DecodedReadsBack(early: bool, any: Message, b: Bytes, m: Message, rest: Bytes, x: Bytes)
    requires Decode(early, any, b) == Done(m, rest)
    ensures WithinLimits(m) && Decode(early, any, Encode(m) + x) == Done(Normal(m), x)
  {
    assert Zero(m) == Zero(any);
    RoundTrip(early, m, any, x);
  }

  lemma NormalKeepsLimits(m: Message)
    ensures WithinLimits(Normal(m)) <==> WithinLimits(m)
  {
  }

  /** An encoding reads back exactly when every field is within the limits. */
  lemma ReadsBackIff(early: bool, m: Message, any: Message, x: Bytes)
    requires Zero(any) == Zero(m)
    ensures Decode(early, any, Encode(m) + x) == Done(Normal(m), x) <==> WithinLimits(m)
  {
    if WithinLimits(m) {
      RoundTrip(early, m, any, x);
    } else if Decode(early, any, Encode(m) + x) == Done(Normal(m), x) {
      NormalKeepsLimits(m);
    }
  }

  // More input changes nothing; so no strict prefix of an encoding decodes.

  lemma ValueExtends(k: Kind, b: Bytes, x: Bytes)
    requires k.AsUint? ==> k.limit <= MaxUint64
    ensures Extends(ReadValue(k, b), ReadValue(k, b + x), x)
  {
    ReadIntegerExtends(b, x);
    ReadStringExtends(MaxFieldBytes, b, x);
    if k.AsBytes? {
      ReadBytesExtends(k.max, b, x);
    }
    if b != [] {
      TailExtends(b, x);
    }
  }

  lemma FieldExtends(early: bool, m: Message, f: Option<FieldName>, b: Bytes, x: Bytes)
    requires f.Some? ==> KindOf(m, f.value).Some?
    ensures Extends(DecodeField(early, m, f, b), DecodeField(early, m, f, b + x), x)
  {
    if f.None? {
      SkipExtends(early, 0, b, x);
    } else {
      ValueExtends(KindOf(m, f.value).value, b, x);
    }
  }

  lemma EntryExtends(early: bool, m: Message, b: Bytes, x: Bytes)
    ensures Extends(DecodeEntry(early, m, b), DecodeEntry(early, m, b + x), x)
  {
    ReadKeyExtends(b, x);
    var k := ReadKey(b);
    if k.Done? {
      FieldExtends(early, m, FieldOf(m, k.value), k.rest, x);
    }
  }

  lemma {:induction false} EntriesExtend(early: bool, n: nat, m: Message, b: Bytes, x: Bytes)
    ensures Extends(DecodeEntries(early, n, m, b), DecodeEntries(early, n, m, b + x), x)
    decreases n
  {
    if n > 0 {
      EntryExtends(early, m, b, x);
      var p := DecodeEntry(early, m, b);
      if p.Done? {
        EntriesExtend(early, n - 1, p.value, p.rest, x);
        EntriesStep(early, n - 1, m, b, p.value, p.rest, DecodeEntries(early, n - 1, p.value, p.rest));
        EntriesStep(early, n - 1, m, b + x, p.value, p.rest + x, DecodeEntries(early, n - 1, p.value, p.rest + x));
      }
    }
  }

  lemma DecodeExtends(early: bool, m: Message, b: Bytes, x: Bytes)
    ensures Extends(Decode(early, m, b), Decode(early, m, b + x), x)
  {
    ReadMapHeaderExtends(early, b, x);
    var h := ReadMapHeader(early, b);
    if h.Done? {
      EntriesExtend(early, h.value, Zero(m), h.rest, x);
    }
  }

  /** Every strict prefix of an encoding is refused, in both modes. */
  lemma PrefixesAreRefused(early: bool, m: Message, any: Message, n: nat)
    requires WithinLimits(m) && Zero(any) == Zero(m) && n < |Encode(m)|
    ensures Decode(early, any, Encode(m)[..n]).Fail?
  {
    WholeReadsBack(early, m, any);
    PrefixFails(early, any, Encode(m), Normal(m), n);
  }

  lemma WholeReadsBack(early: bool, m: Message, any: Message)
    requires WithinLimits(m) && Zero(any) == Zero(m)
    ensures Decode(early, any, Encode(m)) == Done(Normal(m), [])
  {
    RoundTrip(early, m, any, []);
    assert Encode(m) + [] == Encode(m);
  }

  lemma PrefixFails(early: bool, any: Message, e: Bytes, m: Message, n: nat)
    requires Decode(early, any, e) == Done(m, []) && n < |e|
    ensures Decode(early, any, e[..n]).Fail?
  {
    assert e == e[..n] + e[n..];
    DecodeExtends(early, any, e[..n], e[n..]);
    UnfinishedFails(Decode(early, any, e[..n]), Decode(early, any, e), e[n..]);
  }

  /** What uses up more input than there was had not finished without it. */
  lemma UnfinishedFails(p: Parse<Message>, q: Parse<Message>, x: Bytes)
    requires Extends(p, q, x) && x != [] && q.Done? && q.rest == []
    ensures p.Fail?
  {
  }

  // The two modes agree on whole messages.

  lemma ValueConsumes(k: Kind, b: Bytes)
    requires k.AsUint? ==> k.limit <= MaxUint64
    ensures ReadValue(k, b).Done? ==> |ReadValue(k, b).rest| < |b|
  {
  }

  lemma FieldModesAgree(m: Message, f: Option<FieldName>, b: Bytes)
    requires f.Some? ==> KindOf(m, f.value).Some?
    ensures Agrees(DecodeField(true, m, f, b), DecodeField(false, m, f, b))
    ensures DecodeField(false, m, f, b).Done? ==> |DecodeField(false, m, f, b).rest| < |b|
  {
    if f.None? {
      SkipModesAgree(0, b);
    } else {
      ValueConsumes(KindOf(m, f.value).value, b);
    }
  }

  lemma EntryModesAgree(m: Message, b: Bytes)
    ensures Agrees(DecodeEntry(true, m, b), DecodeEntry(false, m, b))
    ensures DecodeEntry(false, m, b).Done? ==> |DecodeEntry(false, m, b).rest| + 2 <= |b|
  {
    var k := ReadKey(b);
    if k.Done? {
      FieldModesAgree(m, FieldOf(m, k.value), k.rest);
    }
  }

  lemma {:induction false} EntriesModesAgree(n: nat, m: Message, b: Bytes)
    ensures Agrees(DecodeEntries(true, n, m, b), DecodeEntries(false, n, m, b))
    ensures DecodeEntries(false, n, m, b).Done? ==> |DecodeEntries(false, n, m, b).rest| + 2 * n <= |b|
    decreases n
  {
    if n > 0 {
      EntryModesAgree(m, b);
      var p := DecodeEntry(false, m, b);
      if p.Done? {
        EntriesModesAgree(n - 1, p.value, p.rest);
        EntriesStep(true, n - 1, m, b, p.value, p.rest, DecodeEntries(true, n - 1, p.value, p.rest));
        EntriesStep(false, n - 1, m, b, p.value, p.rest, DecodeEntries(false, n - 1, p.value, p.rest));
      }
    }
  }

  /** A byte string decodes in slice mode exactly when it does in stream mode, to the same message and the same rest. */
  lemma ModesAgree(m: Message, b: Bytes)
    ensures Agrees(Decode(true, m, b), Decode(false, m, b))
  {
    var h := ReadMapHeader(false, b);
    if h.Done? {
      EntriesModesAgree(h.value, Zero(m), h.rest);
    }
  }
}