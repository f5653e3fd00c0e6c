/** Filling packets: broadcasts and user messages under one byte budget, split into compound messages and wrapped. */
module Gossip {
  import opened Base
  import Msgpack
  import opened Wire
  import Compound
  import opened Packing
  import opened Delivery
  import Treap
  import opened BroadcastModel
  import BroadcastRuns
  import opened BroadcastQueue

  const CompoundHeaderOverhead := 2
  const CompoundOverhead := 2
  const UserMsgOverhead := 1

  /** What messages cost, each with its overhead. */
  function Cost(overhead: int, msgs: seq<Bytes>): int {
    if msgs == [] then 0 else |msgs[0]| + overhead + Cost(overhead, msgs[1..])
  }

  lemma {:induction false} CostConcat(overhead: int, a: seq<Bytes>, b: seq<Bytes>)
    ensures Cost(overhead, a + b) == Cost(overhead, a) + Cost(overhead, b)
  {
    if a == [] {
      assert a + b == b;
    } else {
      assert (a + b)[1..] == a[1..] + b;
      CostConcat(overhead, a[1..], b);
    }
  }

  lemma CostAppend(overhead: int, msgs: seq<Bytes>, i: nat)
    requires i < |msgs|
    ensures Cost(overhead, msgs[..i + 1]) == Cost(overhead, msgs[..i]) + |msgs[i]| + overhead
  {
    assert msgs[..i + 1] == msgs[..i] + [msgs[i]];
    CostConcat(overhead, msgs[..i], [msgs[i]]);
    assert Cost(overhead, [msgs[i]]) == |msgs[i]| + overhead + Cost(overhead, [msgs[i]][1..]);
  }

  lemma {:induction false} CostOfMessages(c: Call, es: seq<Treap.Item>)
    ensures Cost(c.overhead, Messages(c, es)) == BroadcastModel.Room(c, es) && |Messages(c, es)| == |es|
  {
    if es != [] {
      CostOfMessages(c, es[1..]);
    }
  }

  // getBroadcasts.

  type Delegate = (int, int) -> seq<Bytes>

  /** A delegate that keeps to the limit it is given. */
  ghost predicate Compliant(d: Delegate) {
    forall overhead, limit :: d(overhead, limit) != [] ==> Cost(overhead, d(overhead, limit)) <= limit
  }

  function Framed(msgs: seq<Bytes>): seq<Bytes> {
    if msgs == [] then [] else [[UserMsg] + msgs[0]] + Framed(msgs[1..])
  }

  lemma {:induction false} FramedAppend(msgs: seq<Bytes>, m: Bytes)
    ensures Framed(msgs + [m]) == Framed(msgs) + [[UserMsg] + m]
  {
    if msgs == [] {
      assert msgs + [m] == [m];
    } else {
      assert (msgs + [m])[1..] == msgs[1..] + [m];
      FramedAppend(msgs[1..], m);
    }
  }

  lemma {:induction false} CostOfFramed(overhead: int, msgs: seq<Bytes>)
    ensures Cost(overhead, Framed(msgs)) == Cost(overhead + UserMsgOverhead, msgs)
  {
    if msgs != [] {
      CostOfFramed(overhead, msgs[1..]);
    }
  }

  /** The user messages collected after own messages costing used. */
  function Asked(d: Option<Delegate>, overhead: int, avail: int): seq<Bytes> {
    if d.Some? && avail > overhead + UserMsgOverhead then Framed(d.value(overhead + UserMsgOverhead, avail)) else []
  }

  function Collected(own: seq<Bytes>, d: Option<Delegate>, overhead: int, limit: int): seq<Bytes> {
    own + Asked(d, overhead, limit - Cost(overhead, own))
  }

  /** Own and user messages together keep to the limit. */
  lemma CollectedInBudget(own: seq<Bytes>, d: Option<Delegate>, overhead: int, limit: int)
    requires own != [] ==> Cost(overhead, own) <= limit
    requires d.Some? ==> Compliant(d.value)
    ensures Collected(own, d, overhead, limit) != [] ==> Cost(overhead, Collected(own, d, overhead, limit)) <= limit
  {
    var avail := limit - Cost(overhead, own);
    var user := Asked(d, overhead, avail);
    CostConcat(overhead, own, user);
    if d.Some? && avail > overhead + UserMsgOverhead {
      CostOfFramed(overhead, d.value(overhead + UserMsgOverhead, avail));
    }
  }

  /** The framing loop. */
  method Frame(userMsgs: seq<Bytes>, own: seq<Bytes>) returns (toSend: seq<Bytes>)
    ensures toSend == own + Framed(userMsgs)
  {
    toSend := own;
    for i := 0 to |userMsgs|
      invariant toSend == own + Framed(userMsgs[..i])
    {
      assert userMsgs[..i + 1] == userMsgs[..i] + [userMsgs[i]];
      FramedAppend(userMsgs[..i], userMsgs[i]);
      toSend := toSend + [[UserMsg] + userMsgs[i]];
    }
    assert userMsgs[..|userMsgs|] == userMsgs;
  }

  /** The loop over what the queue handed out. */
  method BytesUsed(msgs: seq<Bytes>, overhead: int) returns (used: int)
    ensures used == Cost(overhead, msgs)
  {
    used := 0;
    for i := 0 to |msgs|
      invariant used == Cost(overhead, msgs[..i])
    {
      CostAppend(overhead, msgs, i);
      used := used + |msgs[i]| + overhead;
    }
    assert msgs[..|msgs|] == msgs;
  }

  /** The second half of getBroadcasts. */
  method AddUserMessages(own: seq<Bytes>, d: Option<Delegate>, overhead: int, limit: int) returns (toSend: seq<Bytes>)
    ensures toSend == Collected(own, d, overhead, limit)
  {
    toSend := own;
    if d.Some? {
      var bytesUsed := BytesUsed(own, overhead);
      var avail := limit - bytesUsed;
      if avail > overhead + UserMsgOverhead {
        toSend := Frame(d.value(overhead + UserMsgOverhead, avail), own);
        return;
      }
    }
    assert own + [] == own;
  }

  /** getBroadcasts: our messages first, then the delegate's in what is left. */
  method GetBroadcasts(q: TransmitLimitedQueue, c: Call, tlimit: int, d: Option<Delegate>) returns (toSend: seq<Bytes>)
    requires q.Valid()
    modifies q, Treap.Nodes(q.shape)
    ensures q.Valid() && q.model == BroadcastRuns.Get(old(q.model), c, tlimit)
    ensures toSend == Collected(Messages(c, Outcome(c, old(q.model.items)).0), d, c.overhead, c.limit)
  {
    var own := q.GetBroadcasts(c, tlimit);
    Treap.ShapeAllocated(q.shape);
    toSend := AddUserMessages(own, d, c.overhead, c.limit);
    assert Treap.Tied(q.root, q.shape);
  }

  /** What a call to the queue hands out costs no more than its limit. */
  lemma OwnInBudget(c: Call, es: seq<Treap.Item>)
    ensures var own := Messages(c, Outcome(c, es).0); own != [] ==> Cost(c.overhead, own) <= c.limit
  {
    CostOfMessages(c, Outcome(c, es).0);
    OutcomeWithinLimit(c, es);
  }

  // gossip.

  /** The bytes gossip gives to messages: compound framing, checksum, label and encryption come off first. */
  function GossipRoom(packet: int, lbl: Bytes, sealed: Option<Version>): int {
    packet - CompoundHeaderOverhead - Reserve(lbl, sealed)
  }

  /** The messages one round sends: a single one as it is, several as compounds. */
  function Outgoing(msgs: seq<Bytes>): seq<Bytes> {
    if |msgs| == 1 then msgs else Compound.PackedAll(Compound.Groups(msgs))
  }

  method MakeOutgoing(msgs: seq<Bytes>) returns (out: seq<Bytes>)
    ensures out == Outgoing(msgs)
  {
    if |msgs| == 1 {
      return msgs;
    }
    out := Compound.MakeCompoundMessages(msgs);
  }

  lemma {:induction false} PackedSize(msgs: seq<Bytes>)
    ensures |Compound.Lengths(msgs)| + |Compound.Flatten(msgs)| == Cost(CompoundOverhead, msgs)
  {
    if msgs != [] {
      PackedSize(msgs[1..]);
    }
  }

  lemma {:induction false} CostOfPart(overhead: nat, msgs: seq<Bytes>, i: nat)
    requires i < |msgs|
    ensures |msgs[i]| + overhead <= Cost(overhead, msgs) && Cost(overhead, msgs) >= 0
  {
    if i > 0 {
      CostOfPart(overhead, msgs[1..], i - 1);
    } else if |msgs| > 1 {
      CostOfPart(overhead, msgs[1..], 0);
    }
  }

  /** No group costs more than all the messages. */
  lemma {:induction false} GroupSize(msgs: seq<Bytes>, i: nat)
    requires i < |Compound.Groups(msgs)|
    ensures Cost(CompoundOverhead, Compound.Groups(msgs)[i]) <= Cost(CompoundOverhead, msgs)
    decreases |msgs|
  {
    if |msgs| > Compound.MaxMsgs {
      var a, b := msgs[..Compound.MaxMsgs], msgs[Compound.MaxMsgs..];
      assert msgs == a + b;
      CostConcat(CompoundOverhead, a, b);
      CostOfPart(CompoundOverhead, a, 0);
      CostOfPart(CompoundOverhead, b, 0);
      if i > 0 {
        GroupSize(b, i - 1);
      }
    }
  }

  lemma OutgoingSize(msgs: seq<Bytes>, i: nat)
    requires i < |Outgoing(msgs)|
    ensures |Outgoing(msgs)[i]| <= CompoundHeaderOverhead + Cost(CompoundOverhead, msgs)
  {
    if |msgs| == 1 {
      CostOfPart(CompoundOverhead, msgs, i);
    } else {
      var groups := Compound.Groups(msgs);
      Compound.PackedAllFull(groups);
      GroupSize(msgs, i);
      PackedSize(groups[i]);
    }
  }

  lemma RawFormSize(z: Lzw, compress: bool, msg: Bytes)
    ensures |RawForm(z, compress, msg)| <= |msg|
  {
  }

  /** Every gossip packet is within the packet size. Room is kept for encryption whenever it is enabled. */
  lemma GossipInBudget(packet: int, enabled: Option<Version>, w: Wrap, z: Lzw, compress: bool, msgs: seq<Bytes>, i: nat)
    requires Usable(w) && (w.sealed == enabled || w.sealed.None?) && i < |Outgoing(msgs)|
    requires Cost(CompoundOverhead, msgs) <= GossipRoom(packet, w.lbl, enabled)
    ensures |Packet(w, z, compress, Outgoing(msgs)[i])| <= packet
  {
    OutgoingSize(msgs, i);
    RawFormSize(z, compress, Outgoing(msgs)[i]);
    WrappedSize(w, RawForm(z, compress, Outgoing(msgs)[i]));
  }

  /** The packets of some messages, each within the packet size. */
  ghost predicate Sends(packets: seq<Bytes>, msgs: seq<Bytes>, w: Wrap, z: Lzw, compress: bool, packet: int)
    requires |w.lbl| <= LabelMaxSize
  {
    && |packets| == |msgs|
    && forall i :: 0 <= i < |packets| ==> packets[i] == Packet(w, z, compress, msgs[i]) && |packets[i]| <= packet
  }

  lemma SendsNext(packets: seq<Bytes>, msgs: seq<Bytes>, p: Bytes, m: Bytes, w: Wrap, z: Lzw, compress: bool,
                  packet: int)
    requires |w.lbl| <= LabelMaxSize && Sends(packets, msgs, w, z, compress, packet)
    requires p == Packet(w, z, compress, m) && |p| <= packet
    ensures Sends(packets + [p], msgs + [m], w, z, compress, packet)
  {
    forall i | 0 <= i < |packets + [p]|
      ensures (packets + [p])[i] == Packet(w, z, compress, (msgs + [m])[i]) && |(packets + [p])[i]| <= packet
    {
      if i < |packets| {
        assert (packets + [p])[i] == packets[i] && (msgs + [m])[i] == msgs[i];
      } else {
        assert (packets + [p])[i] == p && (msgs + [m])[i] == m;
      }
    }
  }

  /** The sending loop of gossip. */
  method SendAll(packet: int, enabled: Option<Version>, w: Wrap, z: Lzw, compress: bool, msgs: seq<Bytes>)
    returns (packets: seq<Bytes>)
    requires Usable(w) && (w.sealed == enabled || w.sealed.None?)
    requires msgs != [] ==> Cost(CompoundOverhead, msgs) <= GossipRoom(packet, w.lbl, enabled)
    ensures Sends(packets, Outgoing(msgs), w, z, compress, packet)
  {
    packets := [];
    var out := MakeOutgoing(msgs);
    for i := 0 to |out|
      invariant Sends(packets, out[..i], w, z, compress, packet)
    {
      GossipInBudget(packet, enabled, w, z, compress, msgs, i);
      var p := Packet(w, z, compress, out[i]);
      SendsNext(packets, out[..i], p, out[i], w, z, compress, packet);
      assert out[..i + 1] == out[..i] + [out[i]];
      packets := packets + [p];
    }
    assert out[..|out|] == out;
  }

  /** The messages one round of gossip collects from a queue and a delegate. */
  function Round(packet: int, lbl: Bytes, enabled: Option<Version>, message: Treap.Broadcast -> Bytes,
                 es: seq<Treap.Item>, d: Option<Delegate>): seq<Bytes> {
    var c := Call(message, CompoundOverhead, GossipRoom(packet, lbl, enabled));
    Collected(Messages(c, Outcome(c, es).0), d, c.overhead, c.limit)
  }

  /** A round keeps to the room gossip gives it. */
  lemma RoundInBudget(packet: int, lbl: Bytes, enabled: Option<Version>, message: Treap.Broadcast -> Bytes,
                      es: seq<Treap.Item>, d: Option<Delegate>)
    requires d.Some? ==> Compliant(d.value)
    ensures var msgs := Round(packet, lbl, enabled, message, es, d);
            msgs != [] ==> Cost(CompoundOverhead, msgs) <= GossipRoom(packet, lbl, enabled)
  {
    var c := Call(message, CompoundOverhead, GossipRoom(packet, lbl, enabled));
    OwnInBudget(c, es);
    CollectedInBudget(Messages(c, Outcome(c, es).0), d, c.overhead, c.limit);
  }

  /** One target of gossip: collect, pack, compress and wrap. */
  method GossipTo(q: TransmitLimitedQueue, packet: int, enabled: Option<Version>, w: Wrap, z: Lzw, compress: bool,
                  message: Treap.Broadcast -> Bytes, tlimit: int, d: Option<Delegate>)
    returns (packets: seq<Bytes>)
    requires q.Valid() && Usable(w) && (w.sealed == enabled || w.sealed.None?) && (d.Some? ==> Compliant(d.value))
    modifies q, Treap.Nodes(q.shape)
    ensures var c := Call(message, CompoundOverhead, GossipRoom(packet, w.lbl, enabled));
            q.Valid() && q.model == BroadcastRuns.Get(old(q.model), c, tlimit)
    ensures Sends(packets, Outgoing(Round(packet, w.lbl, enabled, message, old(q.model.items), d)), w, z, compress,
                  packet)
  {
    var c := Call(message, CompoundOverhead, GossipRoom(packet, w.lbl, enabled));
    ghost var es := q.model.items;
    var msgs := GetBroadcasts(q, c, tlimit, d);
    RoundInBudget(packet, w.lbl, enabled, message, es, d);
    Treap.ShapeAllocated(q.shape);
    packets := SendAll(packet, enabled, w, z, compress, msgs);
    assert Treap.Tied(q.root, q.shape);
  }

  // What gossip delivers.

  lemma {:induction false} FramedPlain(msgs: seq<Bytes>)
    ensures AllPlain(Framed(msgs))
  {
    if msgs != [] {
      FramedPlain(msgs[1..]);
    }
  }

  /** Own messages as the instance queues them, and whatever the delegate returns, are handled as they are. */
  lemma CollectedPlain(own: seq<Bytes>, d: Option<Delegate>, overhead: int, limit: int)
    requires AllPlain(own)
    ensures AllPlain(Collected(own, d, overhead, limit))
  {
    var avail := limit - Cost(overhead, own);
    if d.Some? && avail > overhead + UserMsgOverhead {
      FramedPlain(d.value(overhead + UserMsgOverhead, avail));
    }
  }

  /** Within a 16-bit packet size every part has a 16-bit length. */
  lemma PartsAre16Bit(msgs: seq<Bytes>, room: int)
    requires msgs != [] ==> Cost(CompoundOverhead, msgs) <= room <= 0xffff
    ensures forall i :: 0 <= i < |msgs| ==> |msgs[i]| <= 0xffff
  {
    forall i | 0 <= i < |msgs| ensures |msgs[i]| <= 0xffff {
      CostOfPart(CompoundOverhead, msgs, i);
    }
  }

  /** One group of messages in one packet. */
  lemma GroupDelivers(w: Wrap, z: Lzw, compress: bool, group: seq<Bytes>, room: int)
    requires Usable(w) && SoundCoder(z) && AllPlain(group) && 0 < |group| <= Compound.MaxMsgs
    requires Cost(CompoundOverhead, group) <= room <= 0xffff
    ensures Delivered(w, z, Packet(w, z, compress, Compound.Packed(group))) == group
  {
    PackedSize(group);
    PartsAre16Bit(group, room);
    CompoundDeliversIff(w, z, compress, group);
  }

  lemma CostOfHalves(msgs: seq<Bytes>, a: seq<Bytes>, b: seq<Bytes>)
    requires msgs == a + b && a != [] && b != []
    ensures Cost(CompoundOverhead, a) <= Cost(CompoundOverhead, msgs)
    ensures Cost(CompoundOverhead, b) <= Cost(CompoundOverhead, msgs)
  {
    CostConcat(CompoundOverhead, a, b);
    CostOfPart(CompoundOverhead, a, 0);
    CostOfPart(CompoundOverhead, b, 0);
  }

  /** Each packet carries one group. */
  ghost predicate Carries(w: Wrap, z: Lzw, compress: bool, groups: seq<seq<Bytes>>, packets: seq<Bytes>)
    requires |w.lbl| <= LabelMaxSize
  {
    && |packets| == |groups|
    && forall i :: 0 <= i < |packets| ==> packets[i] == Packet(w, z, compress, Compound.Packed(groups[i]))
  }

  lemma CarriesTail(w: Wrap, z: Lzw, compress: bool, groups: seq<seq<Bytes>>, packets: seq<Bytes>)
    requires |w.lbl| <= LabelMaxSize && groups != [] && Carries(w, z, compress, groups, packets)
    ensures packets != [] && packets[0] == Packet(w, z, compress, Compound.Packed(groups[0]))
    ensures Carries(w, z, compress, groups[1..], packets[1..])
  {
    forall i | 0 <= i < |packets[1..]|
      ensures packets[1..][i] == Packet(w, z, compress, Compound.Packed(groups[1..][i]))
    {
      assert packets[1..][i] == packets[i + 1] && groups[1..][i] == groups[i + 1];
    }
  }

  /** What the packets of compound messages deliver, group by group. */
  lemma {:induction false} GroupsDeliver(w: Wrap, z: Lzw, compress: bool, msgs: seq<Bytes>, packets: seq<Bytes>,
                                         room: int)
    requires Usable(w) && SoundCoder(z) && AllPlain(msgs)
    requires msgs != [] ==> Cost(CompoundOverhead, msgs) <= room <= 0xffff
    requires Carries(w, z, compress, Compound.Groups(msgs), packets)
    ensures DeliveredAll(w, z, packets) == msgs
    decreases |msgs|
  {
    if |msgs| > Compound.MaxMsgs {
      var a, b := msgs[..Compound.MaxMsgs], msgs[Compound.MaxMsgs..];
      assert msgs == a + b;
      CostOfHalves(msgs, a, b);
      Compound.GroupsSplit(msgs);
      CarriesTail(w, z, compress, Compound.Groups(msgs), packets);
      GroupDelivers(w, z, compress, a, room);
      GroupsDeliver(w, z, compress, b, packets[1..], room);
    } else if msgs != [] {
      GroupDelivers(w, z, compress, msgs, room);
      assert packets[1..] == [];
    }
  }

  /**
   A round's packets deliver exactly the collected messages, in order: whatever
   is queued, for every compliant delegate, compressed or not, sealed or not,
   with or without checksum and label, as long as the packet size is at most
   65535 bytes.
   */
  lemma GossipIsLossless(packet: int, enabled: Option<Version>, w: Wrap, z: Lzw, compress: bool,
                         message: Treap.Broadcast -> Bytes, es: seq<Treap.Item>, d: Option<Delegate>,
                         packets: seq<Bytes>)
    requires packet <= 0xffff && Usable(w) && SoundCoder(z) && (d.Some? ==> Compliant(d.value))
    requires forall b :: Plain(message(b))
    requires Sends(packets, Outgoing(Round(packet, w.lbl, enabled, message, es, d)), w, z, compress, packet)
    ensures DeliveredAll(w, z, packets) == Round(packet, w.lbl, enabled, message, es, d)
  {
    var msgs := Round(packet, w.lbl, enabled, message, es, d);
    RoundInBudget(packet, w.lbl, enabled, message, es, d);
    RoundPlain(packet, w.lbl, enabled, message, es, d);
    OutgoingDelivers(w, z, compress, msgs, packets, packet, GossipRoom(packet, w.lbl, enabled));
  }

  /** What the delegate answered in a round. */
  function Answered(packet: int, lbl: Bytes, enabled: Option<Version>, message: Treap.Broadcast -> Bytes,
                    es: seq<Treap.Item>, d: Option<Delegate>): seq<Bytes> {
    var c := Call(message, CompoundOverhead, GossipRoom(packet, lbl, enabled));
    var avail := c.limit - Cost(c.overhead, Messages(c, Outcome(c, es).0));
    if d.Some? && avail > c.overhead + UserMsgOverhead then d.value(c.overhead + UserMsgOverhead, avail) else []
  }

  lemma {:induction false} FramedInbox(msgs: seq<Bytes>)
    ensures Inbox(OnUser, Framed(msgs)) == msgs
  {
    if msgs != [] {
      FramedInbox(msgs[1..]);
      assert ([UserMsg] + msgs[0])[1..] == msgs[0];
      assert Framed(msgs)[1..] == Framed(msgs[1..]);
    }
  }

  lemma {:induction false} MessagesInbox(c: Call, es: seq<Treap.Item>)
    requires forall b :: Plain(c.message(b)) && HandlerOf(c.message(b)[0]) != Some(OnUser)
    ensures Inbox(OnUser, Messages(c, es)) == []
  {
    if es != [] {
      MessagesInbox(c, es[1..]);
    }
  }

  /** The user handler gets exactly the delegate's messages, byte for byte and in order, and nothing of ours. */
  lemma UserMessagesArrive(packet: int, enabled: Option<Version>, w: Wrap, z: Lzw, compress: bool,
                           message: Treap.Broadcast -> Bytes, es: seq<Treap.Item>, d: Option<Delegate>,
                           packets: seq<Bytes>)
    requires packet <= 0xffff && Usable(w) && SoundCoder(z) && (d.Some? ==> Compliant(d.value))
    requires forall b :: Plain(message(b)) && HandlerOf(message(b)[0]) != Some(OnUser)
    requires Sends(packets, Outgoing(Round(packet, w.lbl, enabled, message, es, d)), w, z, compress, packet)
    ensures Inbox(OnUser, DeliveredAll(w, z, packets)) == Answered(packet, w.lbl, enabled, message, es, d)
  {
    GossipIsLossless(packet, enabled, w, z, compress, message, es, d, packets);
    RoundInbox(packet, w.lbl, enabled, message, es, d);
  }

  lemma RoundInbox(packet: int, lbl: Bytes, enabled: Option<Version>, message: Treap.Broadcast -> Bytes,
                   es: seq<Treap.Item>, d: Option<Delegate>)
    requires forall b :: Plain(message(b)) && HandlerOf(message(b)[0]) != Some(OnUser)
    ensures Inbox(OnUser, Round(packet, lbl, enabled, message, es, d)) ==
              Answered(packet, lbl, enabled, message, es, d)
  {
    var c := Call(message, CompoundOverhead, GossipRoom(packet, lbl, enabled));
    MessagesInbox(c, Outcome(c, es).0);
    CollectedInbox(Messages(c, Outcome(c, es).0), d, c.overhead, c.limit);
  }

  lemma CollectedInbox(own: seq<Bytes>, d: Option<Delegate>, overhead: int, limit: int)
    requires Inbox(OnUser, own) == []
    ensures var avail := limit - Cost(overhead, own);
            Inbox(OnUser, Collected(own, d, overhead, limit)) ==
              if d.Some? && avail > overhead + UserMsgOverhead then d.value(overhead + UserMsgOverhead, avail) else []
  {
    var avail := limit - Cost(overhead, own);
    InboxConcat(OnUser, own, Asked(d, overhead, avail));
    if d.Some? && avail > overhead + UserMsgOverhead {
      FramedInbox(d.value(overhead + UserMsgOverhead, avail));
    }
  }

  lemma RoundPlain(packet: int, lbl: Bytes, enabled: Option<Version>, message: Treap.Broadcast -> Bytes,
                   es: seq<Treap.Item>, d: Option<Delegate>)
    requires forall b :: Plain(message(b))
    ensures AllPlain(Round(packet, lbl, enabled, message, es, d))
  {
    var c := Call(message, CompoundOverhead, GossipRoom(packet, lbl, enabled));
    MessagesPlain(c, Outcome(c, es).0);
    CollectedPlain(Messages(c, Outcome(c, es).0), d, c.overhead, c.limit);
  }

  lemma {:induction false} MessagesPlain(c: Call, es: seq<Treap.Item>)
    requires forall b :: Plain(c.message(b))
    ensures AllPlain(Messages(c, es))
  {
    if es != [] {
      MessagesPlain(c, es[1..]);
    }
  }

  lemma OutgoingDelivers(w: Wrap, z: Lzw, compress: bool, msgs: seq<Bytes>, packets: seq<Bytes>, packet: int, room: int)
    requires Usable(w) && SoundCoder(z) && AllPlain(msgs)
    requires msgs != [] ==> Cost(CompoundOverhead, msgs) <= room <= 0xffff
    requires Sends(packets, Outgoing(msgs), w, z, compress, packet)
    ensures DeliveredAll(w, z, packets) == msgs
  {
    if |msgs| == 1 {
      assert Plain(msgs[0]);
      PartsAre16Bit(msgs, room);
      PlainDelivers(w, z, compress, msgs[0]);
      assert packets[1..] == [];
    } else {
      Compound.PackedAllFull(Compound.Groups(msgs));
      GroupsDeliver(w, z, compress, msgs, packets, room);
    }
  }

  // sendMsg.

  function SendRoom(packet: int, msg: Bytes, lbl: Bytes, sealed: Option<Version>): int {
    packet - |msg| - CompoundHeaderOverhead - CompoundOverhead - Reserve(lbl, sealed)
  }

  /** A message with others on its back is within the packet size. */
  lemma PiggybackInBudget(packet: int, w: Wrap, z: Lzw, compress: bool, msg: Bytes, extra: seq<Bytes>)
    requires Usable(w) && extra != [] && Cost(CompoundOverhead, extra) <= SendRoom(packet, msg, w.lbl, w.sealed)
    ensures |Compound.Packed([msg] + extra)| <= packet
    ensures |Packet(w, z, compress, Compound.Packed([msg] + extra))| <= packet
  {
    PackedSize([msg] + extra);
    assert ([msg] + extra)[1..] == extra;
    RawFormSize(z, compress, Compound.Packed([msg] + extra));
    WrappedSize(w, RawForm(z, compress, Compound.Packed([msg] + extra)));
  }

  /**
   The room is all there is: a message with others on its back that use it up is,
   wrapped in the worst case, exactly the packet size.
   */
  lemma SendRoomIsTight(packet: int, w: Wrap, msg: Bytes, extra: seq<Bytes>)
    requires Usable(w) && w.checked && Cost(CompoundOverhead, extra) == SendRoom(packet, msg, w.lbl, w.sealed)
    requires w.sealed == Some(V0) ==> (|Compound.Packed([msg] + extra)| + CrcOverhead) % BlockSize == 0
    ensures |Wrapped(w, Compound.Packed([msg] + extra))| == packet
  {
    PackedSize([msg] + extra);
    assert ([msg] + extra)[1..] == extra;
    ReserveIsTight(w, Compound.Packed([msg] + extra));
  }

  /** And so is gossip's, for one compound. */
  lemma GossipRoomIsTight(packet: int, w: Wrap, msgs: seq<Bytes>)
    requires Usable(w) && w.checked && Cost(CompoundOverhead, msgs) == GossipRoom(packet, w.lbl, w.sealed)
    requires w.sealed == Some(V0) ==> (|Compound.Packed(msgs)| + CrcOverhead) % BlockSize == 0
    ensures |Wrapped(w, Compound.Packed(msgs))| == packet
  {
    PackedSize(msgs);
    ReserveIsTight(w, Compound.Packed(msgs));
  }

  /** The messages sendMsg puts on the back of another. */
  function Extra(packet: int, msg: Bytes, w: Wrap, message: Treap.Broadcast -> Bytes,
                 es: seq<Treap.Item>, d: Option<Delegate>): seq<Bytes> {
    var c := Call(message, CompoundOverhead, SendRoom(packet, msg, w.lbl, w.sealed));
    Collected(Messages(c, Outcome(c, es).0), d, c.overhead, c.limit)
  }

  function Joined(msg: Bytes, extra: seq<Bytes>): Bytes {
    if extra == [] then msg else Compound.Packed([msg] + extra)
  }

  lemma ExtraInBudget(packet: int, msg: Bytes, w: Wrap, message: Treap.Broadcast -> Bytes,
                      es: seq<Treap.Item>, d: Option<Delegate>)
    requires d.Some? ==> Compliant(d.value)
    ensures var extra := Extra(packet, msg, w, message, es, d);
            extra != [] ==> Cost(CompoundOverhead, extra) <= SendRoom(packet, msg, w.lbl, w.sealed)
  {
    var c := Call(message, CompoundOverhead, SendRoom(packet, msg, w.lbl, w.sealed));
    OwnInBudget(c, es);
    CollectedInBudget(Messages(c, Outcome(c, es).0), d, c.overhead, c.limit);
  }

  /** sendMsg: the message, with whatever fits on its back. */
  method SendMsg(q: TransmitLimitedQueue, packet: int, w: Wrap, z: Lzw, compress: bool,
                 message: Treap.Broadcast -> Bytes, tlimit: int, d: Option<Delegate>, msg: Bytes)
    returns (p: Bytes)
    requires q.Valid() && Usable(w) && (d.Some? ==> Compliant(d.value))
    modifies q, Treap.Nodes(q.shape)
    ensures var c := Call(message, CompoundOverhead, SendRoom(packet, msg, w.lbl, w.sealed));
            q.Valid() && q.model == BroadcastRuns.Get(old(q.model), c, tlimit)
    ensures var extra := Extra(packet, msg, w, message, old(q.model.items), d);
            p == Packet(w, z, compress, Joined(msg, extra)) && (extra != [] ==> |p| <= packet)
  {
    var c := Call(message, CompoundOverhead, SendRoom(packet, msg, w.lbl, w.sealed));
    ghost var es := q.model.items;
    var more := GetBroadcasts(q, c, tlimit, d);
    ExtraInBudget(packet, msg, w, message, es, d);
    if |more| == 0 {
      return Packet(w, z, compress, msg);
    }
    PiggybackInBudget(packet, w, z, compress, msg, more);
    Treap.ShapeAllocated(q.shape);
    var joined := Compound.MakeCompoundMessage([msg] + more);
    assert Treap.Tied(q.root, q.shape);
    p := Packet(w, z, compress, joined);
  }

  /**
   sendMsg does not split. What it sends delivers the message and everything on
   its back, in order, exactly when these are at most 255 together.
   */
  lemma PiggybackIsLosslessIff(packet: int, msg: Bytes, w: Wrap, z: Lzw, compress: bool,
                               message: Treap.Broadcast -> Bytes, es: seq<Treap.Item>, d: Option<Delegate>)
    requires packet <= 0xffff && |msg| <= MaxPacketDecompressed && Usable(w) && SoundCoder(z)
    requires d.Some? ==> Compliant(d.value)
    requires Plain(msg) && forall b :: Plain(message(b))
    ensures var extra := Extra(packet, msg, w, message, es, d);
            Delivered(w, z, Packet(w, z, compress, Joined(msg, extra))) == [msg] + extra <==> 1 + |extra| <= 255
  {
    var extra := Extra(packet, msg, w, message, es, d);
    if extra == [] {
      PlainDelivers(w, z, compress, msg);
    } else {
      var c := Call(message, CompoundOverhead, SendRoom(packet, msg, w.lbl, w.sealed));
      MessagesPlain(c, Outcome(c, es).0);
      CollectedPlain(Messages(c, Outcome(c, es).0), d, c.overhead, c.limit);
      ExtraInBudget(packet, msg, w, message, es, d);
      PiggybackInBudget(packet, w, z, compress, msg, extra);
      CostOfPart(CompoundOverhead, extra, 0);
      PartsAre16Bit(extra, SendRoom(packet, msg, w.lbl, w.sealed));
      CompoundDeliversIff(w, z, compress, [msg] + extra);
    }
  }

  /** A delegate with 255 one-byte messages, which it hands out whenever they fit. */
  function Chatter(overhead: int, limit: int): seq<Bytes> {
    if Cost(overhead, OneByteMessages(255)) <= limit then OneByteMessages(255) else []
  }

  function OneByteMessages(n: nat): seq<Bytes> { if n == 0 then [] else [[0]] + OneByteMessages(n - 1) }

  lemma {:induction false} OneByteCost(overhead: int, n: nat)
    ensures Cost(overhead, OneByteMessages(n)) == n * (1 + overhead) && |OneByteMessages(n)| == n
  {
    if n > 0 {
      OneByteCost(overhead, n - 1);
      assert n * (1 + overhead) == (n - 1) * (1 + overhead) + (1 + overhead);
    }
  }

  lemma {:induction false} FramedCount(msgs: seq<Bytes>)
    ensures |Framed(msgs)| == |msgs|
  {
    if msgs != [] {
      FramedCount(msgs[1..]);
    }
  }

  /**
   With such a delegate, which is compliant, a message that leaves it room is lost together with everything on its
   back.
   */
  lemma ChattyDelegateLosesAll(packet: int, msg: Bytes, w: Wrap, z: Lzw, compress: bool,
                               message: Treap.Broadcast -> Bytes)
    requires packet <= 0xffff && Plain(msg) && Usable(w) && SoundCoder(z)
    requires SendRoom(packet, msg, w.lbl, w.sealed) >= 1020
    ensures Compliant(Chatter)
    ensures var extra := Extra(packet, msg, w, message, [], Some(Chatter));
            |extra| == 255 && Delivered(w, z, Packet(w, z, compress, Joined(msg, extra))) == []
  {
    var room := SendRoom(packet, msg, w.lbl, w.sealed);
    var c := Call(message, CompoundOverhead, room);
    ChatterComplies();
    OneByteCost(CompoundOverhead + UserMsgOverhead, 255);
    FramedCount(OneByteMessages(255));
    EmptyQueueHandsOutNothing(c);
    var extra := Extra(packet, msg, w, message, [], Some(Chatter));
    assert extra == Framed(OneByteMessages(255));
    ExtraInBudget(packet, msg, w, message, [], Some(Chatter));
    PiggybackInBudget(packet, w, z, compress, msg, extra);
    var m := Compound.Packed([msg] + extra);
    Compound.TooManyAreLost([msg] + extra);
    PacketDelivers(w, z, compress, m);
  }

  lemma ChatterComplies()
    ensures Compliant(Chatter)
  {
  }

  lemma EmptyQueueHandsOutNothing(c: Call)
    ensures Messages(c, Outcome(c, []).0) == []
  {
  }

  // validateMetaMaxSize.

  /** The budget a worst-case alive message is checked against. */
  function AliveBudget(packet: int, lbl: Bytes, enabled: Option<Version>): int {
    (if packet < 0xffff then packet else 0xffff) - CompoundHeaderOverhead - CompoundOverhead - Reserve(lbl, enabled)
  }

  /** The alive message with everything variable at its largest. */
  function WorstAlive(name: Bytes, meta: nat, vsn: Option<Bytes>): Message {
    Alive(0xffff_ffff, name, Some(Repeat(0, 16)), 0xffff, Some(Repeat(0, meta)), vsn)
  }

  function Encoded(m: Message): Bytes { [AliveMsg] + Encode(m) }

  /** An alive message reaches the alive handler, which reads back the very message. */
  lemma AliveReachesItsHandler(m: Message, any: Message)
    requires m.Alive? && any.Alive? && WithinLimits(m)
    ensures Plain(Encoded(m)) && Inbox(OnAlive, [Encoded(m)]) == [Encode(m)]
    ensures Decode(true, any, Encode(m)) == Msgpack.Done(m, [])
  {
    assert Encoded(m)[1..] == Encode(m) && [Encoded(m)][1..] == [];
    RoundTrip(true, m, any, []);
    assert Encode(m) + [] == Encode(m);
  }

  /** validateMetaMaxSize; without a packet budget there is nothing to check. */
  predicate MetaFits(packet: int, lbl: Bytes, enabled: Option<Version>, name: Bytes, meta: nat, vsn: Option<Bytes>) {
    || packet <= 0
    || (meta <= AliveBudget(packet, lbl, enabled) &&
        |Encoded(WorstAlive(name, meta, vsn))| <= AliveBudget(packet, lbl, enabled))
  }

  lemma UintGrows(v: Msgpack.u64, w: Msgpack.u64)
    requires v <= w
    ensures |Msgpack.AppendUint(v)| <= |Msgpack.AppendUint(w)|
  {
  }

  lemma BytesGrow(p: Option<Bytes>, n: nat, z: Bytes)
    requires (p.Some? ==> |p.value| <= n) && |z| == n
    ensures |Msgpack.AppendBytes(p)| <= |Msgpack.AppendBytes(Some(z))|
  {
  }

  lemma {:induction false} FieldsGrow(fs: seq<Field>, gs: seq<Field>)
    requires |fs| == |gs|
    requires forall i :: 0 <= i < |fs| ==>
               fs[i].name == gs[i].name && |AppendValue(fs[i].value)| <= |AppendValue(gs[i].value)|
    ensures |AppendFields(fs)| <= |AppendFields(gs)|
  {
    if fs != [] {
      FieldsGrow(fs[1..], gs[1..]);
    }
  }

  /** The encoded length is monotone: no alive message of this node is longer than the worst case. */
  lemma AliveNoLongerThanWorst(m: Message, meta: nat)
    requires m.Alive? && (m.addr.Some? ==> |m.addr.value| <= 16) && (m.meta.Some? ==> |m.meta.value| <= meta)
    ensures |Encoded(m)| <= |Encoded(WorstAlive(m.node, meta, m.vsn))|
  {
    UintGrows(m.incarnation, 0xffff_ffff);
    UintGrows(m.port, 0xffff);
    BytesGrow(m.addr, 16, Repeat(0, 16));
    BytesGrow(m.meta, meta, Repeat(0, meta));
    FieldsGrow(Fields(m), Fields(WorstAlive(m.node, meta, m.vsn)));
  }

  /** An alive message this node might send: its name and versions, any address, and metadata up to the maximum. */
  predicate Announces(m: Message, name: Bytes, meta: nat, vsn: Option<Bytes>) {
    && m.Alive? && m.node == name && m.vsn == vsn
    && (m.addr.Some? ==> |m.addr.value| <= 16) && (m.meta.Some? ==> |m.meta.value| <= meta)
  }

  /** Alone in a gossip packet, of at most 65535 bytes, the message fits. */
  predicate FitsAlone(packet: int, lbl: Bytes, enabled: Option<Version>, m: Message) {
    Cost(CompoundOverhead, [Encoded(m)]) <= GossipRoom(if packet < 0xffff then packet else 0xffff, lbl, enabled)
  }

  lemma CostAlone(packet: int, lbl: Bytes, enabled: Option<Version>, m: Message)
    ensures FitsAlone(packet, lbl, enabled, m) <==> |Encoded(m)| <= AliveBudget(packet, lbl, enabled)
    ensures FitsAlone(packet, lbl, enabled, m) ==>
              Cost(CompoundOverhead, [Encoded(m)]) <= GossipRoom(packet, lbl, enabled) && |Encoded(m)| <= 0xffff
  {
    var one := Encoded(m);
    assert Cost(CompoundOverhead, [one]) == |one| + CompoundOverhead + Cost(CompoundOverhead, [one][1..]);
  }

  lemma WorstHoldsMeta(name: Bytes, meta: nat, vsn: Option<Bytes>)
    ensures Announces(WorstAlive(name, meta, vsn), name, meta, vsn) && |Encoded(WorstAlive(name, meta, vsn))| >= meta
  {
    FieldsHoldValues(Fields(WorstAlive(name, meta, vsn)), 2);
  }

  lemma {:induction false} FieldsHoldValues(fs: seq<Field>, i: nat)
    requires i < |fs|
    ensures |AppendFields(fs)| >= |AppendValue(fs[i].value)|
  {
    if i > 0 {
      FieldsHoldValues(fs[1..], i - 1);
    }
  }

  /** The check passes exactly when every alive message this node might send fits a gossip packet on its own. */
  lemma MetaFitsIff(packet: int, lbl: Bytes, enabled: Option<Version>, name: Bytes, meta: nat, vsn: Option<Bytes>)
    requires packet > 0
    ensures MetaFits(packet, lbl, enabled, name, meta, vsn) <==>
              forall m :: Announces(m, name, meta, vsn) ==> FitsAlone(packet, lbl, enabled, m)
  {
    var worst := WorstAlive(name, meta, vsn);
    WorstHoldsMeta(name, meta, vsn);
    CostAlone(packet, lbl, enabled, worst);
    if MetaFits(packet, lbl, enabled, name, meta, vsn) {
      forall m | Announces(m, name, meta, vsn) ensures FitsAlone(packet, lbl, enabled, m) {
        AliveNoLongerThanWorst(m, meta);
        CostAlone(packet, lbl, enabled, m);
      }
    }
  }

  /** So a node that passed the check can always put its own alive message, alone, in a gossip packet. */
  lemma OwnAliveAlwaysFits(packet: int, lbl: Bytes, enabled: Option<Version>, m: Message, meta: nat)
    requires packet > 0 && m.Alive? && MetaFits(packet, lbl, enabled, m.node, meta, m.vsn)
    requires (m.addr.Some? ==> |m.addr.value| <= 16) && (m.meta.Some? ==> |m.meta.value| <= meta)
    ensures Cost(CompoundOverhead, [Encoded(m)]) <= GossipRoom(packet, lbl, enabled) && |Encoded(m)| <= 0xffff
  {
    MetaFitsIff(packet, lbl, enabled, m.node, meta, m.vsn);
    assert Announces(m, m.node, meta, m.vsn);
    CostAlone(packet, lbl, enabled, m);
  }
}
