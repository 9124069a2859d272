/** The wire format of gossip messages (src/membership/swim_message.cpp), as functions on byte strings:
    what is written, what is accepted, and that each undoes the other. */
module SwimWire {
  import opened NodeInfos
  import opened Bytes

  // ---------------------------------------------------------------- big-endian integers

  function Pow256(n: nat): (r: nat)
    ensures r >= 1
  {
    if n == 0 then 1 else 256 * Pow256(n - 1)
  }

  /** The low `n` bytes of `v`, most significant first. */
  function BigEndian(v: nat, n: nat): (r: seq<byte>)
    ensures |r| == n
  {
    if n == 0 then [] else BigEndian(v / 256, n - 1) + [(v % 256) as byte]
  }

  function Number(bs: seq<byte>): nat {
    if bs == [] then 0 else Number(bs[..|bs| - 1]) * 256 + bs[|bs| - 1] as nat
  }

  lemma {:induction false} NumberOfBigEndian(v: nat, n: nat)
    requires v < Pow256(n)
    ensures Number(BigEndian(v, n)) == v
  {
    if n == 0 {
    } else {
      NumberOfBigEndian(v / 256, n - 1);
      assert BigEndian(v, n)[..n - 1] == BigEndian(v / 256, n - 1);
    }
  }

  lemma {:induction false} BigEndianOfNumber(bs: seq<byte>)
    ensures Number(bs) < Pow256(|bs|) && BigEndian(Number(bs), |bs|) == bs
  {
    if bs == [] {
    } else {
      var n := |bs| - 1;
      BigEndianOfNumber(bs[..n]);
      assert Number(bs) / 256 == Number(bs[..n]) && Number(bs) % 256 == bs[n] as nat;
      assert bs == bs[..n] + [bs[n]];
    }
  }

  function ReadInt(d: seq<byte>, off: nat, n: nat): Parsed<nat> {
    if off + n <= |d| then Accepted(Number(d[off..off + n]), off + n) else Rejected
  }

  lemma Pow256Values()
    ensures Pow256(2) == 0x1_0000 && Pow256(4) == 0x1_0000_0000 && Pow256(8) == 0x1_0000_0000_0000_0000
  {
    assert Pow256(1) == 256 && Pow256(3) == 0x100_0000;
    assert Pow256(5) == 0x100_0000_0000 && Pow256(6) == 0x1_0000_0000_0000 && Pow256(7) == 0x100_0000_0000_0000;
  }

  lemma ReadIntAt(d: seq<byte>, off: nat, v: nat, n: nat)
    requires v < Pow256(n) && At(d, off, BigEndian(v, n))
    ensures ReadInt(d, off, n) == Accepted(v, off + n)
  {
    NumberOfBigEndian(v, n);
  }

  lemma ReadIntExact(d: seq<byte>, off: nat, n: nat)
    requires ReadInt(d, off, n).Accepted?
    ensures ReadInt(d, off, n).next == off + n <= |d|
    ensures ReadInt(d, off, n).value < Pow256(n) && At(d, off, BigEndian(ReadInt(d, off, n).value, n))
  {
    BigEndianOfNumber(d[off..off + n]);
  }

  // ---------------------------------------------------------------- node ids

  function EncodeId(id: NodeId): seq<byte> { BigEndian(|id.host|, 2) + id.host + BigEndian(id.gossipPort, 2) }

  function DecodeId(d: seq<byte>, off: nat): Parsed<NodeId> {
    match ReadInt(d, off, 2)
    case Rejected => Rejected
    case Accepted(len, o) =>
      if o + len > |d| then Rejected
      else
        match ReadInt(d, o + len, 2)
        case Rejected => Rejected
        case Accepted(port, next) => Accepted(NodeId(d[o..o + len], port % 0x1_0000), next)
  }

  predicate IdFits(id: NodeId) { |id.host| < 0x1_0000 }

  lemma DecodeIdAt(d: seq<byte>, off: nat, id: NodeId)
    requires IdFits(id) && At(d, off, EncodeId(id))
    ensures DecodeId(d, off) == Accepted(id, off + |EncodeId(id)|)
  {
    Pow256Values();
    var len, port := BigEndian(|id.host|, 2), BigEndian(id.gossipPort, 2);
    AtSplit(d, off, len + id.host, port);
    AtSplit(d, off, len, id.host);
    ReadIntAt(d, off, |id.host|, 2);
    ReadIntAt(d, off + 2 + |id.host|, id.gossipPort, 2);
  }

  lemma DecodeIdExact(d: seq<byte>, off: nat)
    requires DecodeId(d, off).Accepted?
    ensures IdFits(DecodeId(d, off).value)
    ensures DecodeId(d, off).next == off + |EncodeId(DecodeId(d, off).value)| <= |d|
    ensures At(d, off, EncodeId(DecodeId(d, off).value))
  {
    Pow256Values();
    var id := DecodeId(d, off).value;
    ReadIntExact(d, off, 2);
    ReadIntExact(d, off + 2 + |id.host|, 2);
    AtSplit(d, off, BigEndian(|id.host|, 2), id.host);
    AtSplit(d, off, BigEndian(|id.host|, 2) + id.host, BigEndian(id.gossipPort, 2));
  }

  // ---------------------------------------------------------------- updates

  function EncodeUpdate(u: Update): seq<byte> {
    [UpdateCode(u.typ) as byte] + EncodeId(u.node) + BigEndian(u.incarnation, 8) + BigEndian(u.dataPort, 2)
  }

  function TypeOfCode(code: nat): UpdateType
    requires code < 5
  {
    if code == 0 then JoinUpdate else if code == 1 then AliveUpdate else if code == 2 then SuspectUpdate
    else if code == 3 then DeadUpdate else LeaveUpdate
  }

  function DecodeUpdate(d: seq<byte>, off: nat): Parsed<Update> {
    if off >= |d| || d[off] > 4 then Rejected
    else
      match DecodeId(d, off + 1)
      case Rejected => Rejected
      case Accepted(node, o) =>
        match ReadInt(d, o, 8)
        case Rejected => Rejected
        case Accepted(inc, o2) =>
          match ReadInt(d, o2, 2)
          case Rejected => Rejected
          case Accepted(port, next) => Accepted(Update(TypeOfCode(d[off] as nat), node, inc, port % 0x1_0000), next)
  }

  predicate UpdateFits(u: Update) { IdFits(u.node) && u.incarnation < 0x1_0000_0000_0000_0000 }

  lemma DecodeUpdateAt(d: seq<byte>, off: nat, u: Update)
    requires UpdateFits(u) && At(d, off, EncodeUpdate(u))
    ensures DecodeUpdate(d, off) == Accepted(u, off + |EncodeUpdate(u)|)
  {
    hide BigEndian, Number, EncodeId, DecodeId;
    Pow256Values();
    var code, node, inc, port := [UpdateCode(u.typ) as byte], EncodeId(u.node), BigEndian(u.incarnation, 8),
        BigEndian(u.dataPort, 2);
    AtSplit(d, off, code + node + inc, port);
    AtSplit(d, off, code + node, inc);
    AtSplit(d, off, code, node);
    assert d[off..off + 1][0] == d[off];
    DecodeIdAt(d, off + 1, u.node);
    ReadIntAt(d, off + 1 + |node|, u.incarnation, 8);
    ReadIntAt(d, off + 1 + |node| + 8, u.dataPort, 2);
  }

  lemma DecodeUpdateExact(d: seq<byte>, off: nat)
    requires DecodeUpdate(d, off).Accepted?
    ensures UpdateFits(DecodeUpdate(d, off).value)
    ensures DecodeUpdate(d, off).next == off + |EncodeUpdate(DecodeUpdate(d, off).value)| <= |d|
    ensures At(d, off, EncodeUpdate(DecodeUpdate(d, off).value))
  {
    hide BigEndian, Number, EncodeId, DecodeId, At;
    Pow256Values();
    var u := DecodeUpdate(d, off).value;
    var code, node, inc, port := [UpdateCode(u.typ) as byte], EncodeId(u.node), BigEndian(u.incarnation, 8),
        BigEndian(u.dataPort, 2);
    DecodeIdExact(d, off + 1);
    ReadIntExact(d, off + 1 + |node|, 8);
    ReadIntExact(d, off + 1 + |node| + 8, 2);
    AtShort(d, off);
    AtSplit(d, off, code, node);
    AtSplit(d, off, code + node, inc);
    AtSplit(d, off, code + node + inc, port);
  }

  function EncodeUpdates(us: seq<Update>): seq<byte> {
    if us == [] then [] else EncodeUpdates(us[..|us| - 1]) + EncodeUpdate(us[|us| - 1])
  }

  /** `n` updates, one after the other. */
  function DecodeUpdates(d: seq<byte>, off: nat, n: nat): Parsed<seq<Update>> {
    if n == 0 then Accepted([], off)
    else
      match DecodeUpdates(d, off, n - 1)
      case Rejected => Rejected
      case Accepted(us, o) =>
        match DecodeUpdate(d, o)
        case Rejected => Rejected
        case Accepted(u, next) => Accepted(us + [u], next)
  }

  ghost predicate UpdatesFit(us: seq<Update>) { forall i :: 0 <= i < |us| ==> UpdateFits(us[i]) }

  lemma {:induction false} DecodeUpdatesAt(d: seq<byte>, off: nat, us: seq<Update>)
    requires UpdatesFit(us) && At(d, off, EncodeUpdates(us))
    ensures DecodeUpdates(d, off, |us|) == Accepted(us, off + |EncodeUpdates(us)|)
  {
    hide EncodeUpdate, DecodeUpdate, At, UpdateFits;
    if us == [] {
    } else {
      var n := |us| - 1;
      AtSplit(d, off, EncodeUpdates(us[..n]), EncodeUpdate(us[n]));
      DecodeUpdatesAt(d, off, us[..n]);
      assert EncodeUpdates(us) == EncodeUpdates(us[..n]) + EncodeUpdate(us[n]);
      DecodeUpdateAt(d, off + |EncodeUpdates(us[..n])|, us[n]);
      assert us == us[..n] + [us[n]];
    }
  }

  lemma {:induction false} DecodeUpdatesExact(d: seq<byte>, off: nat, n: nat)
    requires off <= |d| && DecodeUpdates(d, off, n).Accepted?
    ensures UpdatesFit(DecodeUpdates(d, off, n).value) && |DecodeUpdates(d, off, n).value| == n
    ensures DecodeUpdates(d, off, n).next == off + |EncodeUpdates(DecodeUpdates(d, off, n).value)| <= |d|
    ensures At(d, off, EncodeUpdates(DecodeUpdates(d, off, n).value))
  {
    hide EncodeUpdate, DecodeUpdate, At;
    if n == 0 {
      AtShort(d, off);
    } else {
      DecodeUpdatesExact(d, off, n - 1);
      var us, o := DecodeUpdates(d, off, n - 1).value, DecodeUpdates(d, off, n - 1).next;
      DecodeUpdateExact(d, o);
      var u := DecodeUpdate(d, o).value;
      assert (us + [u])[..n - 1] == us;
      AtSplit(d, off, EncodeUpdates(us), EncodeUpdate(u));
    }
  }

  // ---------------------------------------------------------------- messages

  function MessageCode(t: MessageType): byte {
    match t
    case Ping => 1
    case Ack => 2
    case PingReq => 3
  }

  function EncodeTarget(m: Message): seq<byte> {
    if m.typ.PingReq? && m.target.Some? then EncodeId(m.target.value) else []
  }

  function EncodeHead(m: Message): seq<byte> { [MessageCode(m.typ)] + BigEndian(m.seqNum, 4) + EncodeId(m.sender) }

  /** `SwimMessage::serialize` */
  function Encode(m: Message): seq<byte> {
    EncodeHead(m) + EncodeTarget(m) + BigEndian(|m.updates|, 2) + EncodeUpdates(m.updates)
  }

  datatype Head = Head(typ: MessageType, seqNum: nat, sender: NodeId)

  function DecodeHead(d: seq<byte>, off: nat): Parsed<Head> {
    if off >= |d| || d[off] < 1 || d[off] > 3 then Rejected
    else
      match ReadInt(d, off + 1, 4)
      case Rejected => Rejected
      case Accepted(s, o) =>
        match DecodeId(d, o)
        case Rejected => Rejected
        case Accepted(sender, next) =>
          Accepted(Head(if d[off] == 1 then Ping else if d[off] == 2 then Ack else PingReq, s, sender), next)
  }

  function DecodeTarget(d: seq<byte>, off: nat, typ: MessageType): Parsed<Option<NodeId>> {
    if typ.PingReq? then
      match DecodeId(d, off)
      case Rejected => Rejected
      case Accepted(id, next) => Accepted(Some(id), next)
    else Accepted(None, off)
  }

  /** `SwimMessage::deserialize`, with the offset at which it stopped reading. */
  function Decode(d: seq<byte>): Parsed<Message> {
    match DecodeHead(d, 0)
    case Rejected => Rejected
    case Accepted(h, o) =>
      match DecodeTarget(d, o, h.typ)
      case Rejected => Rejected
      case Accepted(target, o2) =>
        match ReadInt(d, o2, 2)
        case Rejected => Rejected
        case Accepted(n, o3) =>
          match DecodeUpdates(d, o3, n)
          case Rejected => Rejected
          case Accepted(us, next) => Accepted(Message(h.typ, h.seqNum, h.sender, target, us), next)
  }

  /** The message fits the wire format: lengths in 16 bits, numbers in their C++ types, and a target
      exactly on a PingReq. */
  ghost predicate Fits(m: Message) {
    && m.seqNum < 0x1_0000_0000 && IdFits(m.sender)
    && (m.target.Some? <==> m.typ.PingReq?) && (m.target.Some? ==> IdFits(m.target.value))
    && |m.updates| < 0x1_0000 && UpdatesFit(m.updates)
  }

  lemma DecodeHeadAt(d: seq<byte>, m: Message)
    requires m.seqNum < 0x1_0000_0000 && IdFits(m.sender) && At(d, 0, EncodeHead(m))
    ensures DecodeHead(d, 0) == Accepted(Head(m.typ, m.seqNum, m.sender), |EncodeHead(m)|)
  {
    Pow256Values();
    var code, s := [MessageCode(m.typ)], BigEndian(m.seqNum, 4);
    AtSplit(d, 0, code + s, EncodeId(m.sender));
    AtSplit(d, 0, code, s);
    assert d[0..1][0] == d[0];
    ReadIntAt(d, 1, m.seqNum, 4);
    DecodeIdAt(d, 5, m.sender);
  }

  lemma DecodeHeadExact(d: seq<byte>, m: Message)
    requires DecodeHead(d, 0).Accepted? && DecodeHead(d, 0).value == Head(m.typ, m.seqNum, m.sender)
    ensures m.seqNum < 0x1_0000_0000 && IdFits(m.sender) && At(d, 0, EncodeHead(m))
    ensures DecodeHead(d, 0).next == |EncodeHead(m)| <= |d|
  {
    Pow256Values();
    var code, s := [MessageCode(m.typ)], BigEndian(m.seqNum, 4);
    ReadIntExact(d, 1, 4);
    DecodeIdExact(d, 5);
    assert d[0..1] == code;
    AtSplit(d, 0, code, s);
    AtSplit(d, 0, code + s, EncodeId(m.sender));
  }

  /** Decoding undoes encoding, whatever bytes follow. */
  lemma DecodeEncoded(m: Message, rest: seq<byte>)
    requires Fits(m)
    ensures Decode(Encode(m) + rest) == Accepted(m, |Encode(m)|)
  {
    hide BigEndian, Number, EncodeId, DecodeId, EncodeHead, DecodeHead, EncodeUpdates, DecodeUpdates;
    Pow256Values();
    var d := Encode(m) + rest;
    var head, target, count, us := EncodeHead(m), EncodeTarget(m), BigEndian(|m.updates|, 2), EncodeUpdates(m.updates);
    assert At(d, 0, Encode(m));
    AtSplit(d, 0, head + target + count, us);
    AtSplit(d, 0, head + target, count);
    AtSplit(d, 0, head, target);
    DecodeHeadAt(d, m);
    if m.typ.PingReq? { DecodeIdAt(d, |head|, m.target.value); }
    ReadIntAt(d, |head| + |target|, |m.updates|, 2);
    DecodeUpdatesAt(d, |head| + |target| + 2, m.updates);
  }

  /** Whatever is accepted fits the format and encodes to exactly the bytes that were read. */
  lemma AcceptedIsEncoding(d: seq<byte>)
    requires Decode(d).Accepted?
    ensures Fits(Decode(d).value)
    ensures Decode(d).next == |Encode(Decode(d).value)| <= |d| && Encode(Decode(d).value) == d[..Decode(d).next]
  {
    hide BigEndian, Number, EncodeId, DecodeId, EncodeHead, DecodeHead, EncodeUpdates, DecodeUpdates;
    Pow256Values();
    var m := Decode(d).value;
    var head, target, count, us := EncodeHead(m), EncodeTarget(m), BigEndian(|m.updates|, 2), EncodeUpdates(m.updates);
    DecodeHeadExact(d, m);
    if m.typ.PingReq? { DecodeIdExact(d, |head|); }
    assert At(d, |head|, target);
    ReadIntExact(d, |head| + |target|, 2);
    DecodeUpdatesExact(d, |head| + |target| + 2, ReadInt(d, |head| + |target|, 2).value);
    AtSplit(d, 0, head, target);
    AtSplit(d, 0, head + target, count);
    AtSplit(d, 0, head + target + count, us);
  }

  lemma PrefixDecodes(e: seq<byte>, k: nat, m: Message)
    requires k <= |e| && Fits(m) && |Encode(m)| <= k && Encode(m) == e[..k][..|Encode(m)|]
    ensures Decode(e) == Accepted(m, |Encode(m)|)
  {
    hide Encode, Decode;
    var n := |Encode(m)|;
    assert e == Encode(m) + e[n..];
    DecodeEncoded(m, e[n..]);
  }

  /** Every strict prefix of an encoding is rejected. */
  lemma PrefixRejected(m: Message, k: nat)
    requires Fits(m) && k < |Encode(m)|
    ensures Decode(Encode(m)[..k]).Rejected?
  {
    hide Encode, Decode;
    var e := Encode(m);
    DecodeEncoded(m, []);
    assert e + [] == e;
    if Decode(e[..k]).Accepted? {
      AcceptedIsEncoding(e[..k]);
      PrefixDecodes(e, k, Decode(e[..k]).value);
    }
  }

  /** The round trip succeeds exactly for messages that fit the format. */
  lemma RoundTripIffFits(m: Message)
    ensures (exists n :: Decode(Encode(m)) == Accepted(m, n)) <==> Fits(m)
  {
    if Fits(m) {
      DecodeEncoded(m, []);
      assert Encode(m) + [] == Encode(m);
    } else if Decode(Encode(m)).Accepted? {
      AcceptedIsEncoding(Encode(m));
    }
  }

  /** Two messages that fit are never confused. */
  lemma EncodingInjective(m: Message, m': Message)
    requires Fits(m) && Fits(m') && Encode(m) == Encode(m')
    ensures m == m'
  {
    DecodeEncoded(m, []);
    DecodeEncoded(m', []);
  }
}

/** The encoder and decoder as the source runs them: a buffer that grows, an offset that advances. */
module SwimCodecs {
  import opened NodeInfos
  import opened Bytes
  import opened SwimWire

  /** `v >> 8 * k` */
  function Shifted(v: nat, k: nat): nat { if k == 0 then v else Shifted(v, k - 1) / 256 }

  class Writer {
    var buf: seq<byte>

    constructor ()
      ensures buf == []
    {
      buf := [];
    }

    method WriteU8(v: byte)
      modifies this
      ensures buf == old(buf) + [v]
    {
      buf := buf + [v];
    }

    method WriteU16(v: nat)
      modifies this
      ensures buf == old(buf) + BigEndian(v, 2)
    {
      WriteU8((v / 256 % 256) as byte);
      WriteU8((v % 256) as byte);
      assert BigEndian(v, 2) == BigEndian(v / 256, 1) + [(v % 256) as byte];
      assert BigEndian(v / 256, 1) == BigEndian(v / 256 / 256, 0) + [(v / 256 % 256) as byte];
    }

    method WriteU32(v: nat)
      modifies this
      ensures buf == old(buf) + BigEndian(v, 4)
    {
      WriteU16(v / 0x1_0000);
      WriteU16(v);
      BigEndianSplit(v, 2);
    }

    method WriteU64(v: nat)
      modifies this
      ensures buf == old(buf) + BigEndian(v, 8)
    {
      var k := 8;
      while k > 0
        invariant 0 <= k <= 8
        invariant buf == old(buf) + BigEndian(Shifted(v, k), 8 - k)
      {
        k := k - 1;
        WriteU8((Shifted(v, k) % 256) as byte);
      }
    }

    method WriteId(id: NodeId)
      modifies this
      ensures buf == old(buf) + EncodeId(id)
    {
      WriteU16(|id.host|);
      buf := buf + id.host;
      WriteU16(id.gossipPort);
    }

    method WriteUpdate(u: Update)
      modifies this
      ensures buf == old(buf) + EncodeUpdate(u)
    {
      hide BigEndian, EncodeId;
      WriteU8(UpdateCode(u.typ) as byte);
      WriteId(u.node);
      WriteU64(u.incarnation);
      WriteU16(u.dataPort);
    }
  }

  lemma BigEndianSplit(v: nat, n: nat)
    ensures BigEndian(v, n + 2) == BigEndian(v / 0x1_0000, n) + BigEndian(v, 2)
  {
  }

  method Serialize(m: Message) returns (buf: seq<byte>)
    ensures buf == Encode(m)
  {
    hide BigEndian, EncodeId, EncodeUpdate;
    var w := new Writer();
    w.WriteU8(MessageCode(m.typ));
    w.WriteU32(m.seqNum);
    w.WriteId(m.sender);
    assert w.buf == EncodeHead(m);
    if m.typ.PingReq? && m.target.Some? {
      w.WriteId(m.target.value);
    }
    assert w.buf == EncodeHead(m) + EncodeTarget(m);
    w.WriteU16(|m.updates|);
    ghost var front := w.buf;
    for i := 0 to |m.updates|
      invariant w.buf == front + EncodeUpdates(m.updates[..i])
    {
      assert m.updates[..i + 1][..i] == m.updates[..i];
      w.WriteUpdate(m.updates[i]);
    }
    assert m.updates[..|m.updates|] == m.updates;
    buf := w.buf;
  }

  class Reader {
    const data: seq<byte>
    var off: nat

    constructor (data: seq<byte>)
      ensures this.data == data && off == 0
    {
      this.data, off := data, 0;
    }

    method ReadU8() returns (r: Option<byte>)
      modifies this
      ensures if old(off) < |data| then r == Some(data[old(off)]) && off == old(off) + 1 else r == None
    {
      if off >= |data| { return None; }
      r := Some(data[off]);
      off := off + 1;
    }

    /** `read_u16`, `read_u32` and `read_u64`: shift in one byte after the other. */
    method ReadBytes(n: nat) returns (r: Option<nat>)
      modifies this
      ensures match ReadInt(data, old(off), n)
              case Accepted(v, next) => r == Some(v) && off == next
              case Rejected => r == None
    {
      if off + n > |data| { return None; }
      var v := 0;
      for i := 0 to n
        invariant v == Number(data[off..off + i])
      {
        assert data[off..off + i + 1][..i] == data[off..off + i];
        v := v * 256 + data[off + i] as nat;
      }
      r := Some(v);
      off := off + n;
    }

    method ReadId() returns (r: Option<NodeId>)
      modifies this
      ensures match DecodeId(data, old(off))
              case Accepted(id, next) => r == Some(id) && off == next
              case Rejected => r == None
    {
      var len := ReadBytes(2);
      if len.None? { return None; }
      if off + len.value > |data| { return None; }
      var host := data[off..off + len.value];
      off := off + len.value;
      var port := ReadBytes(2);
      if port.None? { return None; }
      r := Some(NodeId(host, port.value % 0x1_0000));
    }

    method ReadUpdate() returns (r: Option<Update>)
      modifies this
      ensures match DecodeUpdate(data, old(off))
              case Accepted(u, next) => r == Some(u) && off == next
              case Rejected => r == None
    {
      var code := ReadU8();
      if code.None? { return None; }
      if code.value > 4 { return None; }
      var node := ReadId();
      if node.None? { return None; }
      var inc := ReadBytes(8);
      if inc.None? { return None; }
      var port := ReadBytes(2);
      if port.None? { return None; }
      r := Some(Update(TypeOfCode(code.value as nat), node.value, inc.value, port.value % 0x1_0000));
    }
  }

  method Deserialize(data: seq<byte>) returns (r: Option<Message>)
    ensures r == if Decode(data).Accepted? then Some(Decode(data).value) else None
  {
    hide DecodeId, DecodeUpdate, ReadInt;
    var input := new Reader(data);
    var code := input.ReadU8();
    if code.None? { return None; }
    if code.value < 1 || code.value > 3 { return None; }
    var seqNum := input.ReadBytes(4);
    if seqNum.None? { return None; }
    var sender := input.ReadId();
    if sender.None? { return None; }
    var typ := if code.value == 1 then Ping else if code.value == 2 then Ack else PingReq;
    var target: Option<NodeId> := None;
    if typ.PingReq? {
      target := input.ReadId();
      if target.None? { return None; }
    }
    var count := input.ReadBytes(2);
    if count.None? { return None; }
    var updates: seq<Update> := [];
    ghost var o := input.off;
    for i := 0 to count.value
      invariant DecodeUpdates(data, o, i) == Accepted(updates, input.off)
    {
      var u := input.ReadUpdate();
      if u.None? {
        RejectedStays(data, o, i + 1, count.value);
        return None;
      }
      updates := updates + [u.value];
    }
    r := Some(Message(typ, seqNum.value, sender.value, target, updates));
  }

  lemma {:induction false} RejectedStays(d: seq<byte>, off: nat, i: nat, n: nat)
    requires DecodeUpdates(d, off, i).Rejected? && i <= n
    ensures DecodeUpdates(d, off, n).Rejected?
  {
    if i == n {
    } else {
      RejectedStays(d, off, i, n - 1);
    }
  }
}
