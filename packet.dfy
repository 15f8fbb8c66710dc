/// Packets: a header followed by its body, and `NowPacketAccumulator`,
/// which cuts the bytes received so far into packets.
module Packets {
  import opened Wire
  import opened Errors
  import opened MessageTypes
  import opened ChannelNames
  import Header
  import Derived
  import Messages
  import Negotiate
  import Authenticate

  type NowHeader = Header.NowHeader

  /// `NowBody`: a message, or the payload of a virtual channel.
  datatype NowBody = MessageBody(message: Messages.NowMessage) | ChannelBody(channel: Messages.NowVirtualChannel)

  /// `NowRawPacket`: a header and the bytes after it, left undecoded.
  datatype NowRawPacket = NowRawPacket(header: NowHeader, payload: Bytes)

  /// `NowPacket`
  datatype NowPacket = NowPacket(header: NowHeader, body: NowBody)

  // ---------------------------------------------------------------- NowRawPacket

  /// `NowRawPacket::decode_from`: the header, and every byte after it for
  /// the payload; the cursor is left just after the header.
  function DecodeRaw(b: Bytes): (r: Result<Step<NowRawPacket>>)
    ensures r.Ok? <==> Header.Decode(b).Ok?
    ensures r.Err? ==> r.error == Header.Decode(b).error
    ensures r.Ok? ==> r.value.rest == r.value.value.payload
                      && Header.Encode(r.value.value.header) + r.value.value.payload == b
  {
    var h :- Header.Decode(b);
    assert b == b[..Header.Len(h.value)] + b[Header.Len(h.value)..];
    Ok(Step(NowRawPacket(h.value, h.rest), h.rest))
  }

  /// A raw packet reads back as the header it starts with and everything
  /// after it.
  lemma RawRoundTrip(h: NowHeader, payload: Bytes)
    requires Header.Decodable(h)
    ensures DecodeRaw(Header.Encode(h) + payload) == Ok(Step(NowRawPacket(h, payload), payload))
  {
    Header.RoundTrip(h, payload);
  }

  // ---------------------------------------------------------------- NowPacket encoding

  predicate BodyEncodable(body: NowBody)
  {
    match body
    case MessageBody(m) => Messages.Encodable(m)
    case ChannelBody(v) => Messages.VirtualChannelEncodable(v)
  }

  /// `Encode for NowBody`: the message's or the channel payload's encoding.
  function EncodeBody(body: NowBody): Result<Bytes>
    requires BodyEncodable(body)
  {
    match body
    case MessageBody(m) => Messages.Encode(m)
    case ChannelBody(v) => Messages.EncodeVirtualChannel(v)
  }

  /// `Encode for NowPacket`: the header's bytes, then the body's; a body
  /// that does not encode fails the packet.
  function Encode(p: NowPacket): (r: Result<Bytes>)
    requires BodyEncodable(p.body)
    ensures r.Ok? <==> EncodeBody(p.body).Ok?
    ensures r.Ok? ==> |r.value| == Header.Len(p.header) + |EncodeBody(p.body).value|
                      && r.value[..Header.Len(p.header)] == Header.Encode(p.header)
  {
    var body :- EncodeBody(p.body);
    var e := Header.Encode(p.header) + body;
    assert e[..Header.Len(p.header)] == Header.Encode(p.header);
    Ok(e)
  }

  /// `encoded_len() as u32`: a length of 2^32 bytes or more wraps.
  function LenU32(n: nat): (r: u32)
    ensures n < 0x1_0000_0000 ==> r == n
  {
    n % 0x1_0000_0000
  }

  /// What a message needs to be put in a packet: an encoding, whose length
  /// the header records.
  predicate MessageEncodes(m: Messages.NowMessage)
  {
    Messages.Encodable(m) && Messages.Encode(m).Ok?
  }

  /// `NowPacket::from_message`, corrected: a header with the message's type
  /// and the whole length of its encoding (the source's long header keeps
  /// only its low 15 bits), and the message as the body.
  function FromMessage(m: Messages.NowMessage): (p: NowPacket)
    requires MessageEncodes(m)
    ensures p.body == MessageBody(m)
    ensures Header.BodyTypeOf(p.header) == Message(Messages.GetType(m))
    ensures |Messages.Encode(m).value| < 0x1_0000_0000 ==> Header.BodyLen(p.header) == |Messages.Encode(m).value|
    ensures Header.FlagsOf(p.header) == 0
  {
    var t := Message(Messages.GetType(m));
    NowPacket(Header.New(t, LenU32(|Messages.Encode(m).value|)), MessageBody(m))
  }

  predicate ChannelEncodes(v: Messages.NowVirtualChannel)
  {
    Messages.VirtualChannelEncodable(v) && Messages.EncodeVirtualChannel(v).Ok?
  }

  /// `NowPacket::from_virt_channel`, corrected: a header with the channel
  /// id, the channel flag and the whole length of the payload's encoding.
  function FromVirtChannel(v: Messages.NowVirtualChannel, id: u8): (p: NowPacket)
    requires ChannelEncodes(v)
    ensures p.body == ChannelBody(v)
    ensures Header.BodyTypeOf(p.header) == BodyType.VirtualChannel(id)
    ensures Header.HasChannelFlag(Header.FlagsOf(p.header))
    ensures |Messages.EncodeVirtualChannel(v).value| < 0x1_0000_0000
            ==> Header.BodyLen(p.header) == |Messages.EncodeVirtualChannel(v).value|
  {
    var t := BodyType.VirtualChannel(id);
    NowPacket(Header.New(t, LenU32(|Messages.EncodeVirtualChannel(v).value|)), ChannelBody(v))
  }

  // ---------------------------------------------------------------- NowPacket decoding

  /// The error for a channel id the context has no name for.
  const UnknownChannel := ProtoError(Decoding("NowPacket"), Some(Plain("channel name not found in channels context")), None)

  /// `NowPacket::decode_from`: the body's bytes decoded by the header's
  /// body type, a channel's by the name the context gives its id. Bytes a
  /// typed decoder leaves unread are ignored.
  function DecodeFrom(h: NowHeader, body: Bytes, channels: map<u8, ChannelName>): (r: Result<NowPacket>)
    ensures r.Ok? ==> r.value.header == h
    ensures r.Ok? ==> (r.value.body.MessageBody? <==> Header.BodyTypeOf(h).Message?)
    ensures Header.BodyTypeOf(h).VirtualChannel? && Header.BodyTypeOf(h).id !in channels ==> r == Err(UnknownChannel)
    ensures Header.BodyTypeOf(h).VirtualChannel? && Header.BodyTypeOf(h).id in channels && r.Ok?
            ==> Messages.GetName(r.value.body.channel) == channels[Header.BodyTypeOf(h).id]
  {
    match Header.BodyTypeOf(h)
    case Message(ty) =>
      var m :- Messages.Decode(ty, body);
      Ok(NowPacket(h, MessageBody(m.value)))
    case VirtualChannel(id) =>
      var known := if id in channels then Some(channels[id]) else None;
      var name :- OrDesc(OptionChain(known, Decoding("NowPacket")), Plain("channel name not found in channels context"));
      var v :- Messages.DecodeVirtualChannel(name, body);
      Ok(NowPacket(h, ChannelBody(v.value)))
  }

  function Min(a: nat, b: nat): nat
  {
    if a <= b then a else b
  }

  /// `NowPacket::read_from` over the bytes a reader yields: the header,
  /// then at most `body_len` more bytes (a reader that ends early yields
  /// fewer, which is not an error), decoded as the body.
  function ReadFrom(input: Bytes, channels: map<u8, ChannelName>): (r: Result<NowPacket>)
    ensures Header.Decode(input).Err? ==> r == Err(Header.Decode(input).error)
  {
    var h :- Header.Decode(input);
    DecodeFrom(h.value, h.rest[..Min(Header.BodyLen(h.value), |h.rest|)], channels)
  }

  /// A stream that ends before the body does gives the decoder the bytes
  /// that were there, with no error for the missing ones; one that goes on
  /// gives it exactly the body.
  lemma ReadFromTakesBody(h: NowHeader, body: Bytes, more: Bytes, channels: map<u8, ChannelName>)
    requires Header.Decodable(h)
    requires |body| < Header.BodyLen(h) ==> more == []
    requires |body| >= Header.BodyLen(h) ==> |body| == Header.BodyLen(h)
    ensures ReadFrom(Header.Encode(h) + body + more, channels) == DecodeFrom(h, body, channels)
  {
    Header.RoundTrip(h, body + more);
    assert Header.Encode(h) + body + more == Header.Encode(h) + (body + more);
    assert (body + more)[..Min(Header.BodyLen(h), |body + more|)] == body;
  }

  // ---------------------------------------------------------------- NowPacketAccumulator

  /// A packet cut out of the stream: its header and its body's bytes.
  datatype Frame = Frame(header: NowHeader, body: Bytes)

  /// What `next_packet` cuts out at `cursor`, and where it leaves the
  /// cursor: nothing until six bytes are there past the cursor (the long
  /// header's size) and then the whole packet; otherwise the header and
  /// the body's bytes, with the cursor moved past them. The header is read
  /// from exactly six bytes, which never fails, so the error branch is
  /// never taken.
  function NextFrame(buffer: Bytes, cursor: nat): (r: (Option<Result<Frame>>, nat))
    requires cursor <= |buffer|
    ensures r.1 <= |buffer|
    ensures r.0.None? <==> r.1 == cursor
    ensures r.0.Some? ==> r.0.value.Ok? && r.1 == cursor + Header.PacketLen(r.0.value.value.header)
    ensures r.0.Some? ==> buffer[cursor..r.1] == Header.Encode(r.0.value.value.header) + r.0.value.value.body
  {
    if |buffer| < cursor + Header.LongSize then (None, cursor)
    else
      match Header.Decode(buffer[cursor..cursor + Header.LongSize])
      case Err(e) => (Some(Err(e)), cursor)
      case Ok(s) =>
        var h := s.value;
        var packetLen := Header.PacketLen(h);
        if |buffer| >= cursor + packetLen then
          FrameSlices(buffer, cursor, Header.Len(h), packetLen);
          (Some(Ok(Frame(h, buffer[cursor + Header.Len(h)..cursor + packetLen]))), cursor + packetLen)
        else (None, cursor)
  }

  /// A frame's bytes are its header's bytes followed by its body's.
  lemma FrameSlices(buffer: Bytes, cursor: nat, len: nat, packetLen: nat)
    requires len <= Header.LongSize && len <= packetLen && cursor + Header.LongSize <= |buffer|
    requires cursor + packetLen <= |buffer|
    ensures buffer[cursor..cursor + packetLen]
            == buffer[cursor..cursor + Header.LongSize][..len] + buffer[cursor + len..cursor + packetLen]
  {
  }

  /// The packet `next_packet` returns for what it cut out: the body
  /// decoded under the header.
  function Decoded(f: Option<Result<Frame>>, channels: map<u8, ChannelName>): Option<Result<NowPacket>>
  {
    match f
    case None => None
    case Some(Err(e)) => Some(Err(e))
    case Some(Ok(Frame(h, body))) => Some(DecodeFrom(h, body, channels))
  }

  /// Past the cursor, the stream holds a whole packet (and at least six
  /// bytes): its header and exactly its body's bytes are cut out, and the
  /// cursor moves to the byte after it.
  lemma NextFindsPacket(prefix: Bytes, h: NowHeader, body: Bytes, more: Bytes)
    requires Header.Decodable(h) && Header.BodyLen(h) == |body|
    requires Header.LongSize <= Header.Len(h) + |body| + |more|
    ensures NextFrame(prefix + Header.Encode(h) + body + more, |prefix|)
         == (Some(Ok(Frame(h, body))), |prefix| + Header.PacketLen(h))
  {
    var buffer := prefix + Header.Encode(h) + body + more;
    var tail := (body + more)[..Header.LongSize - Header.Len(h)];
    assert buffer[|prefix|..|prefix| + Header.LongSize] == Header.Encode(h) + tail;
    Header.RoundTrip(h, tail);
    assert buffer[|prefix| + Header.Len(h)..|prefix| + Header.PacketLen(h)] == body;
  }

  /// Past the cursor, the stream holds a header and only part of its body:
  /// nothing is cut out and the cursor stays.
  lemma NextWaitsForBody(prefix: Bytes, h: NowHeader, partial: Bytes)
    requires Header.Decodable(h) && |partial| < Header.BodyLen(h)
    ensures NextFrame(prefix + Header.Encode(h) + partial, |prefix|) == (None, |prefix|)
  {
    var buffer := prefix + Header.Encode(h) + partial;
    if Header.LongSize <= |buffer| - |prefix| {
      var tail := partial[..Header.LongSize - Header.Len(h)];
      assert buffer[|prefix|..|prefix| + Header.LongSize] == Header.Encode(h) + tail;
      Header.RoundTrip(h, tail);
    }
  }

  /// A whole packet shorter than six bytes (a short header and a body of
  /// at most one byte) at the end of the stream is not cut out until more
  /// bytes arrive.
  lemma ShortPacketWaits(prefix: Bytes, h: NowHeader, body: Bytes)
    requires h.Short? && Header.BodyLen(h) == |body| && |body| < 2
    ensures NextFrame(prefix + Header.Encode(h) + body, |prefix|) == (None, |prefix|)
  {
  }

  /// The packet `from_message` builds for a well-formed message: its
  /// header reads back from its bytes, which are followed by the message's
  /// encoding.
  lemma MessagePacketBytes(m: Messages.NowMessage)
    requires Messages.WellFormed(m) && (m.CustomMsg? ==> MessageTypes.Canonical(m.ty))
    requires MessageEncodes(m) && |Messages.Encode(m).value| < 0x0800_0000
    ensures Header.Decodable(FromMessage(m).header)
    ensures Header.BodyLen(FromMessage(m).header) == |Messages.Encode(m).value|
    ensures Encode(FromMessage(m)) == Ok(Header.Encode(FromMessage(m).header) + Messages.Encode(m).value)
  {
    Header.NewRoundTrip(Message(Messages.GetType(m)), |Messages.Encode(m).value|, []);
  }

  /// The body of a well-formed message's packet decodes back to the
  /// message.
  lemma MessageBodyReadsBack(m: Messages.NowMessage, channels: map<u8, ChannelName>)
    requires Messages.WellFormed(m) && MessageEncodes(m)
    ensures DecodeFrom(FromMessage(m).header, Messages.Encode(m).value, channels)
         == Ok(NowPacket(FromMessage(m).header, MessageBody(Messages.AsDecoded(m))))
  {
    Messages.RoundTrip(m, []);
    assert Messages.Encode(m).value + [] == Messages.Encode(m).value;
  }

  /// A well-formed message put in a packet with `from_message` and encoded
  /// is found in the stream, reads back as the message, and the cursor
  /// moves past it.
  lemma MessagePacketReadsBack(prefix: Bytes, m: Messages.NowMessage, more: Bytes, channels: map<u8, ChannelName>)
    requires Messages.WellFormed(m) && (m.CustomMsg? ==> MessageTypes.Canonical(m.ty))
    requires MessageEncodes(m) && |Messages.Encode(m).value| < 0x0800_0000
    requires Header.LongSize <= Header.Len(FromMessage(m).header) + |Messages.Encode(m).value| + |more|
    ensures Encode(FromMessage(m)).Ok?
    ensures NextFrame(prefix + Encode(FromMessage(m)).value + more, |prefix|).1 == |prefix| + |Encode(FromMessage(m)).value|
    ensures Decoded(NextFrame(prefix + Encode(FromMessage(m)).value + more, |prefix|).0, channels)
         == Some(Ok(NowPacket(FromMessage(m).header, MessageBody(Messages.AsDecoded(m)))))
  {
    var body := Messages.Encode(m).value;
    var h := FromMessage(m).header;
    MessagePacketBytes(m);
    assert prefix + Encode(FromMessage(m)).value + more == prefix + Header.Encode(h) + body + more;
    NextFindsPacket(prefix, h, body, more);
    MessageBodyReadsBack(m, channels);
  }

  /// The packet `from_virt_channel` builds for a well-formed channel
  /// payload: its header reads back from its bytes, which are followed by
  /// the payload's encoding.
  lemma ChannelPacketBytes(v: Messages.NowVirtualChannel, id: u8)
    requires ChannelEncodes(v) && |Messages.EncodeVirtualChannel(v).value| < 0x0800_0000
    ensures Header.Decodable(FromVirtChannel(v, id).header)
    ensures Header.BodyLen(FromVirtChannel(v, id).header) == |Messages.EncodeVirtualChannel(v).value|
    ensures Encode(FromVirtChannel(v, id)) == Ok(Header.Encode(FromVirtChannel(v, id).header) + Messages.EncodeVirtualChannel(v).value)
  {
    Header.NewRoundTrip(BodyType.VirtualChannel(id), |Messages.EncodeVirtualChannel(v).value|, []);
  }

  /// The body of a well-formed channel payload's packet decodes back to
  /// the payload when the context maps the id to the channel's name.
  lemma ChannelBodyReadsBack(v: Messages.NowVirtualChannel, id: u8, channels: map<u8, ChannelName>)
    requires Messages.VirtualChannelWellFormed(v) && ChannelEncodes(v)
    requires id in channels && channels[id] == Messages.GetName(v)
    ensures DecodeFrom(FromVirtChannel(v, id).header, Messages.EncodeVirtualChannel(v).value, channels)
         == Ok(NowPacket(FromVirtChannel(v, id).header, ChannelBody(Messages.VirtualChannelAsDecoded(v))))
  {
    Messages.VirtualChannelRoundTrip(v, []);
    assert Messages.EncodeVirtualChannel(v).value + [] == Messages.EncodeVirtualChannel(v).value;
  }

  /// A well-formed channel payload put in a packet with
  /// `from_virt_channel`, under an id the context maps to the channel's
  /// name, is found in the stream and reads back as the payload.
  lemma ChannelPacketReadsBack(prefix: Bytes, v: Messages.NowVirtualChannel, id: u8, more: Bytes,
                               channels: map<u8, ChannelName>)
    requires Messages.VirtualChannelWellFormed(v) && id in channels && channels[id] == Messages.GetName(v)
    requires ChannelEncodes(v) && |Messages.EncodeVirtualChannel(v).value| < 0x0800_0000
    requires Header.LongSize <= Header.Len(FromVirtChannel(v, id).header) + |Messages.EncodeVirtualChannel(v).value| + |more|
    ensures Encode(FromVirtChannel(v, id)).Ok?
    ensures NextFrame(prefix + Encode(FromVirtChannel(v, id)).value + more, |prefix|).1
         == |prefix| + |Encode(FromVirtChannel(v, id)).value|
    ensures Decoded(NextFrame(prefix + Encode(FromVirtChannel(v, id)).value + more, |prefix|).0, channels)
         == Some(Ok(NowPacket(FromVirtChannel(v, id).header, ChannelBody(Messages.VirtualChannelAsDecoded(v)))))
  {
    var body := Messages.EncodeVirtualChannel(v).value;
    var h := FromVirtChannel(v, id).header;
    ChannelPacketBytes(v, id);
    var bytes := Encode(FromVirtChannel(v, id)).value;
    assert bytes == Header.Encode(h) + body && |bytes| == Header.PacketLen(h);
    assert prefix + bytes + more == prefix + Header.Encode(h) + body + more;
    NextFindsPacket(prefix, h, body, more);
    ChannelBodyReadsBack(v, id, channels);
    assert Decoded(Some(Ok(Frame(h, body))), channels) == Some(DecodeFrom(h, body, channels));
  }

  // ---------------------------------------------------------------- the accumulator test

  /// `NEGOTIATE_PACKET`: a short header for a negotiation of seven bytes,
  /// then the negotiation offering SRP and PFP.
  const NegotiatePacket: Bytes := [0x07, 0x00, 0x02, 0x80] + [0x01, 0x00, 0x00, 0x00, 0x02, 0x02, 0x01]

  const NegotiateHeader := Header.New(Message(MessageTypes.Negotiate), 7)

  const NegotiateBody := Negotiate.NewWithAuthList(1, [Authenticate.Srp, Authenticate.Pfp])

  /// The packet's header is the one `new` builds, and its body is the
  /// negotiation's encoding.
  lemma NegotiatePacketBytes()
    ensures Header.Decodable(NegotiateHeader) && Header.BodyLen(NegotiateHeader) == 7
    ensures NegotiatePacket == Header.Encode(NegotiateHeader) + Negotiate.Encode(NegotiateBody).value
  {
    Pow256Widths();
    LeBytesOfLeValue(Derived.U16(7));
    assert Derived.U16(7) == [0x07, 0x00];
    LeValueOfLeBytes(1, 4);
    assert Derived.U32(1) == [0x01, 0x00, 0x00, 0x00];
    Header.NewRoundTrip(Message(MessageTypes.Negotiate), 7, []);
  }

  /// Six bytes are not the whole packet; eleven are, and nothing follows.
  lemma NegotiatePacketFrames()
    ensures NextFrame(NegotiatePacket[..6], 0) == (None, 0)
    ensures NextFrame(NegotiatePacket, 0) == (Some(Ok(Frame(NegotiateHeader, NegotiatePacket[4..]))), 11)
    ensures NextFrame(NegotiatePacket, 11) == (None, 11)
  {
    NegotiatePacketBytes();
    var h, body := Header.Encode(NegotiateHeader), Negotiate.Encode(NegotiateBody).value;
    assert NegotiatePacket[..6] == [] + h + body[..2];
    NextWaitsForBody([], NegotiateHeader, body[..2]);
    assert NegotiatePacket == [] + h + body + [];
    NextFindsPacket([], NegotiateHeader, body, []);
    assert NegotiatePacket[4..] == body;
  }

  /// The body decodes to the negotiation: SRP extended, SRP then PFP.
  lemma NegotiatePacketBody(channels: map<u8, ChannelName>)
    ensures DecodeFrom(NegotiateHeader, NegotiatePacket[4..], channels)
         == Ok(NowPacket(NegotiateHeader, MessageBody(Messages.NegotiateMsg(NegotiateBody))))
  {
    NegotiatePacketBytes();
    assert NegotiatePacket[4..] == Negotiate.Encode(NegotiateBody).value;
    Negotiate.ReadsBack(NegotiateBody);
    Messages.NegotiateArm(NegotiatePacket[4..]);
  }

  /// `now_packet_decoding_with_accumulator`: six bytes give nothing; with
  /// the other five the negotiation comes out; then nothing more, the
  /// cursor at 11, and purging leaves nothing.
  method NegotiatePacketTest() returns (first: Option<Result<NowPacket>>, second: Option<Result<NowPacket>>,
                                        third: Option<Result<NowPacket>>)
    ensures first == None && third == None
    ensures second == Some(Ok(NowPacket(NegotiateHeader, MessageBody(Messages.NegotiateMsg(NegotiateBody)))))
  {
    var ctx := new Messages.VirtChannelsCtx();
    var acc := new NowPacketAccumulator();
    NegotiatePacketFrames();
    NegotiatePacketBody(map[]);
    acc.Accumulate(NegotiatePacket[..6]);
    assert |acc.buffer| == 6;
    first := acc.NextPacket(ctx);
    acc.Accumulate(NegotiatePacket[6..]);
    assert acc.buffer == NegotiatePacket && acc.cursor == 0;
    second := acc.NextPacket(ctx);
    third := acc.NextPacket(ctx);
    assert acc.cursor == 11;
    acc.PurgeOldPackets();
    assert acc.cursor == 0 && acc.buffer == [];
  }

  /// `NowPacketAccumulator`: the bytes received so far and the position of
  /// the first packet not yet returned.
  class NowPacketAccumulator {
    var buffer: Bytes
    var cursor: nat

    ghost predicate Valid()
      reads this
    {
      cursor <= |buffer|
    }

    /// `new` (and `default`): nothing received.
    constructor ()
      ensures Valid() && buffer == [] && cursor == 0
    {
      buffer := [];
      cursor := 0;
    }

    /// `accumulate`: appends the bytes.
    method Accumulate(bytes: Bytes)
      requires Valid()
      modifies this
      ensures Valid() && buffer == old(buffer) + bytes && cursor == old(cursor)
    {
      buffer := buffer + bytes;
    }

    /// `purge_old_packets`: drops the bytes of the packets already returned.
    method PurgeOldPackets()
      requires Valid()
      modifies this
      ensures Valid() && buffer == old(buffer)[old(cursor)..] && cursor == 0
    {
      buffer := buffer[cursor..];
      cursor := 0;
    }

    /// `next_packet`: the packet at the cursor, if it is all there.
    method NextPacket(ctx: Messages.VirtChannelsCtx) returns (r: Option<Result<NowPacket>>)
      requires Valid()
      modifies this
      ensures Valid() && buffer == old(buffer)
      ensures cursor == NextFrame(old(buffer), old(cursor)).1
      ensures r == Decoded(NextFrame(old(buffer), old(cursor)).0, ctx.entries)
    {
      if |buffer| < cursor + Header.LongSize {
        return None;
      }
      match Header.Decode(buffer[cursor..cursor + Header.LongSize]) {
        case Err(e) =>
          return Some(Err(e));
        case Ok(s) =>
          var h := s.value;
          var packetLen := Header.BodyLen(h) + Header.Len(h);
          if |buffer| >= cursor + packetLen {
            var headerLen := Header.Len(h);
            var body := buffer[cursor + headerLen..cursor + packetLen];
            assert NextFrame(buffer, cursor) == (Some(Ok(Frame(h, body))), cursor + packetLen);
            var packet := DecodeFrom(h, body, ctx.entries);
            cursor := cursor + packetLen;
            return Some(packet);
          } else {
            return None;
          }
      }
    }
  }
}
