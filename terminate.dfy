/// `NowTerminateMsg`: the end of a session, with the disconnection status.
module Terminate {
  import opened Wire
  import opened Errors
  import opened Derived
  import Status

  const Ty := "NowTerminateMsg"

  datatype NowTerminateMsg = NowTerminateMsg(flags: u32, status: Status.NowStatus)

  /// `new`: no flag, the given status.
  function New(status: Status.NowStatus): (m: NowTerminateMsg)
    ensures m.flags == 0 && m.status == status
  {
    NowTerminateMsg(0, status)
  }

  /// `Default`: the default status.
  const DefaultMsg := New(Status.DefaultStatus)

  function Encode(m: NowTerminateMsg): (e: Bytes)
    ensures |e| == 8
  {
    U32(m.flags) + Status.Encode(m.status)
  }

  function Decode(b: Bytes): (r: Result<Step<NowTerminateMsg>>)
    ensures r.Ok? <==> 8 <= |b|
    ensures r.Ok? ==> r.value.rest == b[8..] && Encode(r.value.value) == b[..8]
                      && Status.Consistent(r.value.value.status)
  {
    var flags :- U32Field(Ty, "u32", "flags", b);
    var status :- InField(Ty, "NowStatus < DisconnectStatusCode >", "status", Status.Decode(flags.rest));
    U32FieldReads(Ty, "u32", "flags", b);
    assert b[..8] == b[..4] + flags.rest[..4];
    Ok(Step(NowTerminateMsg(flags.value, status.value), status.rest))
  }

  /// Decoding an encoded termination with a consistent status gives it back.
  lemma RoundTrip(m: NowTerminateMsg, rest: Bytes)
    requires Status.Consistent(m.status)
    ensures Decode(Encode(m) + rest) == Ok(Step(m, rest))
  {
    assert Encode(m) + rest == U32(m.flags) + (Status.Encode(m.status) + rest);
    U32RoundTrip(Ty, "u32", "flags", m.flags, Status.Encode(m.status) + rest);
    Status.RoundTrip(m.status, rest);
  }

  /// `TERMINATE_MSG`
  const TerminateBytes: Bytes := [0x00, 0x00, 0x00, 0x00] + [0x01, 0x00, 0x01, 0x00]

  /// A termination by the local user with an informational disconnection
  /// status encodes to the vector, which decodes back to it.
  lemma TerminateVector()
    ensures var s := Status.Build(Status.Info, Status.Disconnect, Status.DisconnectToU16(Status.ByLocalUser));
            Encode(New(s)) == TerminateBytes && Decode(TerminateBytes) == Ok(Step(New(s), []))
            && Status.DisconnectFromU16(Decode(TerminateBytes).value.value.status.code) == Status.ByLocalUser
  {
    var s := Status.Build(Status.Info, Status.Disconnect, Status.DisconnectToU16(Status.ByLocalUser));
    assert s.repr == 0x0001_0001;
    Pow256Widths();
    LeBytesOfLeValue(U32(0x0001_0001));
    assert Status.Encode(s) == [0x01, 0x00, 0x01, 0x00];
    ZeroEncodings();
    Status.BuildThenParse(Status.Info, Status.Disconnect, 1);
    RoundTrip(New(s), []);
    assert Encode(New(s)) + [] == Encode(New(s));
  }
}
