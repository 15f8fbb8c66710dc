/// `NowActivateMsg`: the client's go-ahead once the channels are set up,
/// a single flags word.
module Activate {
  import opened Wire
  import opened Errors
  import opened Derived

  const Ty := "NowActivateMsg"

  datatype NowActivateMsg = NowActivateMsg(flags: u32)

  /// `Default`: no flag.
  const DefaultMsg := NowActivateMsg(0)

  function Encode(m: NowActivateMsg): (e: Bytes)
    ensures |e| == 4
  {
    U32(m.flags)
  }

  /// The derived decoder; what it reads is the encoding of what it returns.
  function Decode(b: Bytes): (r: Result<Step<NowActivateMsg>>)
    ensures r.Ok? <==> 4 <= |b|
    ensures r.Ok? ==> r.value.rest == b[4..] && Encode(r.value.value) == b[..4]
  {
    var flags :- U32Field(Ty, "u32", "flags", b);
    U32FieldReads(Ty, "u32", "flags", b);
    Ok(Step(NowActivateMsg(flags.value), flags.rest))
  }

  lemma RoundTrip(m: NowActivateMsg, rest: Bytes)
    ensures Decode(Encode(m) + rest) == Ok(Step(m, rest))
  {
    U32RoundTrip(Ty, "u32", "flags", m.flags, rest);
  }

  /// `ACTIVATE_MSG`: the default message is four zero bytes, both ways.
  lemma ActivateVector()
    ensures Encode(DefaultMsg) == [0x00, 0x00, 0x00, 0x00]
    ensures Decode([0x00, 0x00, 0x00, 0x00]) == Ok(Step(DefaultMsg, []))
  {
    ZeroEncodings();
    RoundTrip(DefaultMsg, []);
    assert Encode(DefaultMsg) + [] == Encode(DefaultMsg);
  }
}
