/// `NowNegotiateMsg`: the client's flags and the authentication methods it
/// offers, as a `Vec8<AuthType>`.
module Negotiate {
  import opened Wire
  import opened Errors
  import opened Derived
  import Containers
  import Flags
  import opened Authenticate

  const Ty := "NowNegotiateMsg"

  /// `NegotiateFlags`
  const SrpExtended: Flags.Word := 0x0000_0001

  /// `REQUIRED_SIZE`: the flags and an empty list's count.
  const RequiredSize: nat := 5

  datatype NowNegotiateMsg = NowNegotiateMsg(flags: u32, authList: seq<AuthType>)

  /// `new_with_auth_list`
  function NewWithAuthList(flags: u32, authList: seq<AuthType>): (m: NowNegotiateMsg)
    ensures m.flags == flags && m.authList == authList
  {
    NowNegotiateMsg(flags, authList)
  }

  /// `new`: no method offered.
  function New(flags: u32): (m: NowNegotiateMsg)
    ensures m.flags == flags && m.authList == []
  {
    NewWithAuthList(flags, [])
  }

  /// `Default`: SRP extended, no method offered.
  const DefaultMsg := New(1)

  lemma DefaultIsSrpExtended()
    ensures Flags.Has(DefaultMsg.flags, SrpExtended) && DefaultMsg.authList == []
  {
    Flags.LowBitHas(1, SrpExtended);
  }

  /// The bytes of a list of methods, one per method.
  function AuthBytes(xs: seq<AuthType>): (e: Bytes)
    ensures |e| == |xs|
    ensures forall i | 0 <= i < |xs| :: e[i] == AuthTypeToByte(xs[i])
  {
    if xs == [] then [] else [AuthTypeToByte(xs[0])] + AuthBytes(xs[1..])
  }

  /// Every method encodes, so a list of methods encodes to its bytes.
  lemma {:induction false} AuthItems(ty: string, xs: seq<AuthType>)
    ensures Containers.EncodeItems(EncodeAuthType, ty, xs) == Ok(AuthBytes(xs))
  {
    if xs != [] {
      AuthItems(ty, xs[1..]);
    }
  }

  function Encode(m: NowNegotiateMsg): (r: Result<Bytes>)
    ensures r.Ok? <==> |m.authList| < 256
    ensures r.Ok? ==> r.value == U32(m.flags) + [|m.authList| as u8] + AuthBytes(m.authList)
  {
    Pow256Widths();
    AuthItems(Containers.VecName(1), m.authList);
    var list :- OutField(Ty, "auth_list", Containers.EncodeVec(EncodeAuthType, 1, m.authList));
    Ok(U32(m.flags) + list)
  }

  function Decode(b: Bytes): (r: Result<Step<NowNegotiateMsg>>)
    ensures r.Ok? ==> RequiredSize <= |b| && |r.value.value.authList| == b[4] as nat
  {
    var flags :- Flags32Field(Ty, "NegotiateFlags", "flags", b);
    var list :- InField(Ty, "Vec8 < AuthType >", "auth_list", Containers.DecodeVec(DecodeAuthType, 1, flags.rest));
    assert flags.rest[..1] == [b[4]];
    Ok(Step(NowNegotiateMsg(flags.value, list.value), list.rest))
  }

  /// Decoding an encoded negotiation gives it back and leaves what follows
  /// it unread.
  lemma RoundTrip(m: NowNegotiateMsg, rest: Bytes)
    requires Encode(m).Ok?
    ensures Decode(Encode(m).value + rest) == Ok(Step(m, rest))
  {
    var list := Containers.EncodeVec(EncodeAuthType, 1, m.authList).value;
    assert Encode(m).value + rest == U32(m.flags) + (list + rest);
    U32RoundTrip(Ty, "NegotiateFlags", "flags", m.flags, list + rest);
    AuthTypeInverse(m.authList);
    Containers.VecRoundTrip(EncodeAuthType, DecodeAuthType, 1, m.authList, rest);
  }

  lemma ReadsBack(m: NowNegotiateMsg)
    requires Encode(m).Ok?
    ensures Decode(Encode(m).value) == Ok(Step(m, []))
  {
    RoundTrip(m, []);
    assert Encode(m).value + [] == Encode(m).value;
  }

  /// `NEGOTIATE_MSG`
  const NegotiateBytes: Bytes := [0x01, 0x00, 0x00, 0x00] + [0x04] + [0x01, 0x02, 0x08, 0x04]

  /// The default negotiation with PFP, SRP, SRD and NTLM pushed in that
  /// order encodes to the vector, which decodes back to it with SRP
  /// extended set.
  lemma NegotiateVector()
    ensures Encode(NewWithAuthList(1, [Pfp, Srp, Srd, Ntlm])) == Ok(NegotiateBytes)
    ensures Decode(NegotiateBytes) == Ok(Step(NewWithAuthList(1, [Pfp, Srp, Srd, Ntlm]), []))
    ensures Flags.Has(Decode(NegotiateBytes).value.value.flags, SrpExtended)
  {
    var m := NewWithAuthList(1, [Pfp, Srp, Srd, Ntlm]);
    Pow256Widths();
    LeValueOfLeBytes(1, 4);
    assert U32(1) == [0x01, 0x00, 0x00, 0x00];
    assert AuthBytes(m.authList) == [0x01, 0x02, 0x08, 0x04];
    ReadsBack(m);
    Flags.LowBitHas(1, SrpExtended);
  }
}
