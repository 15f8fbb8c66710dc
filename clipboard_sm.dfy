/// The client's clipboard channel machine (`sm/client_channels/clipboard.rs`):
/// it exchanges capabilities, sets the control mode, and then follows the
/// suspend and resume requests and the ownership of the clipboard.
///
/// The user callback is code the machine does not see. Two of its methods
/// decide something, `accept_resume` and `transfer_ownership_to_peer`; the
/// model takes their answer as a parameter. The others only observe, and the
/// model gives them no effect.
module ClipboardSm {
  import opened Wire
  import opened Errors
  import opened Sm
  import opened Clipboard
  import Messages
  import ChannelNames

  // ---------------------------------------------------------------- ClipboardData

  /// `sequence_id += 1` on a `u16`, as a release build computes it: the
  /// next id always differs from the last one, by one modulo 65536.
  function NextId(x: u16): (r: u16)
    ensures r != x && (r as int - x as int) % 0x1_0000 == 1
  {
    if x == 0xFFFF then 0 else x + 1
  }

  /// `ClipboardData`
  class ClipboardData {
    var isOwner: bool
    var autoFetch: bool
    var sequenceId: u16

    /// `ClipboardData::new`, also its `Default`
    constructor ()
      ensures !isOwner && autoFetch && sequenceId == 0
    {
      isOwner := false;
      autoFetch := true;
      sequenceId := 0;
    }

    function IsOwner(): bool
      reads this
    {
      isOwner
    }

    function IsAutoFetchMode(): bool
      reads this
    {
      autoFetch
    }

    function CurrentSequenceId(): u16
      reads this
    {
      sequenceId
    }

    method SetAutoFetch(autoFetch: bool)
      modifies this
      ensures this.autoFetch == autoFetch && isOwner == old(isOwner) && sequenceId == old(sequenceId)
    {
      this.autoFetch := autoFetch;
    }

    /// `next_sequence_id`: moves to the next id and returns it.
    method NextSequenceId() returns (id: u16)
      modifies this
      ensures sequenceId == NextId(old(sequenceId)) && id == sequenceId
      ensures isOwner == old(isOwner) && autoFetch == old(autoFetch)
    {
      sequenceId := NextId(sequenceId);
      id := sequenceId;
    }
  }

  // ---------------------------------------------------------------- specification

  /// What one update reads and writes: the machine's state and its
  /// `ClipboardData`.
  datatype Clip = Clip(state: ClipboardState, isOwner: bool, autoFetch: bool, sequenceId: u16)

  /// What one update produces: the new values, the events pushed, and the
  /// channel message queued, if any.
  datatype Outcome = Outcome(after: Clip, events: seq<SMEvent>, sent: Option<Messages.NowVirtualChannel>)

  /// The kind of every error and warning of the machine.
  const Kind := VirtualChannel(ChannelNames.Clipboard)

  /// An unexpected call, or a response that carries the failure flag.
  const Problem := Error(Reported(Kind))

  /// An unexpected message, or a data message the ownership does not allow.
  const Warning := Warn(Reported(Kind))

  /// `waiting_for_packet`
  predicate Waiting(s: ClipboardState)
  {
    s.ClipboardCapabilities? || s.Disabled? || s.Enabled?
  }

  /// The moves the machine can make: the two steps of the set-up, then
  /// back and forth between `Disabled` and `Enabled`. No move reaches
  /// `Terminated`.
  predicate Move(s: ClipboardState, t: ClipboardState)
  {
    || (s.ClipboardInitial? && t.ClipboardCapabilities?)
    || (s.ClipboardCapabilities? && t.Disabled?)
    || (s.Disabled? && t.Enabled?)
    || (s.Enabled? && t.Disabled?)
  }

  /// A change of state is announced by one `StateTransition` event and
  /// nothing else; an update that keeps the state pushes at most one
  /// event, an error or a warning.
  predicate Announces(before: Clip, r: Outcome)
  {
    && (r.after.state != before.state ==>
          Move(before.state, r.after.state) && r.events == [StateTransition(ClipboardStage(r.after.state))])
    && (r.after.state == before.state ==> r.events == [] || r.events == [Problem] || r.events == [Warning])
  }

  /// `ClipboardChannelSM::update_without_chan_msg`: only the first call
  /// does something, and it asks for the peer's capabilities.
  function ClipboardWithout(c: Clip): (r: Outcome)
    ensures Announces(c, r)
    ensures r.after.state != c.state <==> c.state.ClipboardInitial?
    ensures r.after == c.(state := r.after.state)
    ensures r.sent.Some? <==> c.state.ClipboardInitial?
    ensures r.sent.Some? ==> r.sent.value == Messages.ClipboardVc(CapabilitiesReq(NewWordMsg(CapabilitiesReqType, 0)))
    ensures !c.state.ClipboardInitial? ==> r.events == [Problem]
  {
    if c.state.ClipboardInitial? then
      Outcome(c.(state := ClipboardCapabilities), [StateTransition(ClipboardStage(ClipboardCapabilities))],
              Some(Messages.ClipboardVc(CapabilitiesReq(NewWordMsg(CapabilitiesReqType, 0)))))
    else
      Outcome(c, [Problem], None)
  }

  /// In state `Capabilities`: the peer's capabilities response.
  function InCapabilities(c: Clip, m: NowClipboardMsg): Outcome
  {
    if m.CapabilitiesRsp? then
      if Failed(m.capabilitiesRsp.flags) then Outcome(c, [Problem], None)
      else Outcome(c.(state := Disabled), [StateTransition(ClipboardStage(Disabled))],
                   Some(Messages.ClipboardVc(ControlReq(NewControlReq(Auto)))))
    else Outcome(c, [Warning], None)
  }

  /// In state `Disabled`: the control response, or a resume request or
  /// response; `agrees` is the callback's answer to a resume request.
  function InDisabled(c: Clip, m: NowClipboardMsg, agrees: bool): (r: Outcome)
    ensures r.after == c.(state := r.after.state)
  {
    if m.ControlRsp? then
      if Failed(m.controlRsp.flags) then Outcome(c, [Problem], None)
      else Outcome(c.(state := Enabled), [StateTransition(ClipboardStage(Enabled))], None)
    else if m.ResumeReq? then
      if agrees then
        Outcome(c.(state := Enabled), [StateTransition(ClipboardStage(Enabled))],
                Some(Messages.ClipboardVc(ResumeRsp(NewWordMsg(ResumeRspType, 0)))))
      else
        Outcome(c, [], Some(Messages.ClipboardVc(ResumeRsp(NewWordMsg(ResumeRspType, Failure)))))
    else if m.ResumeRsp? then
      if Failed(m.resumeRsp.flags) then Outcome(c, [Problem], None)
      else Outcome(c.(state := Enabled), [StateTransition(ClipboardStage(Enabled))], None)
    else Outcome(c, [Warning], None)
  }

  /// In state `Enabled`: suspension, and the clipboard's ownership and
  /// data; `agrees` is the callback's answer to a peer that takes the
  /// ownership.
  function InEnabled(c: Clip, m: NowClipboardMsg, agrees: bool): Outcome
  {
    if m.SuspendRsp? then
      if Failed(m.suspendRsp.flags) then Outcome(c, [Problem], None)
      else Outcome(c.(state := Disabled), [StateTransition(ClipboardStage(Disabled))], None)
    else if m.FormatListReq? then
      var id := NextId(c.sequenceId);
      if agrees then
        Outcome(c.(isOwner := false, sequenceId := id), [],
                Some(Messages.ClipboardVc(FormatListRsp(NewFormatListRsp(id, 0)))))
      else
        Outcome(c.(sequenceId := id), [], Some(Messages.ClipboardVc(FormatListRsp(NewFormatListRsp(id, Failure)))))
    else if m.FormatListRsp? then
      if Failed(m.formatListRsp.flags) then Outcome(c, [Problem], None)
      else Outcome(c.(isOwner := true), [], None)
    else if m.FormatDataReq? then
      if c.isOwner || c.autoFetch then Outcome(c, [], None) else Outcome(c, [Warning], None)
    else if m.FormatDataRsp? then
      if c.isOwner then Outcome(c, [Warning], None) else Outcome(c, [], None)
    else Outcome(c, [Warning], None)
  }

  /// `ClipboardChannelSM::update_with_chan_msg`
  function ClipboardWith(c: Clip, v: Messages.NowVirtualChannel, agrees: bool): (r: Outcome)
    ensures Announces(c, r)
    ensures r.after.autoFetch == c.autoFetch
    ensures !v.ClipboardVc? ==> r == Outcome(c, [Warning], None)
    ensures v.ClipboardVc? && !Waiting(c.state) ==> r == Outcome(c, [Problem], None)
  {
    if !v.ClipboardVc? then Outcome(c, [Warning], None)
    else if c.state.ClipboardCapabilities? then InCapabilities(c, v.clipboard)
    else if c.state.Disabled? then InDisabled(c, v.clipboard, agrees)
    else if c.state.Enabled? then InEnabled(c, v.clipboard, agrees)
    else Outcome(c, [Problem], None)
  }

  // ---------------------------------------------------------------- properties

  /// A response that carries the failure flag changes nothing and is
  /// reported as an error.
  lemma FailureChangesNothing(c: Clip, m: NowClipboardMsg, agrees: bool)
    requires Waiting(c.state)
    requires || (c.state.ClipboardCapabilities? && m.CapabilitiesRsp? && Failed(m.capabilitiesRsp.flags))
             || (c.state.Disabled? && m.ControlRsp? && Failed(m.controlRsp.flags))
             || (c.state.Disabled? && m.ResumeRsp? && Failed(m.resumeRsp.flags))
             || (c.state.Enabled? && m.SuspendRsp? && Failed(m.suspendRsp.flags))
             || (c.state.Enabled? && m.FormatListRsp? && Failed(m.formatListRsp.flags))
    ensures ClipboardWith(c, Messages.ClipboardVc(m), agrees) == Outcome(c, [Problem], None)
  {
  }

  /// The set-up: the capabilities request, the peer's response, the control
  /// request, the peer's response; the machine is then enabled, with its
  /// data untouched.
  lemma SetUp(c: Clip, caps: WordMsg, control: ControlMsg, agrees: bool)
    requires c.state.ClipboardInitial? && !Failed(caps.flags) && !Failed(control.flags)
    ensures ClipboardWithout(c).after.state.ClipboardCapabilities?
    ensures var r := ClipboardWith(ClipboardWithout(c).after, Messages.ClipboardVc(CapabilitiesRsp(caps)), agrees);
            r.after.state.Disabled? && r.sent == Some(Messages.ClipboardVc(ControlReq(NewControlReq(Auto))))
    ensures var d := c.(state := Disabled);
            ClipboardWith(d, Messages.ClipboardVc(ControlRsp(control)), agrees).after == c.(state := Enabled)
  {
  }

  /// Ownership: the peer's format list takes it away when the callback
  /// agrees, a successful format-list response grants it, and nothing
  /// else changes it.
  lemma OwnershipChanges(c: Clip, v: Messages.NowVirtualChannel, agrees: bool)
    ensures var r := ClipboardWith(c, v, agrees);
            r.after.isOwner != c.isOwner ==>
              c.state.Enabled? && v.ClipboardVc? &&
              ((v.clipboard.FormatListReq? && agrees && !r.after.isOwner) ||
               (v.clipboard.FormatListRsp? && !Failed(v.clipboard.formatListRsp.flags) && r.after.isOwner))
    ensures c.state.Enabled? && v.ClipboardVc? && v.clipboard.FormatListReq? && agrees ==>
              !ClipboardWith(c, v, agrees).after.isOwner
    ensures c.state.Enabled? && v.ClipboardVc? && v.clipboard.FormatListRsp? && !Failed(v.clipboard.formatListRsp.flags) ==>
              ClipboardWith(c, v, agrees).after.isOwner
  {
  }

  /// The sequence id moves exactly when the peer sends its format list in
  /// state `Enabled`, and the response carries the new id, with the failure
  /// flag when the callback refuses.
  lemma SequenceIdAnswers(c: Clip, v: Messages.NowVirtualChannel, agrees: bool)
    ensures var r := ClipboardWith(c, v, agrees);
            r.after.sequenceId != c.sequenceId <==> c.state.Enabled? && v.ClipboardVc? && v.clipboard.FormatListReq?
    ensures var r := ClipboardWith(c, v, agrees);
            r.after.sequenceId != c.sequenceId ==>
              r.after.sequenceId == NextId(c.sequenceId) &&
              r.sent == Some(Messages.ClipboardVc(FormatListRsp(NewFormatListRsp(r.after.sequenceId, if agrees then 0 else Failure))))
  {
  }

  /// A format-data request is served when this side owns the clipboard or
  /// fetches automatically, and warned about otherwise; a format-data
  /// response is warned about exactly when this side is the owner.
  lemma DataNeedsOwnership(c: Clip, m: NowClipboardMsg, agrees: bool)
    requires c.state.Enabled?
    ensures m.FormatDataReq? ==> (ClipboardWith(c, Messages.ClipboardVc(m), agrees).events == [] <==> c.isOwner || c.autoFetch)
    ensures m.FormatDataRsp? ==> (ClipboardWith(c, Messages.ClipboardVc(m), agrees).events == [Warning] <==> c.isOwner)
  {
  }

  /// A resume request is answered in every case: with the plain response
  /// when the callback agrees, and with the failure flag, staying
  /// disabled, when it refuses.
  lemma ResumeAnswered(c: Clip, req: WordMsg, agrees: bool)
    requires c.state.Disabled?
    ensures var r := ClipboardWith(c, Messages.ClipboardVc(ResumeReq(req)), agrees);
            r.sent.Some? && r.sent.value.ClipboardVc? && r.sent.value.clipboard.ResumeRsp? &&
            (Failed(r.sent.value.clipboard.resumeRsp.flags) <==> !agrees) &&
            (r.after.state.Enabled? <==> agrees)
  {
    NotFailedZero();
  }

  lemma NotFailedZero()
    ensures !Failed(0) && Failed(Failure as u8)
  {
    FailedIsTopBit(0);
    FailedIsTopBit(Failure as u8);
  }

  /// The machine never terminates: no update reaches `Terminated`, and a
  /// machine that waits for packets keeps waiting.
  lemma {:induction false} NeverTerminates(c: Clip, v: Messages.NowVirtualChannel, agrees: bool)
    ensures !c.state.ClipboardTerminated? ==> !ClipboardWithout(c).after.state.ClipboardTerminated?
    ensures !c.state.ClipboardTerminated? ==> !ClipboardWith(c, v, agrees).after.state.ClipboardTerminated?
    ensures Waiting(c.state) ==> Waiting(ClipboardWith(c, v, agrees).after.state) && Waiting(ClipboardWithout(c).after.state)
  {
  }

  // ---------------------------------------------------------------- the machine

  /// The queue entries of `sent`, tagged as `ChannelResponses` tags them.
  function Queued(current: Option<ChannelNames.ChannelName>, sent: Option<Messages.NowVirtualChannel>)
    : seq<(Option<ChannelNames.ChannelName>, Messages.NowVirtualChannel)>
  {
    if sent.Some? then [(current, sent.value)] else []
  }

  /// `ClipboardChannelSM`
  class ClipboardChannelSM {
    var state: ClipboardState
    const data: ClipboardData

    /// `ClipboardChannelSM::new`
    constructor (data: ClipboardData)
      ensures state == ClipboardInitial && this.data == data
    {
      state := ClipboardInitial;
      this.data := data;
    }

    function GetChannelName(): ChannelNames.ChannelName
    {
      ChannelNames.Clipboard
    }

    function IsTerminated(): (r: bool)
      reads this
      ensures r <==> state == ClipboardTerminated
    {
      state == ClipboardTerminated
    }

    function WaitingForPacket(): (r: bool)
      reads this
      ensures r <==> Waiting(state)
    {
      match state
      case ClipboardInitial => false
      case ClipboardCapabilities => true
      case Disabled => true
      case Enabled => true
      case ClipboardTerminated => false
    }

    function Snapshot(): Clip
      reads this, data
    {
      Clip(state, data.isOwner, data.autoFetch, data.sequenceId)
    }

    method TransitionTo(events: SMEvents, s: ClipboardState)
      modifies this, events
      ensures state == s && events.items == old(events.items) + [StateTransition(ClipboardStage(s))]
    {
      state := s;
      events.Push(StateTransition(ClipboardStage(s)));
    }

    method UpdateWithoutChanMsg(smData: SMData, events: SMEvents, toSend: ChannelResponses)
      modifies this, events, toSend
      ensures Snapshot() == ClipboardWithout(old(Snapshot())).after
      ensures events.items == old(events.items) + ClipboardWithout(old(Snapshot())).events
      ensures toSend.items == old(toSend.items) + Queued(old(toSend.current), ClipboardWithout(old(Snapshot())).sent)
      ensures toSend.current == old(toSend.current)
    {
      if state.ClipboardInitial? {
        TransitionTo(events, ClipboardCapabilities);
        toSend.Push(Messages.ClipboardVc(CapabilitiesReq(NewWordMsg(CapabilitiesReqType, 0))));
      } else {
        events.Push(Problem);
      }
    }

    /// `agrees` is the answer of `accept_resume` or of
    /// `transfer_ownership_to_peer`, whichever the message calls for.
    method UpdateWithChanMsg(smData: SMData, events: SMEvents, toSend: ChannelResponses,
                             v: Messages.NowVirtualChannel, agrees: bool)
      modifies this, data, events, toSend
      ensures Snapshot() == ClipboardWith(old(Snapshot()), v, agrees).after
      ensures events.items == old(events.items) + ClipboardWith(old(Snapshot()), v, agrees).events
      ensures toSend.items == old(toSend.items) + Queued(old(toSend.current), ClipboardWith(old(Snapshot()), v, agrees).sent)
      ensures toSend.current == old(toSend.current)
    {
      if !v.ClipboardVc? {
        events.Push(Warning);
        return;
      }
      var m := v.clipboard;
      if state.ClipboardCapabilities? {
        InCapabilitiesStep(events, toSend, m);
      } else if state.Disabled? {
        InDisabledStep(events, toSend, m, agrees);
      } else if state.Enabled? {
        InEnabledStep(events, toSend, m, agrees);
      } else {
        events.Push(Problem);
      }
    }

    method InCapabilitiesStep(events: SMEvents, toSend: ChannelResponses, m: NowClipboardMsg)
      requires state.ClipboardCapabilities?
      modifies this, events, toSend
      ensures Snapshot() == InCapabilities(old(Snapshot()), m).after
      ensures events.items == old(events.items) + InCapabilities(old(Snapshot()), m).events
      ensures toSend.items == old(toSend.items) + Queued(old(toSend.current), InCapabilities(old(Snapshot()), m).sent)
      ensures toSend.current == old(toSend.current)
    {
      if m.CapabilitiesRsp? {
        if Failed(m.capabilitiesRsp.flags) {
          events.Push(Problem);
        } else {
          TransitionTo(events, Disabled);
          toSend.Push(Messages.ClipboardVc(ControlReq(NewControlReq(Auto))));
        }
      } else {
        events.Push(Warning);
      }
    }

    method InDisabledStep(events: SMEvents, toSend: ChannelResponses, m: NowClipboardMsg, agrees: bool)
      requires state.Disabled?
      modifies this, events, toSend
      ensures state == InDisabled(old(Snapshot()), m, agrees).after.state
      ensures events.items == old(events.items) + InDisabled(old(Snapshot()), m, agrees).events
      ensures toSend.items == old(toSend.items) + Queued(old(toSend.current), InDisabled(old(Snapshot()), m, agrees).sent)
      ensures toSend.current == old(toSend.current)
    {
      if m.ControlRsp? {
        if Failed(m.controlRsp.flags) {
          events.Push(Problem);
        } else {
          TransitionTo(events, Enabled);
        }
      } else if m.ResumeReq? {
        if agrees {
          TransitionTo(events, Enabled);
          toSend.Push(Messages.ClipboardVc(ResumeRsp(NewWordMsg(ResumeRspType, 0))));
        } else {
          toSend.Push(Messages.ClipboardVc(ResumeRsp(NewWordMsg(ResumeRspType, Failure))));
        }
      } else if m.ResumeRsp? {
        if Failed(m.resumeRsp.flags) {
          events.Push(Problem);
        } else {
          TransitionTo(events, Enabled);
        }
      } else {
        events.Push(Warning);
      }
    }

    method InEnabledStep(events: SMEvents, toSend: ChannelResponses, m: NowClipboardMsg, agrees: bool)
      requires state.Enabled?
      modifies this, data, events, toSend
      ensures Snapshot() == InEnabled(old(Snapshot()), m, agrees).after
      ensures events.items == old(events.items) + InEnabled(old(Snapshot()), m, agrees).events
      ensures toSend.items == old(toSend.items) + Queued(old(toSend.current), InEnabled(old(Snapshot()), m, agrees).sent)
      ensures toSend.current == old(toSend.current)
    {
      if m.SuspendRsp? {
        if Failed(m.suspendRsp.flags) {
          events.Push(Problem);
        } else {
          TransitionTo(events, Disabled);
        }
      } else if m.FormatListReq? {
        if agrees {
          data.isOwner := false;
          var id := data.NextSequenceId();
          toSend.Push(Messages.ClipboardVc(FormatListRsp(NewFormatListRsp(id, 0))));
        } else {
          var id := data.NextSequenceId();
          toSend.Push(Messages.ClipboardVc(FormatListRsp(NewFormatListRsp(id, Failure))));
        }
      } else if m.FormatListRsp? {
        if Failed(m.formatListRsp.flags) {
          events.Push(Problem);
        } else {
          data.isOwner := true;
        }
      } else if m.FormatDataReq? {
        if !(data.isOwner || data.autoFetch) {
          events.Push(Warning);
        }
      } else if m.FormatDataRsp? {
        if data.isOwner {
          events.Push(Warning);
        }
      } else {
        events.Push(Warning);
      }
    }
  }
}
