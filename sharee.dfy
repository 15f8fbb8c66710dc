/// The sharee (`sharee.rs`): the top-level machine of the side that
/// shares. It runs the connection sequence, then routes the traffic of the
/// virtual channels through the channels manager, and stops at `Final`.
///
/// The connection sequence and the channel machines are trait objects whose
/// code the sharee does not see. The model takes what they do in one
/// update as parameters: the events the connection sequence pushes and
/// whether it has then terminated, and the events and responses of the
/// channel machine the manager picks. The channels manager, the shared
/// `SMData`, and the table of channel ids are modelled.
module ShareeSm {
  import opened Wire
  import opened Sm
  import Errors
  import States
  import Messages
  import Terminate
  import Authenticate
  import Capabilities
  import Channel
  import ChannelNames
  import ChannelsManagement
  import Packets

  type ShareeState = States.ShareeState
  type ChannelName = ChannelNames.ChannelName

  // ---------------------------------------------------------------- the connection stage

  /// The connection stage of one update: the sequence's own events, then
  /// `Active` when it has terminated, then `Final` when any event of the
  /// update is fatal.
  function ConnectionStage(seqEvents: seq<SMEvent>, terminated: bool): (r: (ShareeState, seq<SMEvent>))
    ensures r.0 == States.ShareeState.Final <==> HasFatal(seqEvents)
    ensures r.0 == States.ShareeState.Active <==> terminated && !HasFatal(seqEvents)
    ensures r.0 == States.Connection <==> !terminated && !HasFatal(seqEvents)
    ensures seqEvents <= r.1
    ensures |r.1| == |seqEvents| + (if terminated then 1 else 0) + (if HasFatal(seqEvents) then 1 else 0)
    ensures r.0 != States.Connection ==> r.1[|r.1| - 1] == StateTransition(ShareeStage(r.0))
  {
    var afterSeq := if terminated then seqEvents + [StateTransition(ShareeStage(States.ShareeState.Active))]
                    else seqEvents;
    HasFatalAppend(seqEvents, afterSeq[|seqEvents|..]);
    assert afterSeq == seqEvents + afterSeq[|seqEvents|..];
    if HasFatal(afterSeq) then
      (States.ShareeState.Final, afterSeq + [StateTransition(ShareeStage(States.ShareeState.Final))])
    else if terminated then (States.ShareeState.Active, afterSeq)
    else (States.Connection, afterSeq)
  }

  /// A fatal event from the connection sequence ends the sharee even when
  /// the sequence has just terminated: it goes through `Active` to `Final`.
  lemma FatalAtTerminationEnds(seqEvents: seq<SMEvent>)
    requires HasFatal(seqEvents)
    ensures ConnectionStage(seqEvents, true).1 ==
              seqEvents + [StateTransition(ShareeStage(States.ShareeState.Active)),
                           StateTransition(ShareeStage(States.ShareeState.Final))]
  {
    var afterSeq := seqEvents + [StateTransition(ShareeStage(States.ShareeState.Active))];
    HasFatalAppend(seqEvents, [StateTransition(ShareeStage(States.ShareeState.Active))]);
  }

  // ---------------------------------------------------------------- channel ids

  /// The id `h_go_to_active_state` records for a channel: its flags
  /// truncated to a byte (`as u8`).
  function ChannelId(def: Channel.NowChannelDef): u8
  {
    def.flags % 0x100
  }

  /// The table after recording `defs` in order: a later definition with the
  /// same id replaces an earlier one.
  function WithDefs(entries: map<u8, ChannelName>, defs: seq<Channel.NowChannelDef>): map<u8, ChannelName>
  {
    if defs == [] then entries
    else WithDefs(entries, defs[..|defs| - 1])[ChannelId(defs[|defs| - 1]) := defs[|defs| - 1].name]
  }

  /// Every channel gets an id: an id is in the table when some definition
  /// has it or it was there before; it names the channel of the last
  /// definition with that id; an id no definition has keeps its channel.
  lemma {:induction false} DefsRecorded(entries: map<u8, ChannelName>, defs: seq<Channel.NowChannelDef>, id: u8)
    ensures id in WithDefs(entries, defs) <==> id in entries || exists i :: 0 <= i < |defs| && ChannelId(defs[i]) == id
    ensures forall i :: 0 <= i < |defs| && ChannelId(defs[i]) == id && (forall j :: i < j < |defs| ==> ChannelId(defs[j]) != id) ==>
              id in WithDefs(entries, defs) && WithDefs(entries, defs)[id] == defs[i].name
    ensures id in entries && (forall i :: 0 <= i < |defs| ==> ChannelId(defs[i]) != id) ==>
              id in WithDefs(entries, defs) && WithDefs(entries, defs)[id] == entries[id]
  {
    if defs != [] {
      var init := defs[..|defs| - 1];
      var last := defs[|defs| - 1];
      DefsRecorded(entries, init, id);
      assert forall i :: 0 <= i < |init| ==> init[i] == defs[i];
      if ChannelId(last) != id {
        forall i | 0 <= i < |defs| && ChannelId(defs[i]) == id && (forall j :: i < j < |defs| ==> ChannelId(defs[j]) != id)
          ensures WithDefs(entries, defs)[id] == defs[i].name
        {
          assert i < |init|;
        }
      }
    }
  }

  // ---------------------------------------------------------------- channel responses

  /// `h_map_channels_manager_result`: each response goes out as a packet on
  /// the lowest id of its channel, or draws a warning when its channel has
  /// no id.
  function MapResponses(entries: map<u8, ChannelName>, items: seq<(Option<ChannelName>, Messages.NowVirtualChannel)>)
    : (r: seq<SMEvent>)
    ensures |r| == |items|
  {
    if items == [] then []
    else MapResponses(entries, items[..|items| - 1]) + [MapResponse(entries, items[|items| - 1])]
  }

  /// Each response becomes a packet exactly when its channel has an id;
  /// the packet carries the response on an id of that channel, and the
  /// other responses become warnings.
  lemma {:induction false} ResponsesMapped(entries: map<u8, ChannelName>,
                                           items: seq<(Option<ChannelName>, Messages.NowVirtualChannel)>)
    ensures forall i :: 0 <= i < |items| ==>
              (MapResponses(entries, items)[i].PacketToSend? <==>
                 items[i].0.Some? && Messages.LowestIdOf(entries, items[i].0.value).Some?)
    ensures forall i :: 0 <= i < |items| && MapResponses(entries, items)[i].PacketToSend? ==>
              var p := MapResponses(entries, items)[i].packet;
              p.OfChannel? && p.channel == items[i].1 && p.id in entries && Some(entries[p.id]) == items[i].0
    ensures forall i :: 0 <= i < |items| && !MapResponses(entries, items)[i].PacketToSend? ==>
              MapResponses(entries, items)[i] == Unmapped
  {
    if items != [] {
      var init := items[..|items| - 1];
      ResponsesMapped(entries, init);
      assert forall i :: 0 <= i < |init| ==> MapResponses(entries, items)[i] == MapResponses(entries, init)[i];
    }
  }

  function MapResponse(entries: map<u8, ChannelName>, item: (Option<ChannelName>, Messages.NowVirtualChannel)): SMEvent
  {
    if item.0.Some? && Messages.LowestIdOf(entries, item.0.value).Some? then
      PacketToSend(OfChannel(item.1, Messages.LowestIdOf(entries, item.0.value).value))
    else Unmapped
  }

  /// The warning of a response whose channel has no id.
  const Unmapped := Warn(Reported(Errors.ChannelsManager))

  /// The error of a body the state does not take.
  function Misplaced(s: ShareeState): SMEvent
  {
    Error(Reported(Errors.Sharee(s)))
  }

  /// The packet the sharee sends once it is final: a default terminate
  /// message.
  const TerminatePacket := PacketToSend(OfMessage(Messages.TerminateMsg(Terminate.DefaultMsg)))

  // ---------------------------------------------------------------- the builder

  /// `ShareeBuilder`, without the connection sequence it wraps.
  datatype ShareeBuilder = ShareeBuilder(supportedAuths: seq<Authenticate.AuthType>,
                                         capabilities: seq<Capabilities.NowCapset>,
                                         channelsToOpen: seq<Channel.NowChannelDef>,
                                         channelsManager: ChannelsManagement.ChannelsManager)

  /// `channels_to_open`: one definition, without flags, per channel name.
  function ChannelsToOpen(b: ShareeBuilder, names: seq<ChannelName>): (r: ShareeBuilder)
    ensures |r.channelsToOpen| == |names|
    ensures forall i :: 0 <= i < |names| ==> r.channelsToOpen[i] == Channel.NewDef(names[i])
    ensures r.(channelsToOpen := b.channelsToOpen) == b
  {
    b.(channelsToOpen := seq(|names|, i requires 0 <= i < |names| => Channel.NewDef(names[i])))
  }

  // ---------------------------------------------------------------- the sharee

  /// `Sharee`
  class Sharee {
    var state: ShareeState
    const channelsManager: ChannelsManagement.ChannelsManager
    const smData: SMData
    const channelsCtx: Messages.VirtChannelsCtx

    /// `ShareeBuilder::build`
    constructor (b: ShareeBuilder)
      ensures state == States.Connection && channelsManager == b.channelsManager
      ensures fresh(smData) && smData.supportedAuths == b.supportedAuths
      ensures smData.capabilities == b.capabilities && smData.channelDefs == b.channelsToOpen
      ensures fresh(channelsCtx) && channelsCtx.entries == map[]
    {
      state := States.Connection;
      channelsManager := b.channelsManager;
      smData := new SMData(b.supportedAuths, b.capabilities, b.channelsToOpen);
      channelsCtx := new Messages.VirtChannelsCtx();
    }

    function GetState(): ShareeState
      reads this
    {
      state
    }

    function IsTerminated(): (r: bool)
      reads this
      ensures r <==> state == States.ShareeState.Final
    {
      state == States.ShareeState.Final
    }

    function IsRunning(): (r: bool)
      reads this
      ensures r <==> state != States.ShareeState.Final
    {
      !IsTerminated()
    }

    /// `waiting_for_packet`; `sequenceWaits` is the connection sequence's
    /// own answer.
    method WaitingForPacket(sequenceWaits: bool) returns (r: bool)
      ensures state == States.Connection ==> r == sequenceWaits
      ensures state == States.ShareeState.Active ==> r == ChannelsManagement.FirstIdle(channelsManager.entries).None?
      ensures state == States.ShareeState.Final ==> !r
    {
      match state {
        case Connection => r := sequenceWaits;
        case Active => r := channelsManager.WaitingForPacket();
        case Final => r := false;
      }
    }

    /// `h_transition_state`
    method TransitionTo(events: SMEvents, s: ShareeState)
      modifies this, events
      ensures state == s && events.items == old(events.items) + [StateTransition(ShareeStage(s))]
    {
      state := s;
      events.Push(StateTransition(ShareeStage(s)));
    }

    /// `h_go_to_active_state`: the sharee is active and every channel the
    /// sequence opened has its id recorded.
    method GoToActiveState(events: SMEvents)

      modifies this, events, channelsCtx
      ensures state == States.ShareeState.Active
      ensures events.items == old(events.items) + [StateTransition(ShareeStage(States.ShareeState.Active))]
      ensures channelsCtx.entries == WithDefs(old(channelsCtx.entries), smData.channelDefs)
    {
      TransitionTo(events, States.ShareeState.Active);
      var defs := smData.channelDefs;
      var i := 0;
      while i < |defs|
        invariant 0 <= i <= |defs| && state == States.ShareeState.Active
        invariant events.items == old(events.items) + [StateTransition(ShareeStage(States.ShareeState.Active))]
        invariant channelsCtx.entries == WithDefs(old(channelsCtx.entries), defs[..i])
      {
        var _ := channelsCtx.Insert(ChannelId(defs[i]), defs[i].name);
        assert defs[..i + 1][..i] == defs[..i];
        i := i + 1;
      }
      assert defs[..|defs|] == defs;
    }

    /// `h_check_for_fatal`
    method CheckForFatal(events: SMEvents)
      modifies this, events
      ensures HasFatal(old(events.items)) ==>
                state == States.ShareeState.Final &&
                events.items == old(events.items) + [StateTransition(ShareeStage(States.ShareeState.Final))]
      ensures !HasFatal(old(events.items)) ==> state == old(state) && events.items == old(events.items)
    {
      var i := 0;
      while i < |events.items|
        invariant 0 <= i <= |events.items|
        invariant forall k :: 0 <= k < i ==> !events.items[k].Fatal?
      {
        if events.items[i].Fatal? {
          TransitionTo(events, States.ShareeState.Final);
          return;
        }
        i := i + 1;
      }
    }

    /// `h_map_channels_manager_result`
    method MapChannelsManagerResult(events: SMEvents, toSend: ChannelResponses)
      modifies events
      ensures events.items == old(events.items) + MapResponses(channelsCtx.entries, toSend.items)
    {
      var items := toSend.items;
      var i := 0;
      while i < |items|
        invariant 0 <= i <= |items|
        invariant events.items == old(events.items) + MapResponses(channelsCtx.entries, items[..i])
      {
        var id := None;
        if items[i].0.Some? {
          id := channelsCtx.GetIdByChannel(items[i].0.value);
        }
        if id.Some? {
          events.Push(PacketToSend(OfChannel(items[i].1, id.value)));
        } else {
          events.Push(Unmapped);
        }
        assert items[..i + 1][..i] == items[..i];
        i := i + 1;
      }
      assert items[..|items|] == items;
    }

    /// The connection stage of an update: the sequence pushed `seqEvents`
    /// and reports `seqTerminated`.
    method ConnectionUpdate(events: SMEvents, seqEvents: seq<SMEvent>, seqTerminated: bool)
      requires state == States.Connection && events.items == []
      modifies this, events, channelsCtx
      ensures (state, events.items) == ConnectionStage(seqEvents, seqTerminated)
      ensures channelsCtx.entries == if seqTerminated then WithDefs(old(channelsCtx.entries), smData.channelDefs)
                                     else old(channelsCtx.entries)
    {
      events.items := seqEvents;
      if seqTerminated {
        GoToActiveState(events);
      }
      CheckForFatal(events);
      if seqTerminated {
        HasFatalAppend(seqEvents, [StateTransition(ShareeStage(States.ShareeState.Active))]);
      }
    }

    /// The active stage of `update_without_body`: the first machine that
    /// does not wait runs, and its responses go out on their channel's id.
    method ActiveIdle(events: SMEvents, machineEvents: seq<SMEvent>, machineResponses: seq<Messages.NowVirtualChannel>)
      modifies events
      ensures events.items == old(events.items) +
                Idle(channelsManager.entries, channelsCtx.entries, machineEvents, machineResponses)
    {
      var rsps := new ChannelResponses();
      ghost var before := events.items;
      var picked := channelsManager.UpdateWithoutVirtMsg(events, rsps);
      if picked.Some? {
        MachineUpdate(events, rsps, machineEvents, machineResponses);
        assert events.items == before + machineEvents;
        assert rsps.items == Tagged(picked, machineResponses);
      } else {
        assert MapResponses(channelsCtx.entries, rsps.items) == [];
      }
      MapChannelsManagerResult(events, rsps);
    }

    /// The active stage of `update_with_body` for a channel message: the
    /// machine of its channel runs, and its responses go out on that
    /// channel's id.
    method ActiveRouted(events: SMEvents, v: Messages.NowVirtualChannel,
                        machineEvents: seq<SMEvent>, machineResponses: seq<Messages.NowVirtualChannel>)
      modifies events
      ensures events.items == old(events.items) +
                Routed(channelsManager.entries, channelsCtx.entries, Messages.GetName(v), machineEvents, machineResponses)
    {
      ghost var name := Messages.GetName(v);
      ghost var before := events.items;
      var rsps := new ChannelResponses();
      var routed := channelsManager.UpdateWithVirtMsg(events, rsps, v);
      if routed.Some? {
        MachineUpdate(events, rsps, machineEvents, machineResponses);
        assert rsps.items == Tagged(Some(name), machineResponses);
        MapChannelsManagerResult(events, rsps);
        assert events.items == before + machineEvents + MapResponses(channelsCtx.entries, Tagged(Some(name), machineResponses));
      } else {
        MapChannelsManagerResult(events, rsps);
        assert events.items == before + [ChannelsManagement.Unrouted];
      }
    }

    /// `update_without_body`. In `Connection`, the sequence pushes
    /// `seqEvents` and reports `seqTerminated`; in `Active`, the machine the
    /// manager picks pushes `machineEvents` and answers `machineResponses`.
    method UpdateWithoutBody(seqEvents: seq<SMEvent>, seqTerminated: bool,
                             machineEvents: seq<SMEvent>, machineResponses: seq<Messages.NowVirtualChannel>)
      returns (events: seq<SMEvent>)
      modifies this, channelsCtx
      ensures old(state) == States.Connection ==>
                (state, events) == ConnectionStage(seqEvents, seqTerminated) &&
                channelsCtx.entries == if seqTerminated then WithDefs(old(channelsCtx.entries), smData.channelDefs)
                                       else old(channelsCtx.entries)
      ensures old(state) == States.ShareeState.Active ==>
                state == old(state) && channelsCtx.entries == old(channelsCtx.entries) &&
                events == Idle(channelsManager.entries, channelsCtx.entries, machineEvents, machineResponses)
      ensures old(state) == States.ShareeState.Final ==>
                state == old(state) && events == [TerminatePacket] && channelsCtx.entries == old(channelsCtx.entries)
    {
      var ev := new SMEvents();
      match state {
        case Connection =>
          ConnectionUpdate(ev, seqEvents, seqTerminated);
        case Active =>
          ActiveIdle(ev, machineEvents, machineResponses);
        case Final =>
          ev.Push(TerminatePacket);
      }
      events := ev.items;
    }

    /// `update_with_body`. A message goes to the connection sequence, or
    /// ends an active sharee when it is a terminate message; a channel
    /// message goes through the manager to the machine of its channel.
    method UpdateWithBody(body: Packets.NowBody, seqEvents: seq<SMEvent>, seqTerminated: bool,
                          machineEvents: seq<SMEvent>, machineResponses: seq<Messages.NowVirtualChannel>)
      returns (events: seq<SMEvent>)
      modifies this, channelsCtx
      ensures body.MessageBody? && old(state) == States.Connection ==>
                (state, events) == ConnectionStage(seqEvents, seqTerminated) &&
                channelsCtx.entries == if seqTerminated then WithDefs(old(channelsCtx.entries), smData.channelDefs)
                                       else old(channelsCtx.entries)
      ensures body.MessageBody? && old(state) == States.ShareeState.Active ==>
                if body.message.TerminateMsg?
                then state == States.ShareeState.Final && events == [StateTransition(ShareeStage(States.ShareeState.Final))]
                else state == old(state) && events == []
      ensures body.ChannelBody? && old(state) == States.ShareeState.Active ==>
                state == old(state) &&
                events == Routed(channelsManager.entries, channelsCtx.entries, Messages.GetName(body.channel),
                                 machineEvents, machineResponses)
      ensures old(state) == States.ShareeState.Final || (body.ChannelBody? && old(state) == States.Connection) ==>
                state == old(state) && events == [Misplaced(old(state))]
      ensures !(body.MessageBody? && old(state) == States.Connection) ==> channelsCtx.entries == old(channelsCtx.entries)
    {
      var ev := new SMEvents();
      if body.MessageBody? {
        match state {
          case Connection =>
            ConnectionUpdate(ev, seqEvents, seqTerminated);
          case Active =>
            if body.message.TerminateMsg? {
              TransitionTo(ev, States.ShareeState.Final);
            }
          case Final =>
            ev.Push(Misplaced(state));
        }
      } else if state.Active? {
        ActiveRouted(ev, body.channel, machineEvents, machineResponses);
      } else {
        ev.Push(Misplaced(state));
      }
      events := ev.items;
    }

    /// The picked channel machine's update, as it shows: its events, and
    /// its responses queued under the current channel name.
    static method MachineUpdate(events: SMEvents, toSend: ChannelResponses,
                                machineEvents: seq<SMEvent>, machineResponses: seq<Messages.NowVirtualChannel>)
      modifies events, toSend
      ensures events.items == old(events.items) + machineEvents
      ensures toSend.items == old(toSend.items) + Tagged(old(toSend.current), machineResponses)
      ensures toSend.current == old(toSend.current)
    {
      events.items := events.items + machineEvents;
      toSend.items := toSend.items + Tagged(toSend.current, machineResponses);
    }
  }

  /// Responses queued under the channel name `current`.
  function Tagged(current: Option<ChannelName>, rsps: seq<Messages.NowVirtualChannel>)
    : (r: seq<(Option<ChannelName>, Messages.NowVirtualChannel)>)
    ensures |r| == |rsps| && forall i :: 0 <= i < |rsps| ==> r[i] == (current, rsps[i])
  {
    seq(|rsps|, i requires 0 <= i < |rsps| => (current, rsps[i]))
  }

  /// The events of an active update without a body: a warning when every
  /// machine waits, else the picked machine's events and its responses
  /// mapped to channel ids.
  function Idle(managed: seq<(ChannelName, ChannelsManagement.ChannelMachine)>, ids: map<u8, ChannelName>,
                machineEvents: seq<SMEvent>, machineResponses: seq<Messages.NowVirtualChannel>): seq<SMEvent>
  {
    var picked := ChannelsManagement.FirstIdle(managed);
    if picked.None? then [ChannelsManagement.Unrouted]
    else machineEvents + MapResponses(ids, Tagged(picked, machineResponses))
  }

  /// The events of an active update with a message of channel `name`: a
  /// warning when no machine has that name, else the machine's events and
  /// its responses mapped to channel ids.
  function Routed(managed: seq<(ChannelName, ChannelsManagement.ChannelMachine)>, ids: map<u8, ChannelName>,
                  name: ChannelName, machineEvents: seq<SMEvent>, machineResponses: seq<Messages.NowVirtualChannel>)
    : seq<SMEvent>
  {
    if ChannelsManagement.Lookup(managed, name).None? then [ChannelsManagement.Unrouted]
    else machineEvents + MapResponses(ids, Tagged(Some(name), machineResponses))
  }

  /// What goes out after a machine's update on channel `name`: its own
  /// events first, then one event per response, a packet on an id of
  /// `name` carrying that response when `name` has an id, a warning when it
  /// has none.
  predicate AnsweredOn(r: seq<SMEvent>, ids: map<u8, ChannelName>, name: ChannelName,
                       machineEvents: seq<SMEvent>, machineResponses: seq<Messages.NowVirtualChannel>)
  {
    && |r| == |machineEvents| + |machineResponses|
    && r[..|machineEvents|] == machineEvents
    && forall i :: 0 <= i < |machineResponses| ==>
         if Messages.LowestIdOf(ids, name).Some?
         then r[|machineEvents| + i].PacketToSend? &&
              var p := r[|machineEvents| + i].packet;
              p.OfChannel? && p.channel == machineResponses[i] && p.id in ids && ids[p.id] == name
         else r[|machineEvents| + i] == Unmapped
  }

  lemma AnsweredOnMapped(ids: map<u8, ChannelName>, name: ChannelName,
                         machineEvents: seq<SMEvent>, machineResponses: seq<Messages.NowVirtualChannel>)
    ensures AnsweredOn(machineEvents + MapResponses(ids, Tagged(Some(name), machineResponses)), ids, name,
                       machineEvents, machineResponses)
  {
    var items := Tagged(Some(name), machineResponses);
    var r := machineEvents + MapResponses(ids, items);
    ResponsesMapped(ids, items);
    assert r[..|machineEvents|] == machineEvents;
    forall i | 0 <= i < |machineResponses|
      ensures r[|machineEvents| + i] == MapResponses(ids, items)[i]
    {
    }
  }

  /// A channel message for a channel without a machine draws one warning;
  /// otherwise the machine of that channel answers on that channel.
  lemma RoutedToItsChannel(managed: seq<(ChannelName, ChannelsManagement.ChannelMachine)>, ids: map<u8, ChannelName>,
                           name: ChannelName, machineEvents: seq<SMEvent>, machineResponses: seq<Messages.NowVirtualChannel>)
    ensures ChannelsManagement.Lookup(managed, name).None? ==>
              Routed(managed, ids, name, machineEvents, machineResponses) == [ChannelsManagement.Unrouted]
    ensures ChannelsManagement.Lookup(managed, name).Some? ==>
              AnsweredOn(Routed(managed, ids, name, machineEvents, machineResponses), ids, name,
                         machineEvents, machineResponses)
  {
    AnsweredOnMapped(ids, name, machineEvents, machineResponses);
  }

  /// Without a body, a warning when every machine waits; otherwise the
  /// first machine in key order that does not wait answers on its channel.
  lemma IdleToFirstReady(managed: seq<(ChannelName, ChannelsManagement.ChannelMachine)>, ids: map<u8, ChannelName>,
                         machineEvents: seq<SMEvent>, machineResponses: seq<Messages.NowVirtualChannel>)
    ensures (forall i :: 0 <= i < |managed| ==> managed[i].1.waiting) ==>
              Idle(managed, ids, machineEvents, machineResponses) == [ChannelsManagement.Unrouted]
    ensures forall i :: 0 <= i < |managed| && !managed[i].1.waiting && (forall k :: 0 <= k < i ==> managed[k].1.waiting) ==>
              AnsweredOn(Idle(managed, ids, machineEvents, machineResponses), ids, managed[i].0,
                         machineEvents, machineResponses)
  {
    var picked := ChannelsManagement.FirstIdle(managed);
    if picked.Some? {
      AnsweredOnMapped(ids, picked.value, machineEvents, machineResponses);
      var j := ChannelsManagement.FirstIdleIndex(managed);
      forall i | 0 <= i < |managed| && !managed[i].1.waiting && (forall k :: 0 <= k < i ==> managed[k].1.waiting)
        ensures managed[i].0 == picked.value
      {
        assert i == j;
      }
    }
  }
}
