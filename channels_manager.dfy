/// The channels manager (`channels_manager.rs`): the channel machines,
/// kept in a map ordered by channel name, and the routing of updates to
/// them.
///
/// A machine is a trait object whose code the manager does not see; the
/// manager reads only its `waiting_for_packet`. The model keeps that
/// answer for each machine and returns WHICH machine an update goes to;
/// the machine's own update is the channel machine's (`ClipboardSm`,
/// `ChatSm`).
module ChannelsManagement {
  import opened Wire
  import opened Sm
  import Errors
  import Messages
  import ChannelNames

  type ChannelName = ChannelNames.ChannelName

  // ---------------------------------------------------------------- the map

  /// A registered machine, as the manager sees it.
  datatype ChannelMachine = ChannelMachine(waiting: bool)

  /// The map's entries in key order, each key once.
  predicate Sorted(entries: seq<(ChannelName, ChannelMachine)>)
  {
    forall i, j :: 0 <= i < j < |entries| ==> ChannelNames.Less(entries[i].0, entries[j].0)
  }

  /// The machine registered under `name`.
  function Lookup(entries: seq<(ChannelName, ChannelMachine)>, name: ChannelName): (r: Option<ChannelMachine>)
    ensures r.None? <==> forall i :: 0 <= i < |entries| ==> entries[i].0 != name
    ensures r.Some? ==> exists i :: 0 <= i < |entries| && entries[i] == (name, r.value)
  {
    if entries == [] then None
    else if entries[0].0 == name then Some(entries[0].1)
    else
      var r := Lookup(entries[1..], name);
      assert r.Some? ==> exists i :: 0 <= i < |entries| && entries[i] == (name, r.value) by {
        if r.Some? {
          var i :| 0 <= i < |entries[1..]| && entries[1..][i] == (name, r.value);
          assert entries[i + 1] == (name, r.value);
        }
      }
      r
  }

  /// In a sorted map, the entry at `i` is what `Lookup` finds for its key.
  lemma {:induction false} LookupAt(entries: seq<(ChannelName, ChannelMachine)>, i: nat)
    requires Sorted(entries) && i < |entries|
    ensures Lookup(entries, entries[i].0) == Some(entries[i].1)
  {
    if i > 0 {
      ChannelNames.LessIsStrictTotalOrder(entries[0].0, entries[i].0, entries[i].0);
      LookupAt(entries[1..], i - 1);
    }
  }

  /// The first machine, in key order, that does not wait for a packet.
  function FirstIdle(entries: seq<(ChannelName, ChannelMachine)>): (r: Option<ChannelName>)
    ensures r.None? <==> forall i :: 0 <= i < |entries| ==> entries[i].1.waiting
    ensures r.Some? ==> exists i :: 0 <= i < |entries| && entries[i].0 == r.value && !entries[i].1.waiting &&
                                    forall k :: 0 <= k < i ==> entries[k].1.waiting
  {
    if entries == [] then None
    else if !entries[0].1.waiting then Some(entries[0].0)
    else
      var r := FirstIdle(entries[1..]);
      assert r.Some? ==> exists i :: 0 <= i < |entries| && entries[i].0 == r.value && !entries[i].1.waiting &&
                                     forall k :: 0 <= k < i ==> entries[k].1.waiting by {
        if r.Some? {
          var i :| 0 <= i < |entries[1..]| && entries[1..][i].0 == r.value && !entries[1..][i].1.waiting &&
                   forall k :: 0 <= k < i ==> entries[1..][k].1.waiting;
          assert forall k :: 0 <= k < i + 1 ==> entries[k].1.waiting by {
            forall k | 0 <= k < i + 1 ensures entries[k].1.waiting {
              if k > 0 { assert entries[k] == entries[1..][k - 1]; }
            }
          }
        }
      }
      r
  }

  /// Where the first idle machine sits.
  lemma FirstIdleIndex(entries: seq<(ChannelName, ChannelMachine)>) returns (i: nat)
    requires FirstIdle(entries).Some?
    ensures i < |entries| && entries[i].0 == FirstIdle(entries).value && !entries[i].1.waiting
    ensures forall k :: 0 <= k < i ==> entries[k].1.waiting
  {
    i :| 0 <= i < |entries| && entries[i].0 == FirstIdle(entries).value && !entries[i].1.waiting &&
         forall k :: 0 <= k < i ==> entries[k].1.waiting;
  }

  /// The machine chosen for an update without message is the idle machine
  /// whose name comes first: every machine with a smaller name waits.
  lemma FirstIdleIsLeast(entries: seq<(ChannelName, ChannelMachine)>)
    requires Sorted(entries) && FirstIdle(entries).Some?
    ensures Lookup(entries, FirstIdle(entries).value).Some?
    ensures !Lookup(entries, FirstIdle(entries).value).value.waiting
    ensures forall k :: 0 <= k < |entries| && ChannelNames.Less(entries[k].0, FirstIdle(entries).value) ==> entries[k].1.waiting
  {
    var n := FirstIdle(entries).value;
    var i := FirstIdleIndex(entries);
    LookupAt(entries, i);
    forall k | 0 <= k < |entries| && ChannelNames.Less(entries[k].0, n)
      ensures entries[k].1.waiting
    {
      if k >= i {
        ChannelNames.LessIsStrictTotalOrder(entries[i].0, entries[k].0, entries[k].0);
      }
    }
  }

  /// The warning of an update no machine takes: no machine can update
  /// without a message, or a message's channel has no machine.
  const Unrouted := Warn(Reported(Errors.ChannelsManager))

  // ---------------------------------------------------------------- the manager

  /// `ChannelsManager`
  class ChannelsManager {
    /// `state_machines`, a `BTreeMap`: its entries in key order.
    var entries: seq<(ChannelName, ChannelMachine)>

    ghost predicate Valid()
      reads this
    {
      Sorted(entries)
    }

    /// `ChannelsManager::new`, also its `Default`
    constructor ()
      ensures Valid() && entries == []
    {
      entries := [];
    }

    /// `add_sm`: registers `sm` under its channel's name and returns the
    /// machine it replaces, if any. `with_sm` is the same call on a moved
    /// manager.
    method AddSm(name: ChannelName, sm: ChannelMachine) returns (previous: Option<ChannelMachine>)
      requires Valid()
      modifies this
      ensures Valid()
      ensures previous == Lookup(old(entries), name)
      ensures Lookup(entries, name) == Some(sm)
      ensures forall n :: n != name ==> Lookup(entries, n) == Lookup(old(entries), n)
    {
      var i := 0;
      while i < |entries| && ChannelNames.Less(entries[i].0, name)
        invariant 0 <= i <= |entries|
        invariant forall k :: 0 <= k < i ==> ChannelNames.Less(entries[k].0, name)
      {
        i := i + 1;
      }
      forall k | 0 <= k < i
        ensures entries[k].0 != name
      {
        ChannelNames.LessIsStrictTotalOrder(entries[k].0, name, name);
      }
      if i < |entries| && entries[i].0 == name {
        LookupAt(entries, i);
        previous := Some(entries[i].1);
        var e := entries[i := (name, sm)];
        SameKeys(entries, e, i, sm);
        entries := e;
        LookupAt(entries, i);
      } else {
        forall k | i <= k < |entries|
          ensures ChannelNames.Less(name, entries[k].0)
        {
          ChannelNames.LessIsStrictTotalOrder(name, entries[i].0, entries[k].0);
          ChannelNames.LessIsStrictTotalOrder(entries[i].0, name, name);
        }
        assert Lookup(entries, name).None? by {
          forall k | 0 <= k < |entries| ensures entries[k].0 != name {
            if k >= i { ChannelNames.LessIsStrictTotalOrder(name, name, name); }
          }
        }
        previous := None;
        var e := entries[..i] + [(name, sm)] + entries[i..];
        Inserted(entries, e, i, name, sm);
        entries := e;
        LookupAt(entries, i);
      }
    }

    /// `update_with_virt_msg`: the message goes to the machine of its
    /// channel, whose name becomes the current one for the responses; a
    /// channel without a machine draws a warning. The result is the machine
    /// updated.
    method UpdateWithVirtMsg(events: SMEvents, toSend: ChannelResponses, v: Messages.NowVirtualChannel)
      returns (updated: Option<ChannelName>)
      modifies events, toSend
      ensures updated.Some? <==> Lookup(entries, Messages.GetName(v)).Some?
      ensures updated.Some? ==> updated.value == Messages.GetName(v)
      ensures updated.Some? ==> events.items == old(events.items) && toSend.current == updated
      ensures updated.None? ==> events.items == old(events.items) + [Unrouted] && toSend.current == old(toSend.current)
      ensures toSend.items == old(toSend.items)
    {
      var name := Messages.GetName(v);
      var found := LookupLoop(name);
      if found.Some? {
        toSend.SetCurrentChannelName(name);
        updated := Some(name);
      } else {
        events.Push(Unrouted);
        updated := None;
      }
    }

    /// `BTreeMap::get_mut`, as a search through the entries.
    method LookupLoop(name: ChannelName) returns (r: Option<ChannelMachine>)
      ensures r == Lookup(entries, name)
    {
      var i := 0;
      while i < |entries|
        invariant 0 <= i <= |entries|
        invariant Lookup(entries, name) == Lookup(entries[i..], name)
      {
        if entries[i].0 == name {
          return Some(entries[i].1);
        }
        assert entries[i..][1..] == entries[i + 1..];
        i := i + 1;
      }
      r := None;
    }

    /// `update_without_virt_msg`: the first machine in key order that does
    /// not wait for a packet is updated, its name the current one for the
    /// responses; when every machine waits, a warning.
    method UpdateWithoutVirtMsg(events: SMEvents, toSend: ChannelResponses) returns (updated: Option<ChannelName>)
      modifies events, toSend
      ensures updated == FirstIdle(entries)
      ensures updated.Some? ==> events.items == old(events.items) && toSend.current == updated
      ensures updated.None? ==> events.items == old(events.items) + [Unrouted] && toSend.current == old(toSend.current)
      ensures toSend.items == old(toSend.items)
    {
      var i := 0;
      while i < |entries|
        invariant 0 <= i <= |entries|
        invariant FirstIdle(entries) == FirstIdle(entries[i..])
      {
        if !entries[i].1.waiting {
          toSend.SetCurrentChannelName(entries[i].0);
          return Some(entries[i].0);
        }
        assert entries[i..][1..] == entries[i + 1..];
        i := i + 1;
      }
      events.Push(Unrouted);
      updated := None;
    }

    /// `waiting_for_packet`: every machine waits (and so does an empty
    /// manager).
    method WaitingForPacket() returns (r: bool)
      ensures r <==> forall i :: 0 <= i < |entries| ==> entries[i].1.waiting
      ensures r <==> FirstIdle(entries).None?
    {
      var i := 0;
      while i < |entries|
        invariant 0 <= i <= |entries|
        invariant forall k :: 0 <= k < i ==> entries[k].1.waiting
      {
        if !entries[i].1.waiting {
          return false;
        }
        i := i + 1;
      }
      return true;
    }
  }

  /// Replacing the machine of an entry keeps the keys, so the map stays
  /// sorted and every other name finds what it found.
  lemma SameKeys(entries: seq<(ChannelName, ChannelMachine)>, e: seq<(ChannelName, ChannelMachine)>, i: nat,
                 sm: ChannelMachine)
    requires Sorted(entries) && i < |entries| && e == entries[i := (entries[i].0, sm)]
    ensures Sorted(e)
    ensures forall n :: n != entries[i].0 ==> Lookup(e, n) == Lookup(entries, n)
  {
    forall n | n != entries[i].0
      ensures Lookup(e, n) == Lookup(entries, n)
    {
      LookupOther(entries, e, i, n);
    }
  }

  lemma {:induction false} LookupOther(entries: seq<(ChannelName, ChannelMachine)>, e: seq<(ChannelName, ChannelMachine)>,
                                       i: nat, n: ChannelName)
    requires i < |entries| && |e| == |entries| && n != entries[i].0 && e[i].0 == entries[i].0
    requires forall k :: 0 <= k < |e| && k != i ==> e[k] == entries[k]
    ensures Lookup(e, n) == Lookup(entries, n)
  {
    if i > 0 {
      LookupOther(entries[1..], e[1..], i - 1, n);
    } else {
      assert e[1..] == entries[1..];
    }
  }

  /// Inserting a new key at its place keeps the map sorted and every other
  /// name finds what it found.
  lemma Inserted(entries: seq<(ChannelName, ChannelMachine)>, e: seq<(ChannelName, ChannelMachine)>, i: nat,
                 name: ChannelName, sm: ChannelMachine)
    requires Sorted(entries) && i <= |entries| && e == entries[..i] + [(name, sm)] + entries[i..]
    requires forall k :: 0 <= k < i ==> ChannelNames.Less(entries[k].0, name)
    requires forall k :: i <= k < |entries| ==> ChannelNames.Less(name, entries[k].0)
    ensures Sorted(e)
    ensures forall n :: n != name ==> Lookup(e, n) == Lookup(entries, n)
  {
    forall a, b | 0 <= a < b < |e|
      ensures ChannelNames.Less(e[a].0, e[b].0)
    {
      InsertedAt(entries, i, (name, sm), a);
      InsertedAt(entries, i, (name, sm), b);
    }
    forall n | n != name
      ensures Lookup(e, n) == Lookup(entries, n)
    {
      LookupSkip(entries, i, name, sm, n);
    }
  }

  /// The entry at index `k` once `x` is inserted at index `i`.
  lemma InsertedAt(entries: seq<(ChannelName, ChannelMachine)>, i: nat, x: (ChannelName, ChannelMachine), k: nat)
    requires i <= |entries| && k <= |entries|
    ensures (entries[..i] + [x] + entries[i..])[k] == if k < i then entries[k] else if k == i then x else entries[k - 1]
  {
  }

  lemma {:induction false} LookupSkip(entries: seq<(ChannelName, ChannelMachine)>, i: nat, name: ChannelName,
                                      sm: ChannelMachine, n: ChannelName)
    requires i <= |entries| && n != name
    ensures Lookup(entries[..i] + [(name, sm)] + entries[i..], n) == Lookup(entries, n)
  {
    var e := entries[..i] + [(name, sm)] + entries[i..];
    if i == 0 {
      assert e[0].0 != n && e[1..] == entries;
    } else {
      assert e[0] == entries[0];
      assert e[1..] == entries[1..][..i - 1] + [(name, sm)] + entries[1..][i - 1..];
      LookupSkip(entries[1..], i - 1, name, sm, n);
    }
  }

  /// The manager waits exactly when no machine can be updated without a
  /// message.
  lemma WaitingIffNoneIdle(entries: seq<(ChannelName, ChannelMachine)>)
    ensures (forall i :: 0 <= i < |entries| ==> entries[i].1.waiting) <==> FirstIdle(entries).None?
  {
  }
}
