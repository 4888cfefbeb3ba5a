/**
 * The live-subscriber registry of app.js (`roomSubs`): a map from room id
 * to the set of open chat responses of that room.  Subscribing adds a
 * response, `cleanupSub` removes it and drops a room whose set becomes
 * empty, and posting a message writes it to every response of its room.
 * A response is an opaque sink id; a write is returned as a value.
 * The backlog written on connect is the tail of the stored list.
 */
module Subscribers {
  import opened Js
  import opened ChatStore

  /** An open chat response, known only by identity. */
  type Sink = nat

  /** One `sub.write(...)` of a message to a response. */
  datatype Write = Write(sink: Sink, entry: Entry)

  /** The sinks written to. */
  function Targets(writes: seq<Write>): set<Sink> {
    set w | w in writes :: w.sink
  }

  /** No sink is written to twice. */
  predicate EachOnce(writes: seq<Write>) {
    forall i, j :: 0 <= i < j < |writes| ==> writes[i].sink != writes[j].sink
  }

  class Hub {
    var subs: map<string, set<Sink>>

    constructor ()
      ensures subs == map[]
    {
      subs := map[];
    }

    /** The registry never holds an empty set. */
    ghost predicate Valid()
      reads this
    {
      forall room :: room in subs ==> subs[room] != {}
    }

    /** The sinks of a room; an absent room has none. */
    function SubsOf(room: string): (r: set<Sink>)
      reads this
      ensures room in subs ==> r == subs[room]
      ensures room !in subs ==> r == {}
    {
      if room in subs then subs[room] else {}
    }

    /** Registers `sink` under `room`, creating the room's set when absent. */
    method Subscribe(room: string, sink: Sink)
      modifies this
      ensures subs == old(subs)[room := old(SubsOf(room)) + {sink}]
      ensures sink in SubsOf(room)
      ensures forall r :: r != room ==> SubsOf(r) == old(SubsOf(r))
      ensures old(Valid()) ==> Valid()
    {
      if room !in subs {
        subs := subs[room := {}];
      }
      var roomSubs := subs[room];
      subs := subs[room := roomSubs + {sink}];
    }

    /**
     * `cleanupSub(roomId, res)`: removes the sink from its room's set and
     * drops the room once its set is empty; nothing happens for an
     * unknown room.
     */
    method CleanupSub(room: string, sink: Sink)
      modifies this
      ensures room !in old(subs) ==> subs == old(subs)
      ensures room in old(subs) && old(subs[room]) - {sink} == {} ==> subs == old(subs) - {room}
      ensures room in old(subs) && old(subs[room]) - {sink} != {} ==>
                subs == old(subs)[room := old(subs[room]) - {sink}]
      ensures sink !in SubsOf(room)
      ensures forall r :: r != room ==> SubsOf(r) == old(SubsOf(r))
      ensures old(Valid()) ==> Valid()
    {
      if room !in subs {
        return;
      }
      var roomSubs := subs[room] - {sink};
      subs := subs[room := roomSubs];
      if roomSubs == {} {
        subs := subs - {room};
      }
    }

    /**
     * The fan-out after a post: one write of the entry to every sink of
     * the room at that moment, each once, and to no other sink.
     */
    method Publish(room: string, entry: Entry) returns (writes: seq<Write>)
      ensures Targets(writes) == SubsOf(room)
      ensures EachOnce(writes)
      ensures forall w :: w in writes ==> w.entry == entry
      ensures SubsOf(room) == {} ==> writes == []
    {
      writes := [];
      if room !in subs {
        return;
      }
      var pending := subs[room];
      while pending != {}
        invariant pending <= subs[room]
        invariant Targets(writes) == subs[room] - pending
        invariant EachOnce(writes)
        invariant forall w :: w in writes ==> w.entry == entry
        invariant subs[room] == {} ==> writes == []
        decreases pending
      {
        var sink :| sink in pending;
        assert Targets(writes + [Write(sink, entry)]) == Targets(writes) + {sink};
        writes := writes + [Write(sink, entry)];
        pending := pending - {sink};
      }
    }
  }

  /**
   * `messages.slice(-maxLastMessages)`: for a positive limit the last
   * `min(n, limit)` messages in stored order; a zero limit gives them all.
   */
  function Backlog(messages: seq<Entry>, maxLastMessages: int): (r: seq<Entry>)
    ensures maxLastMessages > 0 ==>
      |r| == (if maxLastMessages < |messages| then maxLastMessages else |messages|)
    ensures |r| <= |messages| && r == messages[|messages| - |r|..]
    ensures maxLastMessages == 0 ==> r == messages
  {
    SliceFrom(messages, -maxLastMessages)
  }

  /** The backlog loop on connect: one write per backlog message, in order. */
  method SendBacklog(messages: seq<Entry>, maxLastMessages: int) returns (written: seq<Entry>)
    ensures written == Backlog(messages, maxLastMessages)
  {
    var backlog := SliceFrom(messages, -maxLastMessages);
    written := [];
    for i := 0 to |backlog|
      invariant written == backlog[..i]
    {
      written := written + [backlog[i]];
    }
  }
}
