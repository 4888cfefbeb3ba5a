/**
 * The message store of _chat.js: a map from room id to the room's list of
 * `[ts, nick, text]` entries in arrival order.  `send` appends an escaped
 * entry, `exist` and `get` query, `cleanup` applies the retention rule to
 * one room, and `save`/`load` copy the whole map to and from a snapshot.
 * The clock is a parameter (`now`, in milliseconds).
 */
module ChatStore {
  import opened Js
  import opened Escape

  /** The retention window, 1.8e7 ms (five hours). */
  const TTL: int := 18_000_000

  /** One stored message: `[ts, nick, text]`. */
  datatype Entry = Entry(ts: int, nick: string, text: string)

  /** The per-room filter `(now - ts) < 1.8e7`. */
  predicate IsFresh(e: Entry, now: int) {
    now - e.ts < TTL
  }

  /**
   * `chat.filter(filter)`: the entries younger than the window, in stored
   * order; the newest entry survives whenever it is fresh.  How many copies
   * of each entry survive is `KeepFreshCounts`.
   */
  function KeepFresh(es: seq<Entry>, now: int): (r: seq<Entry>)
    ensures |r| <= |es|
    ensures IsSubsequence(r, es)
    ensures forall e :: e in r ==> IsFresh(e, now)
    ensures forall e :: e in es && IsFresh(e, now) ==> e in r
    ensures es != [] && IsFresh(es[|es| - 1], now) ==> r != [] && r[|r| - 1] == es[|es| - 1]
  {
    if es == [] then []
    else
      var tail := KeepFresh(es[1..], now);
      var r := if IsFresh(es[0], now) then [es[0]] + tail else tail;
      FreshSubsequence(es, now, tail, r);
      FreshMembers(es, now, tail, r);
      r
  }

  /** One step of the filter keeps `tail` a subsequence. */
  lemma FreshSubsequence(es: seq<Entry>, now: int, tail: seq<Entry>, r: seq<Entry>)
    requires es != []
    requires r == if IsFresh(es[0], now) then [es[0]] + tail else tail
    requires IsSubsequence(tail, es[1..])
    ensures IsSubsequence(r, es)
  {
    assert ([es[0]] + tail)[1..] == tail;
  }

  /** One step of the filter keeps exactly the fresh members and the fresh newest entry. */
  lemma FreshMembers(es: seq<Entry>, now: int, tail: seq<Entry>, r: seq<Entry>)
    requires es != []
    requires r == if IsFresh(es[0], now) then [es[0]] + tail else tail
    requires |tail| <= |es| - 1
    requires forall e :: e in tail ==> IsFresh(e, now)
    requires forall e :: e in es[1..] && IsFresh(e, now) ==> e in tail
    requires |es| > 1 && IsFresh(es[|es| - 1], now) ==> tail != [] && tail[|tail| - 1] == es[|es| - 1]
    ensures |r| <= |es|
    ensures forall e :: e in r ==> IsFresh(e, now)
    ensures forall e :: e in es && IsFresh(e, now) ==> e in r
    ensures IsFresh(es[|es| - 1], now) ==> r != [] && r[|r| - 1] == es[|es| - 1]
  {
    assert es == [es[0]] + es[1..];
  }

  /** The filter keeps every fresh entry as many times as it is stored, and no other. */
  lemma {:induction false} KeepFreshCounts(es: seq<Entry>, now: int)
    ensures forall e :: multiset(KeepFresh(es, now))[e] == if IsFresh(e, now) then multiset(es)[e] else 0
  {
    if es != [] {
      KeepFreshCounts(es[1..], now);
      FreshCount(es, now, KeepFresh(es[1..], now), KeepFresh(es, now));
    }
  }

  lemma FreshCount(es: seq<Entry>, now: int, tail: seq<Entry>, r: seq<Entry>)
    requires es != []
    requires r == if IsFresh(es[0], now) then [es[0]] + tail else tail
    requires forall e :: multiset(tail)[e] == if IsFresh(e, now) then multiset(es[1..])[e] else 0
    ensures forall e :: multiset(r)[e] == if IsFresh(e, now) then multiset(es)[e] else 0
  {
    assert es == [es[0]] + es[1..];
    assert multiset(es) == multiset([es[0]]) + multiset(es[1..]);
  }

  /** Filtering twice with the same clock changes nothing more. */
  lemma {:induction false} KeepFreshIdempotent(es: seq<Entry>, now: int)
    ensures KeepFresh(KeepFresh(es, now), now) == KeepFresh(es, now)
  {
    if es != [] {
      KeepFreshIdempotent(es[1..], now);
      var tail := KeepFresh(es[1..], now);
      if IsFresh(es[0], now) {
        assert ([es[0]] + tail)[1..] == tail;
      }
    }
  }

  /** Every room in the map holds at least one entry. */
  ghost predicate NoEmptyRoom(data: map<string, seq<Entry>>) {
    forall id :: id in data ==> data[id] != []
  }

  class Chat {
    var data: map<string, seq<Entry>>

    constructor ()
      ensures data == map[]
    {
      data := map[];
    }

    /**
     * `exist(id)`: the room is a key of the store; while no room is empty,
     * that is the same as the room having stored messages.
     */
    predicate Exist(id: string): (b: bool)
      reads this
      ensures NoEmptyRoom(data) ==> (b <==> Get(id) != [])
    {
      id in data
    }

    /** `get(id)`: the stored list, or the empty list for an unknown room. */
    function Get(id: string): (r: seq<Entry>)
      reads this
      ensures id in data ==> r == data[id]
      ensures id !in data ==> r == []
    {
      if id in data then data[id] else []
    }

    /**
     * `send(id, nick, msg)`: rejected when either raw input is empty;
     * otherwise appends one entry of the escaped inputs to the room,
     * creating it when absent, and returns that entry.
     */
    method Send(id: string, nick: string, msg: string, now: int) returns (entry: Option<Entry>)
      modifies this
      ensures entry.None? <==> (nick == [] || msg == [])
      ensures entry.None? ==> data == old(data)
      ensures entry.Some? ==> entry.value == Entry(now, Escaped(nick), Escaped(msg))
      ensures entry.Some? ==> data == old(data)[id := old(Get(id)) + [entry.value]]
      ensures entry.Some? ==> Exist(id)
      ensures NoEmptyRoom(old(data)) ==> NoEmptyRoom(data)
    {
      if nick == [] || msg == [] {
        return None;
      }
      var escapedNick := EscapeHtml(nick);
      var escapedMsg := EscapeHtml(msg);
      var e := Entry(now, escapedNick, escapedMsg);
      var chat := Get(id);
      data := data[id := chat + [e]];
      entry := Some(e);
    }

    /**
     * `cleanup(id)` on a room with entries (an empty id takes the all-rooms
     * branch instead, see the README): the whole room goes once its
     * newest entry is at least the window old; otherwise only the entries
     * younger than the window stay, in order.
     */
    method Cleanup(id: string, now: int)
      requires id != [] && Get(id) != []
      modifies this
      ensures var chat := old(Get(id));
        if !IsFresh(chat[|chat| - 1], now) then data == old(data) - {id}
        else data == old(data)[id := KeepFresh(chat, now)]
      ensures Exist(id) ==> data[id] != [] && data[id][|data[id]| - 1] == old(data[id][|data[id]| - 1])
      ensures NoEmptyRoom(old(data)) ==> NoEmptyRoom(data)
    {
      var chat := Get(id);
      if !IsFresh(chat[|chat| - 1], now) {
        data := data - {id};
      } else {
        data := data[id := KeepFresh(chat, now)];
      }
    }

    /** `save()`: the snapshot written is the whole map. */
    method Save() returns (snapshot: map<string, seq<Entry>>)
      ensures snapshot == data
    {
      snapshot := data;
    }

    /**
     * `load()`: with no snapshot file the current map is saved and kept;
     * otherwise the map becomes the snapshot's contents.
     */
    method Load(file: Option<map<string, seq<Entry>>>) returns (written: Option<map<string, seq<Entry>>>)
      modifies this
      ensures file.None? ==> data == old(data) && written == Some(data)
      ensures file.Some? ==> data == file.value && written.None?
    {
      if file.None? {
        var snapshot := Save();
        return Some(snapshot);
      }
      data := file.value;
      written := None;
    }
  }

  /** Saving a store and loading the snapshot into a new one restores every room. */
  method SaveLoadRoundTrip(chat: Chat) returns (restored: Chat)
    ensures fresh(restored)
    ensures restored.data == chat.data
  {
    var snapshot := chat.Save();
    restored := new Chat();
    var _ := restored.Load(Some(snapshot));
  }
}
