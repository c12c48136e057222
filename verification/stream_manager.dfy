/** The stream manager of one connection: bitmap, cursor, stream map and the
    counters it keeps on the connection and its traffic record. */
module StreamManagers {
  import opened Prelude
  import opened Bitmap
  import opened StreamIds
  import opened StreamWindow
  import opened Connections

  /** The targets the streams serve, by ID. */
  ghost function Targets(streams: map<StreamId, Stream>): map<StreamId, string> {
    map id | id in streams :: streams[id].targetAddr
  }

  lemma TargetsSize(streams: map<StreamId, Stream>)
    ensures Targets(streams).Keys == streams.Keys
    ensures |Targets(streams)| == |streams|
  {
    assert Targets(streams).Keys == streams.Keys;
  }

  lemma TargetsInsert(streams: map<StreamId, Stream>, id: StreamId, s: Stream)
    ensures Targets(streams[id := s]) == Targets(streams)[id := s.targetAddr]
  {
  }

  lemma TargetsRemove(streams: map<StreamId, Stream>, id: StreamId)
    ensures Targets(streams - {id}) == Targets(streams) - {id}
  {
  }

  /** The bitmap stands for the keys of the stream map, and both counters equal its size. */
  ghost predicate InOrder(streams: map<StreamId, Stream>, bitmap: Words, count: int, active: int) {
    && Represents(bitmap, streams.Keys)
    && (forall id :: id in streams ==> streams[id].id == id)
    && count == |streams|
    && active == |streams|
  }

  lemma AddedInOrder(
      streams: map<StreamId, Stream>, bitmap: Words, count: int, active: int, id: StreamId, stream: Stream)
    requires InOrder(streams, bitmap, count, active) && id !in streams && stream.id == id
    ensures InOrder(streams[id := stream], SetBit(bitmap, id), count + 1, active + 1)
  {
    hide Represents, SetBit;
    SetBitRefinesInsert(bitmap, streams.Keys, id);
    MapInsertSize(streams, id, stream);
  }

  lemma RemovedInOrder(streams: map<StreamId, Stream>, bitmap: Words, count: int, active: int, id: StreamId)
    requires InOrder(streams, bitmap, count, active) && id in streams
    ensures InOrder(streams - {id}, ClearBit(bitmap, id), count - 1, active - 1) && count > 0
  {
    hide Represents, ClearBit;
    ClearBitRefinesRemove(bitmap, streams.Keys, id);
    MapRemoveSize(streams, id);
  }

  class StreamManager {
    const conn: ConnItem
    const max: int
    const defaultWindowSize: int
    const minWindowSize: int
    const maxWindowSize: int
    var streams: map<StreamId, Stream>
    var allocBitmap: Words
    var nextHint: StreamId

    ghost predicate Valid()
      reads this, conn`streams, conn`activeStreams
    {
      InOrder(streams, allocBitmap, conn.streams, conn.activeStreams)
    }

    ghost function View(): ManagerState
      reads this
    {
      ManagerState(Targets(streams), nextHint)
    }

    constructor (conn: ConnItem, max: int, defaultWindow: int, minWindow: int, maxWindow: int)
      requires conn.streams == 0 && conn.activeStreams == 0
      ensures Valid() && View() == FRESH
      ensures this.conn == conn && this.max == max
      ensures defaultWindowSize == defaultWindow && minWindowSize == minWindow && maxWindowSize == maxWindow
    {
      this.conn, this.max := conn, max;
      defaultWindowSize, minWindowSize, maxWindowSize := defaultWindow, minWindow, maxWindow;
      streams, allocBitmap, nextHint := map[], EMPTY, 0;
      new;
      EmptyRefinesEmpty();
      assert streams.Keys == {};
    }

    method GetStreamCount() returns (n: nat)
      ensures n == |View().streams|
    {
      n := |streams|;
      TargetsSize(streams);
    }

    /** Scans the 256 bits from the cursor on. */
    method FindFreeBit() returns (id: StreamId, found: bool)
      requires Valid()
      modifies `nextHint
      ensures found <==> FirstFree(streams.Keys, old(nextHint)).Some?
      ensures found ==> FirstFree(streams.Keys, old(nextHint)) == Some(id) && nextHint == Around(id, 1)
      ensures !found ==> nextHint == old(nextHint)
    {
      var offset := 0;
      while offset < 256
        invariant 0 <= offset <= 256
        invariant nextHint == old(nextHint)
        invariant FirstFree(streams.Keys, nextHint) == Scan(streams.Keys, nextHint, offset)
      {
        id := (nextHint + offset) % 256;
        if And(allocBitmap[id / 64], Pow2(id % 64)) == 0 {
          assert !IsBitSet(allocBitmap, id);
          nextHint := (id + 1) % 256;
          return id, true;
        }
        assert IsBitSet(allocBitmap, id);
        offset := offset + 1;
      }
      return 0, false;
    }

    /** Takes the bit of a free ID and files the stream under it. */
    method AddStream(id: StreamId, stream: Stream)
      requires Valid() && id !in streams && stream.id == id
      modifies `streams, `allocBitmap, conn`streams, conn`activeStreams
      ensures Valid()
      ensures streams == old(streams)[id := stream]
    {
      hide InOrder, SetBit;
      AddedInOrder(streams, allocBitmap, conn.streams, conn.activeStreams, id, stream);
      streams, allocBitmap := streams[id := stream], SetBit(allocBitmap, id);
      conn.streams, conn.activeStreams := conn.streams + 1, conn.activeStreams + 1;
    }

    /** Drops a stream and frees its bit. */
    method RemoveStream(id: StreamId)
      requires Valid() && id in streams
      modifies `streams, `allocBitmap, conn`streams, conn`activeStreams
      ensures Valid()
      ensures streams == old(streams) - {id}
    {
      hide InOrder, ClearBit;
      RemovedInOrder(streams, allocBitmap, conn.streams, conn.activeStreams, id);
      streams, allocBitmap := streams - {id}, ClearBit(allocBitmap, id);
      if conn.streams > 0 {
        conn.streams := conn.streams - 1;
      }
      conn.activeStreams := conn.activeStreams - 1;
    }

    method TryAllocateStream(target: string) returns (id: StreamId, ok: bool)
      requires Valid()
      modifies this, conn`streams, conn`activeStreams
      ensures Valid()
      ensures ok <==> HasRoom(old(View()), max)
      ensures View() == Allocate(old(View()), max, target).0
      ensures Allocate(old(View()), max, target).1 == if ok then Some(id) else None
      ensures ok ==> id in streams && fresh(streams[id]) && streams == old(streams)[id := streams[id]]
      ensures ok ==>
        var s := streams[id];
        && s.sendWindow == s.recvWindow == s.windowSize == defaultWindowSize
        && s.minWindowSize == minWindowSize && s.maxWindowSize == maxWindowSize
      ensures !ok ==> streams == old(streams)
    {
      TargetsSize(streams);
      AllocateIsComplete(View(), max, target);
      if |streams| >= max {
        return 0, false;
      }
      var found;
      id, found := FindFreeBit();
      if !found {
        return 0, false;
      }
      var stream := new Stream(id, target, defaultWindowSize, minWindowSize, maxWindowSize);
      TargetsInsert(streams, id, stream);
      AddStream(id, stream);
      return id, true;
    }

    /** Forgets a stream; returns its target and whether none is left. An unknown
        ID changes nothing. */
    method UnregisterStream(id: StreamId) returns (target: string, isEmpty: bool)
      requires Valid()
      modifies `streams, `allocBitmap, conn`streams, conn`activeStreams
      ensures Valid()
      ensures streams == old(streams) - {id} && nextHint == old(nextHint)
      ensures conn.streams == old(conn.streams) - (if id in old(streams) then 1 else 0)
      ensures conn.activeStreams == old(conn.activeStreams) - (if id in old(streams) then 1 else 0)
      ensures View() == Release(old(View()), id)
      ensures target == if id in old(View()).streams then old(View()).streams[id] else ""
      ensures isEmpty <==> View().streams == map[]
    {
      ghost var before := View();
      TargetsSize(streams);
      TargetsRemove(streams, id);
      if id in streams {
        target := streams[id].targetAddr;
        RemoveStream(id);
        assert View() == Release(before, id);
      } else {
        target := "";
        assert streams - {id} == streams;
      }
      TargetsSize(streams);
      isEmpty := |streams| == 0;
    }

    /** Runs the close callbacks, which may unregister any streams they like
        (`callbacks`), and then drops whatever is left. */
    method HandleConnectionClose(callbacks: seq<StreamId>)
      requires Valid()
      modifies `streams, `allocBitmap, `nextHint, conn`streams, conn`activeStreams
      ensures Valid() && View() == FRESH
      ensures conn.streams == 0 && conn.activeStreams == 0
    {
      var i := 0;
      while i < |callbacks|
        invariant Valid()
      {
        var target, isEmpty := UnregisterStream(callbacks[i]);
        i := i + 1;
      }
      var remaining := |streams|;
      streams, allocBitmap, nextHint := map[], EMPTY, 0;
      EmptyRefinesEmpty();
      assert streams.Keys == {};
      if remaining > 0 {
        conn.streams := Max(conn.streams - remaining, 0);
        i := 0;
        while i < remaining
          invariant 0 <= i <= remaining
          invariant conn.activeStreams == remaining - i && conn.streams == 0
          invariant streams == map[] && allocBitmap == EMPTY && nextHint == 0
        {
          conn.activeStreams := conn.activeStreams - 1;
          i := i + 1;
        }
      }
      assert View().streams == map[];
    }
  }
}
