/** One heartbeat pass over the managed connections. */
module Heartbeats {
  import opened Prelude
  import opened Connections
  import opened PoolStates

  /** What a pass has done so far: the pings still unanswered, the connections to
      ping and the connections that have timed out. */
  datatype Beat = Beat(pending: map<string, int>, pings: seq<ConnItem>, timeouts: seq<ConnItem>)

  function BeatOne(p: PoolState, timeout: int, now: int, b: Beat, c: ConnItem): Beat {
    if c in p.closed then b
    else if c.connectionID in b.pending then
      if now - b.pending[c.connectionID] > timeout
      then Beat(b.pending - {c.connectionID}, b.pings, b.timeouts + [c])
      else b
    else Beat(b.pending[c.connectionID := now], b.pings + [c], b.timeouts)
  }

  /** The pass, visiting the connections in the given order. */
  function BeatAll(p: PoolState, timeout: int, now: int, order: seq<ConnItem>): Beat {
    if order == [] then Beat(p.heartbeats, [], [])
    else BeatOne(p, timeout, now, BeatAll(p, timeout, now, order[..|order| - 1]), order[|order| - 1])
  }

  function BeatPool(p: PoolState, timeout: int, now: int, order: seq<ConnItem>): PoolState {
    p.(heartbeats := BeatAll(p, timeout, now, order).pending)
  }

  /** The pass and what follows it: timed out connections are closed, then those whose
      ping could not be written. */
  function SendAll(
      p: PoolState, timeout: int, now: int, order: seq<ConnItem>, writeFails: set<ConnItem>): PoolState {
    var b := BeatAll(p, timeout, now, order);
    CloseAll(CloseAll(p.(heartbeats := b.pending), b.timeouts), Among(b.pings, writeFails))
  }

  lemma {:induction false} BeatNamesVisited(p: PoolState, timeout: int, now: int, order: seq<ConnItem>)
    ensures var b := BeatAll(p, timeout, now, order);
      Elements(b.pings) + Elements(b.timeouts) <= Elements(order)
  {
    if order != [] {
      var n := |order| - 1;
      BeatNamesVisited(p, timeout, now, order[..n]);
      assert order == order[..n] + [order[n]];
      assert Elements(order) == Elements(order[..n]) + {order[n]};
    }
  }

  function Acknowledge(p: PoolState, id: string): PoolState {
    p.(heartbeats := p.heartbeats - {id})
  }

  /** `order` visits every connection of the set once. */
  ghost predicate Enumerates(order: seq<ConnItem>, s: set<ConnItem>) {
    && Elements(order) == s
    && forall i, j :: 0 <= i < j < |order| ==> order[i] != order[j]
  }

  lemma BeatIgnoresPings(p: PoolState, q: PoolState, timeout: int, now: int, b: Beat, c: ConnItem)
    requires p.closed == q.closed
    ensures BeatOne(p, timeout, now, b, c) == BeatOne(q, timeout, now, b, c)
  {
  }

  lemma BeatNext(p: PoolState, timeout: int, now: int, order: seq<ConnItem>, c: ConnItem)
    ensures BeatAll(p, timeout, now, order + [c]) == BeatOne(p, timeout, now, BeatAll(p, timeout, now, order), c)
  {
    assert (order + [c])[..|order|] == order;
  }

  lemma {:induction false} AmongIsAmong(conns: seq<ConnItem>, some: set<ConnItem>)
    ensures Elements(Among(conns, some)) == Elements(conns) * some
  {
    if conns != [] {
      var n := |conns| - 1;
      AmongIsAmong(conns[..n], some);
      assert conns == conns[..n] + [conns[n]];
      assert Elements(conns) == Elements(conns[..n]) + {conns[n]};
      assert Elements([conns[n]]) == {conns[n]};
      assert Elements(Among(conns, some)) ==
             Elements(Among(conns[..n], some)) + Elements(if conns[n] in some then [conns[n]] else []);
    }
  }

  lemma NothingEnumerated()
    ensures Enumerates([], {})
  {
  }

  lemma EnumeratesAll(order: seq<ConnItem>, s: set<ConnItem>)
    requires Enumerates(order, s)
    ensures Elements(order) == s
  {
  }

  lemma EnumeratedIsIn(order: seq<ConnItem>, s: set<ConnItem>, i: nat)
    requires Enumerates(order, s) && i < |order|
    ensures order[i] in s
  {
    assert order[i] in Elements(order);
  }

  lemma Enumerated(order: seq<ConnItem>, s: set<ConnItem>, c: ConnItem)
    requires Enumerates(order, s) && c !in s
    ensures Enumerates(order + [c], s + {c})
  {
    assert Elements(order + [c]) == Elements(order) + {c};
    forall i | 0 <= i < |order| ensures order[i] != c {
      assert order[i] in Elements(order);
    }
  }

  /** A connection with no ping outstanding is not timed out, whatever the order
      and even if other connections share its ID. */
  lemma {:induction false} NothingOutstanding(p: PoolState, timeout: int, now: int, order: seq<ConnItem>, id: string)
    requires timeout >= 0 && id !in p.heartbeats
    ensures var b := BeatAll(p, timeout, now, order);
      && (forall c :: c in b.timeouts ==> c.connectionID != id)
      && (id in b.pending ==> b.pending[id] == now)
      && (id in b.pending <==> exists c :: c in order && c !in p.closed && c.connectionID == id)
      && (forall c :: c in b.pings ==> c in order && c !in p.closed)
  {
    if order != [] {
      var n := |order| - 1;
      assert order == order[..n] + [order[n]];
      NothingOutstanding(p, timeout, now, order[..n], id);
    }
  }

  /** An outstanding ping that is not too old stays as it is. */
  lemma {:induction false} YoungPingStays(p: PoolState, timeout: int, now: int, order: seq<ConnItem>, id: string)
    requires id in p.heartbeats && now - p.heartbeats[id] <= timeout
    ensures var b := BeatAll(p, timeout, now, order);
      && id in b.pending && b.pending[id] == p.heartbeats[id]
      && (forall c :: c in b.timeouts ==> c.connectionID != id)
  {
    if order != [] {
      YoungPingStays(p, timeout, now, order[..|order| - 1], id);
    }
  }

  /** The open connection with this ID that the pass visits first. */
  function FirstBearer(p: PoolState, order: seq<ConnItem>, id: string): Option<ConnItem> {
    if order == [] then None
    else
      var n := |order| - 1;
      var before := FirstBearer(p, order[..n], id);
      if before.None? && order[n] !in p.closed && order[n].connectionID == id then Some(order[n]) else before
  }

  lemma {:induction false} FirstBearerIs(p: PoolState, order: seq<ConnItem>, id: string)
    ensures var f := FirstBearer(p, order, id);
      && (f.Some? ==> f.value in order && f.value !in p.closed && f.value.connectionID == id)
      && (f.None? ==> forall c :: c in order && c !in p.closed ==> c.connectionID != id)
  {
    if order != [] {
      FirstBearerIs(p, order[..|order| - 1], id);
      assert order == order[..|order| - 1] + [order[|order| - 1]];
    }
  }

  /** An outstanding ping that is too old times out the first open connection with its ID
      that the pass visits, and no other: the ones after it count as not pinged yet. */
  lemma {:induction false} OldPingTimesOut(p: PoolState, timeout: int, now: int, order: seq<ConnItem>, id: string)
    requires timeout >= 0 && id in p.heartbeats && now - p.heartbeats[id] > timeout
    ensures var b, f := BeatAll(p, timeout, now, order), FirstBearer(p, order, id);
      && (f.None? ==> id in b.pending && b.pending[id] == p.heartbeats[id])
      && (f.Some? ==> f.value in b.timeouts && (id in b.pending ==> b.pending[id] == now))
      && (forall c :: c in b.timeouts && c.connectionID == id ==> f == Some(c))
  {
    if order != [] {
      var n := |order| - 1;
      OldPingTimesOut(p, timeout, now, order[..n], id);
      FirstBearerIs(p, order[..n], id);
      BeatOnlyAdds(p, timeout, now, BeatAll(p, timeout, now, order[..n]), order[n]);
    }
  }

  lemma BeatOnlyAdds(p: PoolState, timeout: int, now: int, b: Beat, c: ConnItem)
    ensures var b' := BeatOne(p, timeout, now, b, c);
      && (b'.timeouts == b.timeouts || b'.timeouts == b.timeouts + [c])
      && (forall d :: d in b.timeouts ==> d in b'.timeouts)
      && (forall d :: d in b'.timeouts ==> d in b.timeouts || d == c)
  {
  }

  /** Exactly who is timed out by a pass, whether or not connections share an ID. */
  lemma TimesOutExactly(p: PoolState, timeout: int, now: int, order: seq<ConnItem>, c: ConnItem)
    requires timeout >= 0
    ensures c in BeatAll(p, timeout, now, order).timeouts <==>
      && c.connectionID in p.heartbeats && now - p.heartbeats[c.connectionID] > timeout
      && FirstBearer(p, order, c.connectionID) == Some(c)
  {
    hide BeatAll, FirstBearer;
    var id := c.connectionID;
    if id !in p.heartbeats {
      NothingOutstanding(p, timeout, now, order, id);
    } else if now - p.heartbeats[id] <= timeout {
      YoungPingStays(p, timeout, now, order, id);
    } else {
      OldPingTimesOut(p, timeout, now, order, id);
    }
  }

  /** Whom a pass pings: for an ID with no ping outstanding the first open connection with it
      that is visited, and for a young ping nobody. */
  lemma {:induction false} PingsFirstBearer(p: PoolState, timeout: int, now: int, order: seq<ConnItem>, c: ConnItem)
    requires timeout >= 0
    ensures var id, b := c.connectionID, BeatAll(p, timeout, now, order);
      && (id !in p.heartbeats ==> (c in b.pings <==> FirstBearer(p, order, id) == Some(c)))
      && (id in p.heartbeats && now - p.heartbeats[id] <= timeout ==> c !in b.pings)
  {
    if order != [] {
      var n, id := |order| - 1, c.connectionID;
      PingsFirstBearer(p, timeout, now, order[..n], c);
      FirstBearerIs(p, order[..n], id);
      if id !in p.heartbeats {
        NothingOutstanding(p, timeout, now, order[..n], id);
      } else if now - p.heartbeats[id] <= timeout {
        YoungPingStays(p, timeout, now, order[..n], id);
      }
    }
  }

  /** After a heartbeat the connections that timed out and those whose ping could not be
      written are closed and have no manager, and all others are as before. */
  lemma SendIs(p: PoolState, timeout: int, now: int, order: seq<ConnItem>, writeFails: set<ConnItem>)
    ensures var b, q := BeatAll(p, timeout, now, order), SendAll(p, timeout, now, order, writeFails);
      var gone := set c | c in b.timeouts || (c in b.pings && c in writeFails);
      && q.managers == p.managers - gone && q.closed == p.closed + gone
  {
    hide BeatAll, Among, CloseAll;
    var b := BeatAll(p, timeout, now, order);
    var q := p.(heartbeats := b.pending);
    CloseAllDropsManagers(q, b.timeouts);
    CloseAllDropsManagers(CloseAll(q, b.timeouts), Among(b.pings, writeFails));
    AmongIsAmong(b.pings, writeFails);
    var gone := set c | c in b.timeouts || (c in b.pings && c in writeFails);
    assert gone == Elements(b.timeouts) + Elements(b.pings) * writeFails;
  }
}
