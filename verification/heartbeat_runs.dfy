/** Heartbeats over whole runs: who answers is never retired by timeout, and who
    falls silent is found by the first pass after the timeout. */
module HeartbeatRuns {
  import opened Prelude
  import opened StreamIds
  import opened Connections
  import opened PoolStates
  import opened IdleDrain
  import opened Acquisition
  import opened Heartbeats
  import opened PoolRuns
  import opened PoolTheorems

  /** The connections that the pass `e` retires for not having answered. */
  ghost function TimedOut(cfg: Config, s: Sys, e: Event): seq<ConnItem>
    requires e.BeatPass?
  {
    BeatAll(s.p, cfg.heartbeatTimeout, e.now, e.order).timeouts
  }

  predicate NoPass(es: seq<Event>, first: nat, last: nat)
    requires last <= |es|
  {
    forall i :: first <= i < last ==> !es[i].BeatPass?
  }

  /** `id` has been acknowledged since the last pass before moment n, if there was one. */
  ghost predicate Answered(es: seq<Event>, n: nat, id: string)
    requires n <= |es|
  {
    NoPass(es, 0, n) || exists k: nat :: k < n && es[k] == Ack(id) && NoPass(es, k + 1, n)
  }

  lemma PassLeavesPings(cfg: Config, p: PoolState, target: string, p': PoolState, r: Outcome)
    requires Pass(cfg, p, target, p', r)
    ensures p'.heartbeats == p.heartbeats
  {
    hide Allocate, LastTakeable, Remainder, AffinityHit, CanShare, LeastLoaded, SlotFree;
  }

  lemma OthersLeavePings(cfg: Config, s: Sys, e: Event)
    requires Enabled(cfg, s, e) && !e.BeatPass? && !e.Ack? && !e.DetachConn?
    ensures Step(cfg, s, e).p.heartbeats == s.p.heartbeats
  {
    hide Allocate, Stuck, Pass, CullSplit, InsertAt, ManagerOf, Elements, Enumerates, StreamIds.Release, TargetOf;
    if e.Acquire? {
      PassLeavesPings(cfg, s.p, e.target, e.after, e.outcome);
    }
  }

  /** Only a pass enters pings. */
  lemma OnlyPassesPing(cfg: Config, s: Sys, e: Event)
    requires Enabled(cfg, s, e) && !e.BeatPass?
    ensures Step(cfg, s, e).p.heartbeats.Keys <= s.p.heartbeats.Keys
  {
    if !e.Ack? && !e.DetachConn? {
      OthersLeavePings(cfg, s, e);
    }
  }

  lemma {:induction false} StaysUnpinged(cfg: Config, es: seq<Event>, first: nat, last: nat, id: string)
    requires IsRun(cfg, es) && first <= last <= |es| && NoPass(es, first, last)
    requires id !in After(cfg, es[..first]).p.heartbeats
    ensures id !in After(cfg, es[..last]).p.heartbeats
    decreases last
  {
    hide Enabled, Step;
    if first < last {
      StaysUnpinged(cfg, es, first, last - 1, id);
      PrefixIsRun(cfg, es, last - 1);
      OnlyPassesPing(cfg, After(cfg, es[..last - 1]), es[last - 1]);
    }
  }

  lemma AckClears(cfg: Config, s: Sys, id: string)
    ensures Enabled(cfg, s, Ack(id)) && id !in Step(cfg, s, Ack(id)).p.heartbeats
  {
  }

  /** Soundness: no connection whose ID was acknowledged since the previous pass is
      retired by this one, in any run and whatever else happens. The ID is all that counts:
      a silent connection that shares it with an answering one is not found. */
  lemma AnsweringIsSafe(cfg: Config, es: seq<Event>, n: nat, id: string)
    requires IsRun(cfg, es) && n < |es| && es[n].BeatPass? && cfg.heartbeatTimeout >= 0
    requires Answered(es, n, id)
    ensures forall c :: c in TimedOut(cfg, After(cfg, es[..n]), es[n]) ==> c.connectionID != id
  {
    hide Enabled, Step;
    if NoPass(es, 0, n) {
      assert es[..0] == [];
      StaysUnpinged(cfg, es, 0, n, id);
    } else {
      var k: nat :| k < n && es[k] == Ack(id) && NoPass(es, k + 1, n);
      PrefixIsRun(cfg, es, k);
      AckClears(cfg, After(cfg, es[..k]), id);
      StaysUnpinged(cfg, es, k + 1, n, id);
    }
    NothingOutstanding(After(cfg, es[..n]).p, cfg.heartbeatTimeout, es[n].now, es[n].order, id);
  }

  /** What leaves a ping of `id` sent at time t in place. */
  ghost predicate Undisturbed(cfg: Config, e: Event, id: string, t: int) {
    match e
    case BeatPass(now, _) => now - t <= cfg.heartbeatTimeout
    case Ack(other) => other != id
    case DetachConn(c) => c.connectionID != id
    case _ => true
  }

  lemma PingStays(cfg: Config, s: Sys, e: Event, id: string, t: int)
    requires Enabled(cfg, s, e) && Undisturbed(cfg, e, id, t)
    requires id in s.p.heartbeats && s.p.heartbeats[id] == t
    ensures var h := Step(cfg, s, e).p.heartbeats; id in h && h[id] == t
  {
    if e.BeatPass? {
      YoungPingStays(s.p, cfg.heartbeatTimeout, e.now, e.order, id);
    } else if !e.Ack? && !e.DetachConn? {
      OthersLeavePings(cfg, s, e);
    }
  }

  lemma {:induction false} PingWaits(cfg: Config, es: seq<Event>, first: nat, last: nat, id: string, t: int)
    requires IsRun(cfg, es) && first <= last <= |es|
    requires var h := After(cfg, es[..first]).p.heartbeats; id in h && h[id] == t
    requires forall i :: first <= i < last ==> Undisturbed(cfg, es[i], id, t)
    ensures var h := After(cfg, es[..last]).p.heartbeats; id in h && h[id] == t
    decreases last
  {
    hide Enabled, Step;
    if first < last {
      PingWaits(cfg, es, first, last - 1, id, t);
      PrefixIsRun(cfg, es, last - 1);
      PingStays(cfg, After(cfg, es[..last - 1]), es[last - 1], id, t);
    }
  }

  /** An open connection is pinged when its ID has no ping outstanding, or else another
      one with its ID is. */
  lemma PassPings(cfg: Config, s: Sys, e: Event, c: ConnItem)
    requires Enabled(cfg, s, e) && e.BeatPass? && cfg.heartbeatTimeout >= 0
    requires c in s.p.managers && c !in s.p.closed && c.connectionID !in s.p.heartbeats
    ensures var h := Step(cfg, s, e).p.heartbeats; c.connectionID in h && h[c.connectionID] == e.now
  {
    assert c in Elements(e.order);
    NothingOutstanding(s.p, cfg.heartbeatTimeout, e.now, e.order, c.connectionID);
  }

  /** Bounded detection: an ID pinged by pass i and silent since. Pass j retires the first
      open connection with this ID that it visits, exactly if it is later than the ping by
      more than the timeout; so the first such pass finds one, and none before does. */
  lemma SilenceIsDetected(cfg: Config, es: seq<Event>, i: nat, j: nat, c: ConnItem, d: ConnItem)
    requires IsRun(cfg, es) && i < j < |es| && cfg.heartbeatTimeout >= 0
    requires es[i].BeatPass? && es[j].BeatPass? && c.connectionID == d.connectionID
    requires var p := After(cfg, es[..i]).p; c in p.managers && c !in p.closed && c.connectionID !in p.heartbeats
    requires forall k :: i < k < j ==> Undisturbed(cfg, es[k], c.connectionID, es[i].now)
    ensures d in TimedOut(cfg, After(cfg, es[..j]), es[j]) <==>
      && es[j].now - es[i].now > cfg.heartbeatTimeout
      && FirstBearer(After(cfg, es[..j]).p, es[j].order, d.connectionID) == Some(d)
  {
    hide Enabled, Step, BeatAll, FirstBearer;
    PrefixIsRun(cfg, es, i);
    PassPings(cfg, After(cfg, es[..i]), es[i], c);
    PingWaits(cfg, es, i + 1, j, c.connectionID, es[i].now);
    TimesOutExactly(After(cfg, es[..j]).p, cfg.heartbeatTimeout, es[j].now, es[j].order, d);
  }

  /** The pass finds somebody whenever an open managed connection has the ID, and that very
      connection if no other has it. */
  lemma SilentAloneIsFound(cfg: Config, s: Sys, e: Event, c: ConnItem)
    requires Enabled(cfg, s, e) && e.BeatPass? && c in s.p.managers && c !in s.p.closed
    ensures var f := FirstBearer(s.p, e.order, c.connectionID);
      && f.Some? && f.value in s.p.managers && f.value !in s.p.closed && f.value.connectionID == c.connectionID
      && ((forall d :: d in s.p.managers && d !in s.p.closed && d.connectionID == c.connectionID ==> d == c) ==>
            f == Some(c))
  {
    FirstBearerIs(s.p, e.order, c.connectionID);
    assert c in Elements(e.order);
    var f := FirstBearer(s.p, e.order, c.connectionID);
    assert f.value in Elements(e.order);
  }
}
