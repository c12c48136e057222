/** The pool's methods as runs: what a method does without interruption is what the steps
    named here do, one after the other, at the end of any guarded run. */
module PoolSteps {
  import opened Prelude
  import opened Connections
  import opened PoolStates
  import opened Heartbeats
  import opened PoolRuns
  import opened PoolTheorems

  /** `es` is a guarded run that leads to `s`. */
  ghost predicate GuardedRun(cfg: Config, es: seq<Event>, s: Sys) {
    IsRun(cfg, es) && Guarded(cfg, es) && After(cfg, es) == s
  }

  lemma Start(cfg: Config)
    ensures GuardedRun(cfg, [], START)
  {
  }

  lemma Next(cfg: Config, es: seq<Event>, s: Sys, e: Event)
    requires GuardedRun(cfg, es, s) && Enabled(cfg, s, e) && Guard(s, e)
    ensures GuardedRun(cfg, es + [e], Step(cfg, s, e))
  {
    hide Enabled, Step, Guard;
    var es' := es + [e];
    assert es'[..|es|] == es;
    forall i | 0 <= i < |es'| ensures Guard(After(cfg, es'[..i]), es'[i]) {
      if i < |es| {
        assert es'[..i] == es[..i];
      }
    }
  }

  /** Facts that every state of a guarded run has. */
  lemma RunFacts(cfg: Config, es: seq<Event>, s: Sys)
    requires GuardedRun(cfg, es, s)
    ensures s.publishing <= s.p.known && s.unsubtracted >= 0 && s.unadded >= 0
    ensures s.p.closed <= s.p.known && s.p.managers.Keys <= s.p.known
    ensures Once(s.p.idle)
  {
    RunIsGood(cfg, es);
  }

  // ------------------------------------------------------------- closing

  /** Closing a connection: flag, indexes, active flag, counter, statistics. */
  function CloseEvents(p: PoolState, c: ConnItem): seq<Event> {
    [WriteFails(c), DetachConn(c), ClearFlag(c)]
    + (if c in p.active then [SubtractActive] else [])
    + (if Indexed(p, c) then [CountClosed] else [])
  }

  /** The flag is off, the counter not yet adjusted. */
  function FlagOff(s: Sys, c: ConnItem): Sys {
    s.(p := s.p.(active := s.p.active - {c}), unsubtracted := s.unsubtracted + if c in s.p.active then 1 else 0)
  }

  lemma ClearFlagStep(cfg: Config, s: Sys, c: ConnItem)
    requires c in s.retired
    ensures Enabled(cfg, s, ClearFlag(c)) && Step(cfg, s, ClearFlag(c)) == FlagOff(s, c)
  {
  }

  lemma SubtractStep(cfg: Config, s: Sys, c: ConnItem)
    requires s.unsubtracted >= 0
    ensures c in s.p.active ==>
      && Enabled(cfg, FlagOff(s, c), SubtractActive)
      && Step(cfg, FlagOff(s, c), SubtractActive) == s.(p := ClearActive(s.p, c))
    ensures c !in s.p.active ==> FlagOff(s, c) == s.(p := ClearActive(s.p, c))
  {
    if c !in s.p.active {
      assert s.p.active - {c} == s.p.active;
    }
  }

  lemma FlagCleared(cfg: Config, es: seq<Event>, s: Sys, c: ConnItem)
    requires GuardedRun(cfg, es, s) && c in s.retired
    ensures GuardedRun(cfg, es + [ClearFlag(c)] + (if c in s.p.active then [SubtractActive] else []),
                       s.(p := ClearActive(s.p, c)))
  {
    hide GuardedRun, Enabled, Step, FlagOff, ClearActive;
    RunFacts(cfg, es, s);
    ClearFlagStep(cfg, s, c);
    SubtractStep(cfg, s, c);
    Next(cfg, es, s, ClearFlag(c));
    if c in s.p.active {
      Next(cfg, es + [ClearFlag(c)], FlagOff(s, c), SubtractActive);
    } else {
      assert es + [ClearFlag(c)] + [] == es + [ClearFlag(c)];
    }
  }

  lemma ConnDetached(cfg: Config, es: seq<Event>, s: Sys, c: ConnItem)
    requires GuardedRun(cfg, es, s) && c in s.p.known && c !in s.publishing
    ensures GuardedRun(cfg, es + [WriteFails(c)] + [DetachConn(c)], Detached(s.(p := MarkClosed(s.p, c)), c))
  {
    hide GuardedRun;
    Next(cfg, es, s, WriteFails(c));
    Next(cfg, es + [WriteFails(c)], s.(p := MarkClosed(s.p, c)), DetachConn(c));
  }

  lemma CountStep(cfg: Config, s: Sys, c: ConnItem)
    ensures var s1 := Detached(s.(p := MarkClosed(s.p, c)), c);
      var s2, s3 := s1.(p := ClearActive(s1.p, c)), s.(p := Close(s.p, c), retired := s.retired + {c});
      && c in s1.retired && (c in s1.p.active <==> c in s.p.active)
      && (Indexed(s.p, c) ==> Enabled(cfg, s2, CountClosed) && Step(cfg, s2, CountClosed) == s3)
      && (!Indexed(s.p, c) ==> s2 == s3)
  {
    hide Detach, RemoveFirst;
    var q := MarkClosed(s.p, c);
    assert Indexed(q, c) == Indexed(s.p, c);
    assert Detach(q, c).active == s.p.active && Detach(q, c).closedCount == s.p.closedCount by {
      DetachKeeps(q, c);
    }
  }

  lemma DetachKeeps(p: PoolState, c: ConnItem)
    ensures Detach(p, c).active == p.active && Detach(p, c).closedCount == p.closedCount
    ensures Detach(p, c).activeCount == p.activeCount
  {
  }

  /** Closing a published connection is its steps. */
  lemma CloseIsSteps(cfg: Config, es: seq<Event>, s: Sys, c: ConnItem)
    requires GuardedRun(cfg, es, s) && c in s.p.known && c !in s.publishing
    ensures GuardedRun(cfg, es + CloseEvents(s.p, c), s.(p := Close(s.p, c), retired := s.retired + {c}))
  {
    hide GuardedRun, Enabled, Step, Detached, Close, ClearActive, Indexed, MarkClosed;
    ConnDetached(cfg, es, s, c);
    CountStep(cfg, s, c);
    var s1 := Detached(s.(p := MarkClosed(s.p, c)), c);
    var es1 := es + [WriteFails(c)] + [DetachConn(c)];
    FlagCleared(cfg, es1, s1, c);
    var es2 := es1 + [ClearFlag(c)] + (if c in s.p.active then [SubtractActive] else []);
    if Indexed(s.p, c) {
      Next(cfg, es2, s1.(p := ClearActive(s1.p, c)), CountClosed);
      assert es2 + [CountClosed] == es + CloseEvents(s.p, c);
    } else {
      assert es2 == es + CloseEvents(s.p, c);
    }
  }

  function CloseAllEvents(p: PoolState, conns: seq<ConnItem>): seq<Event> {
    if conns == [] then []
    else
      var n := |conns| - 1;
      CloseAllEvents(p, conns[..n]) + CloseEvents(CloseAll(p, conns[..n]), conns[n])
  }

  lemma {:induction false} CloseAllKeepsKnown(p: PoolState, conns: seq<ConnItem>)
    ensures CloseAll(p, conns).known == p.known
  {
    if conns != [] { CloseAllKeepsKnown(p, conns[..|conns| - 1]); }
  }

  /** Closing several published connections one after the other is their steps. */
  lemma {:induction false} CloseAllIsSteps(cfg: Config, es: seq<Event>, s: Sys, conns: seq<ConnItem>)
    requires GuardedRun(cfg, es, s) && Elements(conns) <= s.p.known - s.publishing
    ensures GuardedRun(cfg, es + CloseAllEvents(s.p, conns),
                       s.(p := CloseAll(s.p, conns), retired := s.retired + Elements(conns)))
  {
    hide GuardedRun, Close, CloseEvents;
    if conns == [] {
      NoElements();
      assert es + [] == es;
      assert s.retired + Elements(conns) == s.retired;
    } else {
      var n := |conns| - 1;
      var before, c := conns[..n], conns[n];
      assert conns == before + [c];
      ElementsAppend(before, c);
      CloseAllIsSteps(cfg, es, s, before);
      var s1 := s.(p := CloseAll(s.p, before), retired := s.retired + Elements(before));
      CloseAllKeepsKnown(s.p, before);
      CloseIsSteps(cfg, es + CloseAllEvents(s.p, before), s1, c);
      assert es + CloseAllEvents(s.p, before) + CloseEvents(s1.p, c) == es + CloseAllEvents(s.p, conns);
      assert s.retired + Elements(before) + {c} == s.retired + Elements(conns);
    }
  }

  // ------------------------------------------------------------ creating

  /** A creation that gets a slot. */
  function CreateEvents(item: Option<ConnItem>): seq<Event> {
    [Reserve, CountCreated]
    + (match item case Some(c) => [PublishFirst(c), PublishSecond(c)] case None => [DialFails])
    + [ReleaseSlot]
  }

  lemma ReservedAndCounted(cfg: Config, es: seq<Event>, s: Sys)
    requires GuardedRun(cfg, es, s) && SlotFree(cfg, s.p)
    ensures GuardedRun(cfg, es + [Reserve] + [CountCreated],
              s.(p := s.p.(pending := s.p.pending + 1, created := s.p.created + 1), dialing := s.dialing + 1))
  {
    hide GuardedRun, Live;
    Next(cfg, es, s, Reserve);
    Next(cfg, es + [Reserve], Step(cfg, s, Reserve), CountCreated);
  }

  lemma PublishSteps(cfg: Config, s: Sys, c: ConnItem)
    requires s.dialing > 0 && c !in s.p.known && c !in s.publishing
    ensures var s1 := s.(p := PublishManager(s.p, c), dialing := s.dialing - 1, publishing := s.publishing + {c});
      && Enabled(cfg, s, PublishFirst(c)) && Step(cfg, s, PublishFirst(c)) == s1
      && Enabled(cfg, s1, PublishSecond(c))
      && Step(cfg, s1, PublishSecond(c)) ==
         s.(p := PublishIdle(PublishManager(s.p, c), c), dialing := s.dialing - 1, leaving := s.leaving + 1)
  {
    assert s.publishing + {c} - {c} == s.publishing;
  }

  lemma PublishedTwice(cfg: Config, es: seq<Event>, s: Sys, c: ConnItem)
    requires GuardedRun(cfg, es, s) && s.dialing > 0 && c !in s.p.known
    ensures GuardedRun(cfg, es + [PublishFirst(c)] + [PublishSecond(c)],
              s.(p := PublishIdle(PublishManager(s.p, c), c), dialing := s.dialing - 1, leaving := s.leaving + 1))
  {
    hide GuardedRun, Enabled, Step, PublishManager, PublishIdle;
    RunFacts(cfg, es, s);
    PublishSteps(cfg, s, c);
    Next(cfg, es, s, PublishFirst(c));
    Next(cfg, es + [PublishFirst(c)], Step(cfg, s, PublishFirst(c)), PublishSecond(c));
  }

  lemma DialFailed(cfg: Config, es: seq<Event>, s: Sys)
    requires GuardedRun(cfg, es, s) && s.dialing > 0
    ensures GuardedRun(cfg, es + [DialFails],
              s.(p := s.p.(failures := s.p.failures + 1), dialing := s.dialing - 1, leaving := s.leaving + 1))
  {
    hide GuardedRun;
    Next(cfg, es, s, DialFails);
  }

  lemma SlotReleased(cfg: Config, es: seq<Event>, s: Sys)
    requires GuardedRun(cfg, es, s) && s.leaving > 0
    ensures GuardedRun(cfg, es + [ReleaseSlot],
              s.(p := s.p.(pending := s.p.pending - 1), leaving := s.leaving - 1))
  {
    hide GuardedRun;
    Next(cfg, es, s, ReleaseSlot);
  }

  /** Creating a connection, or failing to, is its steps. */
  lemma CreateIsSteps(cfg: Config, es: seq<Event>, s: Sys, item: Option<ConnItem>)
    requires GuardedRun(cfg, es, s) && SlotFree(cfg, s.p)
    requires item.Some? ==> item.value !in s.p.known
    ensures GuardedRun(cfg, es + CreateEvents(item), s.(p := Attempted(s.p, item)))
  {
    hide GuardedRun, SlotFree, Live;
    ReservedAndCounted(cfg, es, s);
    var es1 := es + [Reserve] + [CountCreated];
    var s1 := s.(p := s.p.(pending := s.p.pending + 1, created := s.p.created + 1), dialing := s.dialing + 1);
    match item
    case Some(c) =>
      PublishedTwice(cfg, es1, s1, c);
      var s2 := s1.(p := PublishIdle(PublishManager(s1.p, c), c), dialing := s.dialing, leaving := s.leaving + 1);
      SlotReleased(cfg, es1 + [PublishFirst(c)] + [PublishSecond(c)], s2);
      assert es + CreateEvents(item) == es1 + [PublishFirst(c)] + [PublishSecond(c)] + [ReleaseSlot];
    case None =>
      DialFailed(cfg, es1, s1);
      var s2 := s1.(p := s1.p.(failures := s1.p.failures + 1), dialing := s.dialing, leaving := s.leaving + 1);
      SlotReleased(cfg, es1 + [DialFails], s2);
      assert es + CreateEvents(item) == es1 + [DialFails] + [ReleaseSlot];
  }

  // --------------------------------------------------- using, maintaining

  function ReleaseEvents(p: PoolState, c: ConnItem, pos: nat): seq<Event> {
    [GiveBack(c, pos)] + if c in p.active && ManagerOf(p, c).streams == map[] then [SubtractActive] else []
  }

  lemma GiveBackSteps(cfg: Config, s: Sys, c: ConnItem, pos: nat)
    requires c in s.p.known && c !in s.publishing && pos <= |s.p.idle| && s.unsubtracted >= 0
    ensures Enabled(cfg, s, GiveBack(c, pos)) && Guard(s, GiveBack(c, pos))
    ensures var s1, s2 := Step(cfg, s, GiveBack(c, pos)), s.(p := ReleaseAt(s.p, c, pos));
      if c in s.p.active && ManagerOf(s.p, c).streams == map[]
      then Enabled(cfg, s1, SubtractActive) && Step(cfg, s1, SubtractActive) == s2
      else s1 == s2
  {
    hide InsertAt;
  }

  /** Giving back a connection that is not half published is its steps. */
  lemma ReleaseIsSteps(cfg: Config, es: seq<Event>, s: Sys, c: ConnItem, pos: nat)
    requires GuardedRun(cfg, es, s) && c in s.p.known && c !in s.publishing && pos <= |s.p.idle|
    ensures GuardedRun(cfg, es + ReleaseEvents(s.p, c, pos), s.(p := ReleaseAt(s.p, c, pos)))
  {
    hide GuardedRun, Enabled, Step, ReleaseAt, ManagerOf;
    RunFacts(cfg, es, s);
    var e := GiveBack(c, pos);
    GiveBackSteps(cfg, s, c, pos);
    Next(cfg, es, s, e);
    if c in s.p.active && ManagerOf(s.p, c).streams == map[] {
      Next(cfg, es + [e], Step(cfg, s, e), SubtractActive);
      assert es + [e] + [SubtractActive] == es + ReleaseEvents(s.p, c, pos);
    } else {
      assert es + [e] == es + ReleaseEvents(s.p, c, pos);
    }
  }

  /** A heartbeat: the pass, then closing who timed out and who cannot be written to. */
  function SendEvents(
      p: PoolState, timeout: int, now: int, order: seq<ConnItem>, writeFails: set<ConnItem>): seq<Event>
  {
    var b := BeatAll(p, timeout, now, order);
    var q := p.(heartbeats := b.pending);
    [BeatPass(now, order)] + CloseAllEvents(q, b.timeouts)
    + CloseAllEvents(CloseAll(q, b.timeouts), Among(b.pings, writeFails))
  }

  lemma PassStep(cfg: Config, s: Sys, now: int, order: seq<ConnItem>)
    requires Enumerates(order, s.p.managers.Keys)
    ensures var e := BeatPass(now, order);
      && Enabled(cfg, s, e)
      && Step(cfg, s, e) ==
         s.(p := s.p.(heartbeats := BeatAll(s.p, cfg.heartbeatTimeout, now, order).pending))
  {
    hide BeatAll;
  }

  /** A heartbeat that closes no half-published connection is its steps. */
  lemma SendIsSteps(
      cfg: Config, es: seq<Event>, s: Sys, now: int, order: seq<ConnItem>, writeFails: set<ConnItem>)
    requires GuardedRun(cfg, es, s) && Enumerates(order, s.p.managers.Keys)
    requires var b := BeatAll(s.p, cfg.heartbeatTimeout, now, order);
      (Elements(b.timeouts) + Elements(Among(b.pings, writeFails))) !! s.publishing
    ensures var b := BeatAll(s.p, cfg.heartbeatTimeout, now, order);
      GuardedRun(cfg, es + SendEvents(s.p, cfg.heartbeatTimeout, now, order, writeFails),
        s.(p := SendAll(s.p, cfg.heartbeatTimeout, now, order, writeFails),
           retired := s.retired + Elements(b.timeouts) + Elements(Among(b.pings, writeFails))))
  {
    hide GuardedRun, Enabled, Step, BeatAll, CloseAll, CloseAllEvents, Among, Elements, Once;
    RunFacts(cfg, es, s);
    var b := BeatAll(s.p, cfg.heartbeatTimeout, now, order);
    var failed := Among(b.pings, writeFails);
    var q := s.p.(heartbeats := b.pending);
    BeatNamesVisited(s.p, cfg.heartbeatTimeout, now, order);
    AmongIsAmong(b.pings, writeFails);
    CloseAllKeepsKnown(q, b.timeouts);
    PassStep(cfg, s, now, order);
    var e := BeatPass(now, order);
    Next(cfg, es, s, e);
    var es1, s1 := es + [e], s.(p := q);
    CloseAllIsSteps(cfg, es1, s1, b.timeouts);
    var es2, s2 := es1 + CloseAllEvents(q, b.timeouts),
      s1.(p := CloseAll(q, b.timeouts), retired := s.retired + Elements(b.timeouts));
    CloseAllIsSteps(cfg, es2, s2, failed);
    assert es + SendEvents(s.p, cfg.heartbeatTimeout, now, order, writeFails) == es2 + CloseAllEvents(s2.p, failed);
  }
}
