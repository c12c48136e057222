/** Runs that break a guard: what the source's interleavings then really do. */
module PoolRaces {
  import opened StreamIds
  import opened Connections
  import opened PoolStates
  import opened IdleDrain
  import opened Acquisition
  import opened PoolRuns
  import opened PoolTheorems
  import opened PoolSteps
  import opened PoolPasses
  import PoolLife

  lemma Extend(cfg: Config, es: seq<Event>, e: Event)
    requires IsRun(cfg, es) && Enabled(cfg, After(cfg, es), e)
    ensures IsRun(cfg, es + [e])
    ensures After(cfg, es + [e]) == Step(cfg, After(cfg, es), e)
  {
    assert (es + [e])[..|es|] == es;
  }

  /** A connection with a manager that is still missing from the idle list. */
  lemma HalfPublished(cfg: Config, c: ConnItem) returns (es: seq<Event>)
    requires cfg.maxPool >= 1
    ensures IsRun(cfg, es)
    ensures After(cfg, es) ==
            START.(p := EMPTY_POOL.(known := {c}, managers := map[c := FRESH], pending := 1, created := 1),
                   publishing := {c})
  {
    Extend(cfg, [], Reserve);
    assert [] + [Reserve] == [Reserve];
    Extend(cfg, [Reserve], CountCreated);
    assert [Reserve] + [CountCreated] == [Reserve, CountCreated];
    Extend(cfg, [Reserve, CountCreated], PublishFirst(c));
    es := [Reserve, CountCreated] + [PublishFirst(c)];
  }

  /** A request that is granted a stream on a connection between its two publication
      sections can leave a full connection alone in the idle list. */
  lemma GrantWhilePublishingStrands(c: ConnItem) returns (cfg: Config, es: seq<Event>)
    ensures cfg.multiplex && cfg.maxStreams == 1 && IsRun(cfg, es)
    ensures var p := After(cfg, es).p; p.idle == [c] && c !in p.closed && !Roomy(cfg, p, c)
  {
    cfg := Config(1, 1, true, 30);
    es := HalfPublished(cfg, c);
    var p := After(cfg, es).p;
    assert Allocate(FRESH, 1, "") == (ManagerState(map[0 := ""], 1), Prelude.Some(0)) by {
      assert FirstFree({}, 0) == Prelude.Some(Around(0, 0));
    }
    var q := p.(managers := map[c := ManagerState(map[0 := ""], 1)]);
    assert p.managers[c := ManagerState(map[0 := ""], 1)] == q.managers;
    assert CanShare(cfg, p) by { assert c in p.managers && Takeable(cfg, p, c); }
    var grant := Acquire("", q, Granted(c, 0));
    Extend(cfg, es, grant);
    es := es + [grant];
    Extend(cfg, es, PublishSecond(c));
    es := es + [PublishSecond(c)];
    p := After(cfg, es).p;
    assert p.idle == [c] && |p.managers[c].streams| == 1;
  }

  /** The next request's drain loop then turns, holding the pool's lock, until some other
      thread closes that connection; if nobody does, it turns for ever. */
  lemma StrandedHangsUntilClosed(cfg: Config, p: PoolState, c: ConnItem, wave: Waves)
    requires p.idle == [c] && !Roomy(cfg, p, c)
    ensures Ends(cfg, p, p.idle, wave) <==> ClosesInTime(p, wave, c)
  {
    DrainEndsIff(cfg, p, p.idle, wave);
    assert c in p.idle;
  }

  /** An idle connection, and another one that is half published. */
  lemma IdleAndHalfPublished(cfg: Config, a: ConnItem, c: ConnItem) returns (es: seq<Event>, s: Sys)
    requires cfg.maxPool >= 2 && a != c
    ensures GuardedRun(cfg, es, s)
    ensures s.p.idle == [a] && s.p.managers == map[a := FRESH, c := FRESH] && s.p.closed == {} && s.publishing == {c}
  {
    hide GuardedRun, Enabled, Step;
    var first := PoolLife.Creation(cfg, a);
    var p := PoolLife.IdleWith(a, 0);
    assert Live(p) == {a};
    ReservedAndCounted(cfg, first, START.(p := p));
    var s1 := START.(p := p.(pending := 1, created := 2), dialing := 1);
    PublishSteps(cfg, s1, c);
    Next(cfg, first + [Reserve] + [CountCreated], s1, PublishFirst(c));
    es := first + [Reserve] + [CountCreated] + [PublishFirst(c)];
    s := Step(cfg, s1, PublishFirst(c));
  }

  /** A takeable idle connection is no protection: if it closes before the pass looks at it,
      the request is granted on the half-published one. */
  lemma CloseWhilePassingBreaks(cfg: Config, a: ConnItem, c: ConnItem, target: string)
      returns (es: seq<Event>, s: Sys, g: Sight, p': PoolState, r: Outcome)
    requires cfg.multiplex && cfg.maxStreams >= 1 && cfg.maxPool >= 2 && a != c
    ensures GuardedRun(cfg, es, s) && !Stuck(cfg, s.p, s.p.idle) && PassMayRun(cfg, s, target)
    ensures PassUnder(cfg, s.p, target, g, p', r) && p'.closed <= s.p.known && !Tidy(s.(p := p'))
  {
    hide GuardedRun, Safe, Tidy, PassUnder;
    es, s := IdleAndHalfPublished(cfg, a, c);
    RunLeadsTo(cfg, es, s);
    RunIsGood(cfg, es);
    assert Takeable(cfg, s.p, s.p.idle[0]);
    assert c in s.publishing;
    g, p', r := UncheckedInterruptedPassCanBreak(cfg, s, target);
  }

  lemma DetachNow(cfg: Config, es: seq<Event>, c: ConnItem) returns (es': seq<Event>)
    requires IsRun(cfg, es) && c in After(cfg, es).p.known
    ensures IsRun(cfg, es')
    ensures var s := After(cfg, es); After(cfg, es') == Detached(s.(p := MarkClosed(s.p, c)), c)
  {
    Extend(cfg, es, WriteFails(c));
    es' := es + [WriteFails(c)];
    Extend(cfg, es', DetachConn(c));
    es' := es' + [DetachConn(c)];
  }

  /** Closing a connection that some index still names adds one to the closed count. */
  lemma CloseNow(cfg: Config, es: seq<Event>, c: ConnItem) returns (es': seq<Event>)
    requires IsRun(cfg, es) && c in After(cfg, es).p.known && Indexed(After(cfg, es).p, c)
    ensures IsRun(cfg, es')
    ensures var s, s' := After(cfg, es), After(cfg, es');
      && s'.p.closedCount == s.p.closedCount + 1
      && s'.p.created == s.p.created && s'.publishing == s.publishing && s'.p.known == s.p.known
  {
    es' := DetachNow(cfg, es, c);
    Extend(cfg, es', CountClosed);
    es' := es' + [CountClosed];
  }

  /** A connection that is detached between its two publication sections comes back
      into the idle list and is counted as closed a second time. */
  lemma DetachWhilePublishingCountsTwice(cfg: Config, c: ConnItem) returns (es: seq<Event>)
    requires cfg.maxPool >= 1
    ensures IsRun(cfg, es)
    ensures After(cfg, es).p.created == 1 && After(cfg, es).p.closedCount == 2
  {
    es := HalfPublished(cfg, c);
    es := CloseNow(cfg, es, c);
    Extend(cfg, es, PublishSecond(c));
    var before := After(cfg, es).p;
    es := es + [PublishSecond(c)];
    assert After(cfg, es).p.idle == before.idle + [c];
    es := CloseNow(cfg, es, c);
  }

  /** Registering a handler on a retired connection gives it a manager again and
      points an affinity target at it. */
  lemma RegisterRevivesRetired(cfg: Config, c: ConnItem, target: string) returns (es: seq<Event>)
    requires cfg.maxPool >= 1 && cfg.multiplex && target != ""
    ensures IsRun(cfg, es)
    ensures var s := After(cfg, es);
      c in s.retired && c in s.p.managers && target in s.p.targets && s.p.targets[target] == c
  {
    es := HalfPublished(cfg, c);
    Extend(cfg, es, PublishSecond(c));
    es := es + [PublishSecond(c)];
    Extend(cfg, es, WriteFails(c));
    es := es + [WriteFails(c)];
    Extend(cfg, es, DetachConn(c));
    es := es + [DetachConn(c)];
    Extend(cfg, es, RegisterOn(c, target));
    es := es + [RegisterOn(c, target)];
  }
}
