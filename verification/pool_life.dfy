/** The ordinary life of a connection is a guarded run: created, used by a request,
    given back, failed and retired. */
module PoolLife {
  import opened Prelude
  import opened Bitmap
  import opened StreamIds
  import opened Connections
  import opened PoolStates
  import opened IdleDrain
  import opened Acquisition
  import opened PoolRuns
  import opened PoolTheorems
  import opened PoolSteps
  import opened PoolPasses

  /** A pool with one connection that is idle, and whose next stream ID is `hint`. */
  function IdleWith(c: ConnItem, hint: StreamId): PoolState {
    EMPTY_POOL.(known := {c}, idle := [c], managers := map[c := ManagerState(map[], hint)], created := 1)
  }

  /** The same pool while the connection serves its first stream. */
  function Serving(c: ConnItem, target: string): PoolState {
    IdleWith(c, 0).(idle := [], managers := map[c := ManagerState(map[0 := target], 1)],
                    active := {c}, activeCount := 1)
  }

  /** The same pool after the connection has gone. */
  function Gone(c: ConnItem): PoolState {
    EMPTY_POOL.(known := {c}, closed := {c}, created := 1, closedCount := 1)
  }

  lemma Creation(cfg: Config, c: ConnItem) returns (es: seq<Event>)
    requires cfg.maxPool >= 1
    ensures GuardedRun(cfg, es, START.(p := IdleWith(c, 0)))
  {
    hide GuardedRun;
    Start(cfg);
    CreateIsSteps(cfg, [], START, Some(c));
    es := [] + CreateEvents(Some(c));
    assert Attempted(START.p, Some(c)) == IdleWith(c, 0);
  }

  lemma FirstGrant(cfg: Config, c: ConnItem, target: string)
    requires cfg.maxStreams >= 1
    ensures var p := IdleWith(c, 0);
      !Stuck(cfg, p, p.idle) && Pass(cfg, p, target, Serving(c, target), Granted(c, 0))
  {
    var p := IdleWith(c, 0);
    assert Takeable(cfg, p, p.idle[0]);
    assert LastTakeable(cfg, p, p.idle) == 0;
    assert Remainder(p, p.idle, 0) == [];
    assert Allocate(FRESH, cfg.maxStreams, target) == (ManagerState(map[0 := target], 1), Some(0)) by {
      assert FirstFree({}, 0) == Some(Around(0, 0));
    }
    var q := SetActive(p.(idle := []), c);
    assert q.(managers := q.managers[c := ManagerState(map[0 := target], 1)]) == Serving(c, target);
  }

  /** The pool while the stream's target is known, and after the stream has ended. */
  function Registered(c: ConnItem, target: string): PoolState {
    Serving(c, target).(targets := map[target := c])
  }

  function Ended(c: ConnItem, target: string): PoolState {
    Serving(c, target).(managers := map[c := ManagerState(map[], 1)])
  }

  lemma StreamEnds(cfg: Config, c: ConnItem, target: string)
    requires cfg.multiplex && target != ""
    ensures Register(cfg, Serving(c, target), c, target) == Registered(c, target)
    ensures Unregister(Registered(c, target), c, 0) == Ended(c, target)
  {
    var p := Registered(c, target);
    assert StreamIds.Release(p.managers[c], 0) == ManagerState(map[], 1);
    assert p.targets - {target} == map[];
  }

  lemma ConnectionReturns(c: ConnItem, target: string)
    ensures ReleaseAt(Ended(c, target), c, 0) == IdleWith(c, 1)
  {
    var p := Ended(c, target);
    assert InsertAt(p.idle, 0, c) == [c];
    assert p.active - {c} == {};
  }

  lemma Service(cfg: Config, es: seq<Event>, c: ConnItem, target: string) returns (es': seq<Event>)
    requires cfg.maxStreams >= 1 && cfg.multiplex && target != ""
    requires GuardedRun(cfg, es, START.(p := IdleWith(c, 0)))
    ensures GuardedRun(cfg, es', START.(p := IdleWith(c, 1)))
  {
    hide GuardedRun, Pass, Register, Unregister, ReleaseAt, Stuck;
    FirstGrant(cfg, c, target);
    StreamEnds(cfg, c, target);
    ConnectionReturns(c, target);
    PassIsSteps(cfg, es, START.(p := IdleWith(c, 0)), target, Serving(c, target), Granted(c, 0));
    es' := es + PassEvents(IdleWith(c, 0), target, Serving(c, target), Granted(c, 0));
    Next(cfg, es', START.(p := Serving(c, target)), RegisterOn(c, target));
    es' := es' + [RegisterOn(c, target)];
    Next(cfg, es', START.(p := Registered(c, target)), UnregisterOn(c, 0));
    es' := es' + [UnregisterOn(c, 0)];
    ReleaseIsSteps(cfg, es', START.(p := Ended(c, target)), c, 0);
    es' := es' + ReleaseEvents(Ended(c, target), c, 0);
  }

  lemma Retirement(cfg: Config, es: seq<Event>, c: ConnItem) returns (es': seq<Event>)
    requires GuardedRun(cfg, es, START.(p := IdleWith(c, 1)))
    ensures GuardedRun(cfg, es', START.(p := Gone(c), retired := {c}))
  {
    hide GuardedRun;
    CloseIsSteps(cfg, es, START.(p := IdleWith(c, 1)), c);
    es' := es + CloseEvents(IdleWith(c, 1), c);
    assert IdleWith(c, 1).managers - {c} == map[];
    assert Close(IdleWith(c, 1), c) == Gone(c);
  }

  /** A guarded run that takes one connection through its whole life: the ledger closes
      with one creation and one closed connection, and no index names it any more. */
  lemma WholeLife(cfg: Config, c: ConnItem, target: string) returns (es: seq<Event>)
    requires cfg.maxPool >= 1 && cfg.maxStreams >= 1 && cfg.multiplex && target != ""
    ensures IsRun(cfg, es) && Guarded(cfg, es)
    ensures After(cfg, es).p == Gone(c)
  {
    es := Creation(cfg, c);
    es := Service(cfg, es, c, target);
    es := Retirement(cfg, es, c);
  }
}
