/** What holds after any run of the pool, and after any guarded run. */
module PoolTheorems {
  import opened Prelude
  import opened Bitmap
  import opened Connections
  import opened PoolStates
  import opened IdleDrain
  import opened Acquisition
  import opened PoolRuns

  ghost predicate IsRun(cfg: Config, es: seq<Event>) {
    es == [] ||
    (IsRun(cfg, es[..|es| - 1]) && Enabled(cfg, After(cfg, es[..|es| - 1]), es[|es| - 1]))
  }

  /** The state a run leads to, from an empty pool. */
  ghost function After(cfg: Config, es: seq<Event>): Sys {
    if es == [] then START
    else
      var s := After(cfg, es[..|es| - 1]);
      if Enabled(cfg, s, es[|es| - 1]) then Step(cfg, s, es[|es| - 1]) else s
  }

  lemma {:induction false} PrefixIsRun(cfg: Config, es: seq<Event>, n: nat)
    requires IsRun(cfg, es) && n <= |es|
    ensures IsRun(cfg, es[..n])
    ensures n < |es| ==> Enabled(cfg, After(cfg, es[..n]), es[n])
    ensures n < |es| ==> After(cfg, es[..n + 1]) == Step(cfg, After(cfg, es[..n]), es[n])
  {
    hide Enabled, Step;
    if n == |es| {
      assert es[..n] == es;
    } else {
      var m := |es| - 1;
      if n < m {
        PrefixIsRun(cfg, es[..m], n);
        assert es[..m][..n] == es[..n] && es[..m][..n + 1] == es[..n + 1];
      } else {
        assert es[..n + 1] == es;
      }
    }
  }

  ghost predicate Guarded(cfg: Config, es: seq<Event>) {
    forall i :: 0 <= i < |es| ==> Guard(After(cfg, es[..i]), es[i])
  }

  lemma {:induction false} RunsAreSafe(cfg: Config, es: seq<Event>)
    requires IsRun(cfg, es)
    ensures Safe(cfg, After(cfg, es))
  {
    if es != [] {
      RunsAreSafe(cfg, es[..|es| - 1]);
      EveryStepIsSafe(cfg, After(cfg, es[..|es| - 1]), es[|es| - 1]);
    }
  }

  /** The capacity is never exceeded: open connections plus reservations that have
      not been published stay within the limit, under every interleaving. */
  lemma CapacityHolds(cfg: Config, es: seq<Event>)
    requires IsRun(cfg, es)
    ensures var s := After(cfg, es);
      |Live(s.p)| + s.reserved + s.dialing <= Max(cfg.maxPool, 0)
  {
    RunsAreSafe(cfg, es);
    LiveAreManaged(cfg, After(cfg, es).p, After(cfg, es).retired);
  }

  /** Counters and indexes are sound after every run: slots are counted exactly, active
      flags up to the counter updates still to come, affinity targets point at connections
      with a manager, and no connection carries more streams than allowed. */
  lemma CountersAndTargetsHold(cfg: Config, es: seq<Event>)
    requires IsRun(cfg, es)
    ensures var s := After(cfg, es);
      && s.p.activeCount + s.unadded == |s.p.active| + s.unsubtracted
      && s.p.pending == s.reserved + s.dialing + |s.publishing| + s.leaving
      && s.p.targets.Values <= s.p.managers.Keys
      && WithinLimit(cfg, s.p)
  {
    RunsAreSafe(cfg, es);
  }

  ghost predicate WithinLimit(cfg: Config, p: PoolState) {
    forall c :: c in p.managers ==> |p.managers[c].streams| <= Max(cfg.maxStreams, 0)
  }

  lemma {:induction false} TidyPrefix(cfg: Config, es: seq<Event>, n: nat)
    requires IsRun(cfg, es) && n <= |es|
    requires forall i :: 0 <= i < n ==> Guard(After(cfg, es[..i]), es[i])
    ensures Tidy(After(cfg, es[..n]))
  {
    hide Enabled, Step, Guard, Safe;
    if n == 0 {
      assert es[..0] == [];
    } else {
      TidyPrefix(cfg, es, n - 1);
      PrefixIsRun(cfg, es, n - 1);
      RunsAreSafe(cfg, es[..n - 1]);
      StepIsTidyIffGuarded(cfg, After(cfg, es[..n - 1]), es[n - 1]);
    }
  }

  /** A run stays tidy at every moment exactly when all its steps are guarded. */
  lemma RunIsTidyIffGuarded(cfg: Config, es: seq<Event>)
    requires IsRun(cfg, es)
    ensures (forall n :: 0 <= n <= |es| ==> Tidy(After(cfg, es[..n]))) <==> Guarded(cfg, es)
  {
    if Guarded(cfg, es) {
      forall n | 0 <= n <= |es| ensures Tidy(After(cfg, es[..n])) {
        TidyPrefix(cfg, es, n);
      }
    } else {
      var i :| 0 <= i < |es| && !Guard(After(cfg, es[..i]), es[i]);
      if Tidy(After(cfg, es[..i])) {
        PrefixIsRun(cfg, es, i);
        RunsAreSafe(cfg, es[..i]);
        StepIsTidyIffGuarded(cfg, After(cfg, es[..i]), es[i]);
        assert !Tidy(After(cfg, es[..i + 1]));
      }
    }
  }

  /** What can be checked before a step, without knowing the outcome of an undisturbed
      pass. */
  ghost predicate Checked(cfg: Config, s: Sys, e: Event) {
    if e.Acquire? then PassMayRun(cfg, s, e.target) else Guard(s, e)
  }

  lemma CheckedIsGuarded(cfg: Config, s: Sys, e: Event)
    requires Tidy(s) && Enabled(cfg, s, e) && Checked(cfg, s, e)
    ensures Guard(s, e)
  {
    hide Tidy, Pass, PassMayRun;
    if e.Acquire? && e.outcome.Granted? {
      CheckedGrant(cfg, s, e.target, e.after, e.outcome);
    }
  }

  lemma {:induction false} CheckedPrefix(cfg: Config, es: seq<Event>, n: nat)
    requires IsRun(cfg, es) && n <= |es|
    requires forall i :: 0 <= i < |es| ==> Checked(cfg, After(cfg, es[..i]), es[i])
    ensures forall i :: 0 <= i < n ==> Guard(After(cfg, es[..i]), es[i])
  {
    hide Enabled, Step, Checked, Tidy, Guard, IsRun, After;
    if n > 0 {
      CheckedPrefix(cfg, es, n - 1);
      TidyPrefix(cfg, es, n - 1);
      PrefixIsRun(cfg, es, n - 1);
      CheckedIsGuarded(cfg, After(cfg, es[..n - 1]), es[n - 1]);
    }
  }

  /** A run all of whose steps are checked beforehand is guarded; the check of a pass falls
      after the closes that it saw. */
  lemma CheckedRunIsGuarded(cfg: Config, es: seq<Event>)
    requires IsRun(cfg, es) && forall i :: 0 <= i < |es| ==> Checked(cfg, After(cfg, es[..i]), es[i])
    ensures Guarded(cfg, es)
  {
    CheckedPrefix(cfg, es, |es|);
  }

  /** After a guarded run the pool is both safe and tidy. */
  lemma RunIsGood(cfg: Config, es: seq<Event>)
    requires IsRun(cfg, es) && Guarded(cfg, es)
    ensures Safe(cfg, After(cfg, es)) && Tidy(After(cfg, es))
  {
    RunsAreSafe(cfg, es);
    TidyPrefix(cfg, es, |es|);
    assert es[..|es|] == es;
  }

  /** The open connections split into the idle ones, listed once each and without
      streams, the active ones and those being published. */
  ghost predicate Splits(p: PoolState, publishing: set<ConnItem>) {
    && Live(p) == (Elements(p.idle) + p.active * p.managers.Keys + publishing) - p.closed
    && Elements(p.idle) !! p.active && Elements(p.idle) !! publishing && publishing !! p.active
    && Once(p.idle)
    && Streamless(p, Elements(p.idle) + publishing)
  }

  lemma TidySplits(p: PoolState, publishing: set<ConnItem>)
    requires Partitioned(p, publishing) && Live(p) == OpenManaged(p)
    ensures Splits(p, publishing)
  {
    assert p.managers.Keys - p.closed == (Elements(p.idle) + p.active * p.managers.Keys + publishing) - p.closed;
  }

  /** The partition holds after every guarded run, and the active counter is exact up to
      the updates still to come. */
  lemma PartitionHolds(cfg: Config, es: seq<Event>)
    requires IsRun(cfg, es) && Guarded(cfg, es)
    ensures Splits(After(cfg, es).p, After(cfg, es).publishing)
    ensures var s := After(cfg, es);
      s.p.activeCount == |s.p.active| + s.unsubtracted - s.unadded
  {
    RunIsGood(cfg, es);
    var s := After(cfg, es);
    LiveAreManaged(cfg, s.p, s.retired);
    TidySplits(s.p, s.publishing);
  }

  lemma OpenIdleAreEmpty(cfg: Config, s: Sys, c: ConnItem)
    requires Safe(cfg, s) && Tidy(s) && c in s.p.idle
    ensures Roomy(cfg, s.p, c) <==> cfg.maxStreams >= 1
  {
    assert c in Elements(s.p.idle);
  }

  /** In a guarded run the drain loop ends, whatever other threads close meanwhile, if
      any stream is allowed at all; with a limit of zero or less it ends exactly if every
      listed connection is closed in time. */
  lemma DrainHangsIffNoStreams(cfg: Config, s: Sys, wave: Waves)
    requires Safe(cfg, s) && Tidy(s)
    ensures Ends(cfg, s.p, s.p.idle, wave) <==>
      cfg.maxStreams >= 1 || forall c :: c in s.p.idle ==> ClosesInTime(s.p, wave, c)
  {
    hide Safe, Tidy, Roomy, DrainUnder;
    var idle := s.p.idle;
    DrainEndsIff(cfg, s.p, idle, wave);
    forall c | c in idle ensures Roomy(cfg, s.p, c) <==> cfg.maxStreams >= 1 {
      OpenIdleAreEmpty(cfg, s, c);
    }
    forall i: nat | i < |idle| ensures Entry(idle, i) in idle {}
    if cfg.maxStreams >= 1 {
      assert FullOnesClose(cfg, s.p, idle, wave);
    }
  }

  /** With a positive limit the loop of a guarded run is short, whatever other threads
      close meanwhile: each of the first |idle| rounds takes its entry or drops it, so
      the loop is over after them, and none puts a connection back. */
  lemma DrainIsShort(cfg: Config, s: Sys, wave: Waves, n: nat)
    requires Safe(cfg, s) && Tidy(s) && cfg.maxStreams >= 1 && n <= |s.p.idle|
    ensures var d := DrainUnder(cfg, s.p, s.p.idle, wave, n);
      && (d.Took? || d == Running(s.p.idle[..|s.p.idle| - n]))
      && (n == |s.p.idle| ==> Ended(d))
  {
    hide Safe, Tidy, Roomy, DrainUnder;
    forall c | c in s.p.idle ensures Roomy(cfg, s.p, c) {
      OpenIdleAreEmpty(cfg, s, c);
    }
    RoomyListDrains(cfg, s.p, s.p.idle, wave, n);
  }

  lemma TidyIsNotStuck(cfg: Config, s: Sys)
    requires Safe(cfg, s) && Tidy(s) && cfg.maxStreams >= 1
    ensures !Stuck(cfg, s.p, s.p.idle)
  {
    DrainHangsIffNoStreams(cfg, s, QUIET);
    QuietDrainEndsIffNotStuck(cfg, s.p, s.p.idle);
  }

  /** A granted stream ID is fresh on its connection, which is open and not retired. */
  ghost predicate FreshGrant(s: Sys, q: PoolState, r: Outcome) {
    r.Granted? ==>
      && r.conn in Live(s.p) && r.conn !in s.retired && r.conn in q.managers
      && r.id !in ManagerOf(s.p, r.conn).streams
      && r.id in q.managers[r.conn].streams
  }

  /** Every open connection carries exactly the limit. */
  ghost predicate AllAtLimit(cfg: Config, p: PoolState) {
    forall c :: c in Live(p) ==> |ManagerOf(p, c).streams| == cfg.maxStreams
  }

  lemma GrantIsOnKnown(cfg: Config, s: Sys, target: string, q: PoolState, r: Outcome)
    requires Safe(cfg, s) && Pass(cfg, s.p, target, q, r) && r.Granted?
    ensures r.conn in s.p.known
  {
    var k := LastTakeable(cfg, s.p, s.p.idle);
    if k >= 0 { assert s.p.idle[k] in s.p.idle; }
  }

  lemma TidyGrantIsFresh(cfg: Config, s: Sys, target: string, q: PoolState, r: Outcome)
    requires Safe(cfg, s) && Tidy(s) && Pass(cfg, s.p, target, q, r)
    ensures FreshGrant(s, q, r)
  {
    if r.Granted? {
      LiveAreManaged(cfg, s.p, s.retired);
      GrantIsFresh(cfg, s.p, target, q, r);
      GrantIsOnKnown(cfg, s, target, q, r);
    }
  }

  lemma TidyRefusalIsFull(cfg: Config, s: Sys, target: string, q: PoolState, r: Outcome)
    requires Safe(cfg, s) && !Stuck(cfg, s.p, s.p.idle)
    requires cfg.multiplex && 1 <= cfg.maxStreams <= 256
    requires Pass(cfg, s.p, target, q, r) && !r.Granted?
    ensures AllAtLimit(cfg, s.p)
    ensures r == PoolFull <==> |Live(s.p)| + s.p.pending >= cfg.maxPool
  {
    RefusalMeansFull(cfg, s.p, target, q, r);
    LiveAreManaged(cfg, s.p, s.retired);
    forall c | c in Live(s.p) ensures |ManagerOf(s.p, c).streams| == cfg.maxStreams {
      assert c in s.p.managers;
    }
  }

  /** Allocation is complete for a pass that nobody disturbs. */
  lemma UndisturbedIsComplete(cfg: Config, es: seq<Event>, target: string, q: PoolState, r: Outcome)
    requires IsRun(cfg, es) && Guarded(cfg, es)
    requires cfg.multiplex && 1 <= cfg.maxStreams <= 256
    requires Pass(cfg, After(cfg, es).p, target, q, r)
    ensures var s := After(cfg, es);
      && FreshGrant(s, q, r)
      && (!r.Granted? ==> AllAtLimit(cfg, s.p))
      && (r == PoolFull <==> !r.Granted? && |Live(s.p)| + s.p.pending >= cfg.maxPool)
  {
    var s := After(cfg, es);
    RunIsGood(cfg, es);
    TidyIsNotStuck(cfg, s);
    TidyGrantIsFresh(cfg, s, target, q, r);
    if !r.Granted? {
      TidyRefusalIsFull(cfg, s, target, q, r);
    }
  }

  // ------------------------------------------------------------ retirement

  lemma StepKeepsRetired(cfg: Config, s: Sys, e: Event)
    requires Enabled(cfg, s, e)
    ensures s.retired <= Step(cfg, s, e).retired
  {
    hide Pass;
  }

  lemma {:induction false} RetiredGrows(cfg: Config, es: seq<Event>, i: nat, j: nat)
    requires IsRun(cfg, es) && i <= j <= |es|
    ensures After(cfg, es[..i]).retired <= After(cfg, es[..j]).retired
    decreases j
  {
    hide Enabled, Step;
    if i < j {
      RetiredGrows(cfg, es, i, j - 1);
      PrefixIsRun(cfg, es, j - 1);
      StepKeepsRetired(cfg, After(cfg, es[..j - 1]), es[j - 1]);
    }
  }

  lemma RetiredIsAbsent(cfg: Config, s: Sys, c: ConnItem)
    requires Safe(cfg, s) && Tidy(s) && c in s.retired
    ensures c in s.p.closed && !Indexed(s.p, c) && c !in s.p.targets.Values
  {
    assert c !in Elements(s.p.idle);
  }

  ghost predicate HandsOut(e: Event, c: ConnItem) {
    e.Acquire? && e.outcome.Granted? && e.outcome.conn == c
  }

  lemma ClosedIsNotHandedOut(cfg: Config, s: Sys, e: Event, c: ConnItem)
    requires Enabled(cfg, s, e) && c in s.p.closed
    ensures !HandsOut(e, c)
  {
    if HandsOut(e, c) {
      hide Pass;
      GrantIsFresh(cfg, s.p, e.target, e.after, e.outcome);
      assert false;
    }
  }

  /** Retirement is final: once detached, a connection is in no index at any later
      moment of a guarded run and is never handed out again. */
  lemma RetirementIsFinal(cfg: Config, es: seq<Event>, i: nat, j: nat, c: ConnItem)
    requires IsRun(cfg, es) && Guarded(cfg, es) && i <= j <= |es|
    requires c in After(cfg, es[..i]).retired
    ensures var p := After(cfg, es[..j]).p;
      c in p.closed && !Indexed(p, c) && c !in p.targets.Values
    ensures j < |es| ==> !HandsOut(es[j], c)
  {
    hide Enabled, Step, Safe, Tidy, Indexed;
    RetiredGrows(cfg, es, i, j);
    PrefixIsRun(cfg, es, j);
    RunsAreSafe(cfg, es[..j]);
    TidyPrefix(cfg, es, j);
    RetiredIsAbsent(cfg, After(cfg, es[..j]), c);
    if j < |es| {
      ClosedIsNotHandedOut(cfg, After(cfg, es[..j]), es[j], c);
    }
  }

  /** However often a connection is retired, only the first time counts. */
  lemma CountedOnce(cfg: Config, es: seq<Event>, i: nat, j: nat, c: ConnItem)
    requires IsRun(cfg, es) && Guarded(cfg, es) && i < j < |es|
    requires es[i] == DetachConn(c) && es[j] == DetachConn(c)
    ensures !Indexed(After(cfg, es[..j]).p, c)
    ensures After(cfg, es[..j + 1]).uncounted == After(cfg, es[..j]).uncounted
  {
    hide Enabled, Step, Indexed;
    PrefixIsRun(cfg, es, i);
    DetachRetires(cfg, After(cfg, es[..i]), c);
    PrefixIsRun(cfg, es, j);
    DetachRetires(cfg, After(cfg, es[..j]), c);
    RetirementIsFinal(cfg, es, i + 1, j, c);
  }

  lemma DetachRetires(cfg: Config, s: Sys, c: ConnItem)
    requires Enabled(cfg, s, DetachConn(c))
    ensures var s' := Step(cfg, s, DetachConn(c));
      && c in s'.retired
      && s'.uncounted == s.uncounted + if Indexed(s.p, c) then 1 else 0
  {
  }

  /** The calls that close callbacks make on a retired connection do nothing but
      clear its active flag; retiring it again does nothing but forget its ping. */
  lemma RetiredCallsChangeNothing(p: PoolState, c: ConnItem, id: StreamId, pos: nat)
    requires c !in p.idle && c !in p.managers && c in p.closed && c !in p.targets.Values
    requires pos <= |p.idle|
    ensures Unregister(p, c, id) == p
    ensures ReleaseAt(p, c, pos) == ClearActive(p, c)
    ensures Detach(p, c) == p.(heartbeats := p.heartbeats - {c.connectionID})
  {
    RemoveAbsent(p.idle, c);
    assert p.managers - {c} == p.managers;
    assert Detach(p, c).targets == p.targets;
  }

  /** The ledger of a guarded run: every creation has failed, is still dialing, has
      been closed or is managed; at rest the statistics add up. */
  lemma LedgerHolds(cfg: Config, es: seq<Event>)
    requires IsRun(cfg, es) && Guarded(cfg, es)
    ensures var s := After(cfg, es);
      && s.p.created == s.p.failures + s.p.closedCount + s.uncounted + |s.p.managers| + s.dialing
      && (s.reserved == s.dialing == s.leaving == s.uncounted == 0 && s.publishing == {} ==>
            && s.p.pending == 0
            && s.p.created == s.p.failures + s.p.closedCount + |s.p.managers|)
  {
    RunIsGood(cfg, es);
  }
}
