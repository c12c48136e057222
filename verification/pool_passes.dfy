/** Passes during which other threads close connections: they are runs of undisturbed
    passes and closes, so everything proved about runs holds for them as well. */
module PoolPasses {
  import opened Prelude
  import opened StreamIds
  import opened Connections
  import opened PoolStates
  import opened IdleDrain
  import opened Acquisition
  import opened PoolRuns
  import opened PoolTheorems
  import opened PoolSteps

  predicate OnlyCloses(es: seq<Event>) { forall i :: 0 <= i < |es| ==> es[i].WriteFails? }

  function Closing(s: Sys, cs: set<ConnItem>): Sys { s.(p := s.p.(closed := s.p.closed + cs)) }

  lemma ClosingOne(cfg: Config, s: Sys, c: ConnItem, rest: set<ConnItem>)
    requires c in s.p.known
    ensures Enabled(cfg, s, WriteFails(c))
    ensures Closing(Step(cfg, s, WriteFails(c)), rest) == Closing(s, {c} + rest)
    ensures Step(cfg, s, WriteFails(c)).p.known == s.p.known
  {
    assert s.p.closed + {c} + rest == s.p.closed + ({c} + rest);
  }

  lemma {:induction false} ConnectionsClose(cfg: Config, es: seq<Event>, s: Sys, cs: set<ConnItem>)
      returns (closes: seq<Event>)
    requires GuardedRun(cfg, es, s) && cs <= s.p.known
    ensures OnlyCloses(closes) && GuardedRun(cfg, es + closes, Closing(s, cs))
    decreases |cs|
  {
    hide GuardedRun, Enabled, Step;
    if cs == {} {
      closes := [];
      assert es + [] == es;
      assert s.p.closed + {} == s.p.closed;
    } else {
      var c :| c in cs;
      var e := WriteFails(c);
      ClosingOne(cfg, s, c, cs - {c});
      assert {c} + (cs - {c}) == cs;
      Next(cfg, es, s, e);
      var rest := ConnectionsClose(cfg, es + [e], Step(cfg, s, e), cs - {c});
      closes := [e] + rest;
      assert es + [e] + rest == es + closes;
    }
  }

  /** The steps of an undisturbed pass from `p` to `q`. */
  function PassEvents(p: PoolState, target: string, q: PoolState, r: Outcome): seq<Event> {
    [Acquire(target, q, r)] + if q.activeCount > p.activeCount then [AddActive] else []
  }

  lemma PassCounts(cfg: Config, p: PoolState, target: string, q: PoolState, r: Outcome)
    requires Pass(cfg, p, target, q, r)
    ensures p.activeCount <= q.activeCount <= p.activeCount + 1
  {
    hide LastTakeable, Remainder;
  }

  lemma PassSteps(cfg: Config, s: Sys, target: string, q: PoolState, r: Outcome)
    requires Pass(cfg, s.p, target, q, r) && !Stuck(cfg, s.p, s.p.idle) && s.unadded >= 0
    ensures var e := Acquire(target, q, r);
      && Enabled(cfg, s, e)
      && if q.activeCount > s.p.activeCount
         then Enabled(cfg, Step(cfg, s, e), AddActive) && Step(cfg, Step(cfg, s, e), AddActive) == s.(p := q)
         else Step(cfg, s, e) == s.(p := q)
  {
    hide Pass, Stuck;
    PassCounts(cfg, s.p, target, q, r);
  }

  lemma PassIsSteps(cfg: Config, es: seq<Event>, s: Sys, target: string, q: PoolState, r: Outcome)
    requires GuardedRun(cfg, es, s) && Pass(cfg, s.p, target, q, r) && !Stuck(cfg, s.p, s.p.idle)
    requires r.Granted? ==> r.conn !in s.publishing
    ensures GuardedRun(cfg, es + PassEvents(s.p, target, q, r), s.(p := q))
  {
    hide GuardedRun, Enabled, Step, Pass, Stuck, Once;
    RunFacts(cfg, es, s);
    PassSteps(cfg, s, target, q, r);
    var e := Acquire(target, q, r);
    Next(cfg, es, s, e);
    if q.activeCount > s.p.activeCount {
      Next(cfg, es + [e], Step(cfg, s, e), AddActive);
      assert es + [e] + [AddActive] == es + PassEvents(s.p, target, q, r);
    } else {
      assert es + [e] == es + PassEvents(s.p, target, q, r);
    }
  }

  // -------------------------------------------- what to check before a pass

  /** What can be checked before a pass starts, whatever others close while it runs: streams
      are not shared, or none is allowed, or no half-published connection is open. */
  ghost predicate NoneSharedEarly(cfg: Config, s: Sys) {
    !cfg.multiplex || cfg.maxStreams < 1 || s.publishing <= s.p.closed
  }

  lemma CheckedWhateverTarget(cfg: Config, s: Sys, target: string)
    requires NoneSharedEarly(cfg, s)
    ensures PassMayRun(cfg, s, target)
  {
  }

  lemma ClosingIsTidy(s: Sys, cs: set<ConnItem>)
    requires Tidy(s)
    ensures Tidy(Closing(s, cs))
  {
    hide Once;
  }

  lemma TidyIsOnce(s: Sys)
    requires Tidy(s)
    ensures NoRepeats(s.p.idle)
  {
    OnceHasNoRepeats(s.p.idle);
  }

  lemma GrantIsPublished(cfg: Config, s: Sys, target: string, g: Sight, p': PoolState, r: Outcome)
    requires Tidy(s) && NoneSharedEarly(cfg, s) && PassUnder(cfg, s.p, target, g, p', r)
    ensures r.Granted? ==> r.conn !in s.publishing
  {
    hide Tidy, PassUnder, Pass, Stuck, NoRepeats, PassMayRun;
    var before, q := PassLinearizes(cfg, s.p, target, g, p', r);
    var s1 := Closing(s, before);
    ClosingIsTidy(s, before);
    CheckedWhateverTarget(cfg, s1, target);
    if r.Granted? {
      CheckedGrant(cfg, s1, target, q, r);
    }
  }

  /** When that holds, every pass keeps the pool tidy, whatever others close during it ... */
  lemma CheckedInterruptedPassIsTidy(cfg: Config, s: Sys, target: string, g: Sight, p': PoolState, r: Outcome)
    requires Safe(cfg, s) && Tidy(s) && NoneSharedEarly(cfg, s)
    requires PassUnder(cfg, s.p, target, g, p', r) && p'.closed <= s.p.known
    ensures Tidy(s.(p := p'))
  {
    hide Safe, Tidy, PassUnder, Pass, Stuck, NoRepeats, PassMayRun;
    var before, q := PassLinearizes(cfg, s.p, target, g, p', r);
    TidyIsOnce(s);
    IdleIsKnown(cfg, s);
    var s1 := Closing(s, before);
    ClosingIsSafe(cfg, s, s.p.idle, s.p.closed + before);
    assert s1 == s.(p := s.p.(idle := s.p.idle, closed := s.p.closed + before));
    ClosingIsTidy(s, before);
    CheckedWhateverTarget(cfg, s1, target);
    CheckedPassIsTidy(cfg, s1, target, q, r);
    ClosingIsTidy(s1.(p := q), p'.closed);
    assert q.closed + p'.closed == p'.closed;
    assert Closing(s1.(p := q), p'.closed) == s.(p := p');
  }

  lemma {:induction false} AllButOneClose(p: PoolState, wave: Waves, cs: set<ConnItem>, n: nat)
    requires forall i: nat :: wave(i) == cs
    ensures p.closed <= ClosedBy(p, wave, n) <= p.closed + cs
    ensures n > 0 ==> ClosedBy(p, wave, n) == p.closed + cs
  {
    if n > 0 { AllButOneClose(p, wave, cs, n - 1); }
  }

  /** If every entry is closed before the first round, the loop drops them all. */
  lemma ClosedListIsDropped(cfg: Config, s: Sys, wave: Waves, cs: set<ConnItem>)
    requires Safe(cfg, s) && Tidy(s) && cfg.maxStreams >= 1
    requires (forall i: nat :: wave(i) == cs) && Elements(s.p.idle) <= cs
    ensures DrainUnder(cfg, s.p, s.p.idle, wave, |s.p.idle|) == Running([])
  {
    hide Safe, Tidy, DrainUnder, Roomy;
    var n := |s.p.idle|;
    DrainIsShort(cfg, s, wave, n);
    if DrainUnder(cfg, s.p, s.p.idle, wave, n).Took? {
      var i := TookAtFirst(cfg, s.p, s.p.idle, wave, n);
      assert false;
    }
  }

  /** Facts about a half-published connection that is open. */
  lemma HalfPublishedFacts(cfg: Config, s: Sys, c: ConnItem)
    requires Safe(cfg, s) && Tidy(s) && c in s.publishing && c !in s.p.closed && cfg.maxStreams >= 1
    ensures c in s.p.managers && c !in s.p.idle && Roomy(cfg, s.p, c)
    ensures s.p.managers.Keys <= s.p.known && Elements(s.p.idle) <= s.p.known - {c}
  {
    HalfPublishedIsLeast(cfg, s, c);
    IdleIsKnown(cfg, s);
    assert c !in Elements(s.p.idle);
  }

  /** A search that sees this connection alone shares it. */
  lemma SharesTheOneSeen(
      cfg: Config, q: PoolState, c: ConnItem, target: string, g: Sight, p': PoolState, r: Outcome)
    requires cfg.multiplex && c in q.managers && Roomy(cfg, q, c) && g.open == {c} && g.asked == q.closed
    requires q.managers.Keys - q.closed == {c} && GrantsOn(cfg, q, c, target, p', r)
    ensures RestUnder(cfg, q, target, g, p', r)
  {
    hide Allocate, Roomy;
    assert q.(closed := g.asked) == q;
    assert c in g.open;
    if AffinityHit(cfg, q, target) {
      assert q.targets[target] in q.managers.Keys - q.closed;
    } else {
      assert SomeRoomy(cfg, q, g.open) && Fewest(q, g.open, c);
    }
  }

  /** ... and when it does not, then for every target some pass does not: others close
      everything but the half-published connection before the pass looks. */
  lemma UncheckedInterruptedPassCanBreak(cfg: Config, s: Sys, target: string)
      returns (g: Sight, p': PoolState, r: Outcome)
    requires Safe(cfg, s) && Tidy(s) && !NoneSharedEarly(cfg, s)
    ensures PassUnder(cfg, s.p, target, g, p', r) && p'.closed <= s.p.known
    ensures r.Granted? && r.conn in s.publishing && !Tidy(s.(p := p'))
  {
    hide Safe, Tidy, RestUnder, GrantsOn, DrainUnder, Roomy;
    var c :| c in s.publishing && c !in s.p.closed;
    HalfPublishedFacts(cfg, s, c);
    IdleIsKnown(cfg, s);
    var others := s.p.known - {c};
    var wave: Waves := _ => others;
    var closed := s.p.closed + others;
    var q := s.p.(idle := [], closed := closed);
    g := Sight(wave, |s.p.idle|, closed, {c}, {});
    ClosedListIsDropped(cfg, s, wave, others);
    AllButOneClose(s.p, wave, others, |s.p.idle|);
    RoomIgnoresFlags(cfg, s.p, q, c);
    p', r := GrantExists(cfg, q, c, target);
    SharesTheOneSeen(cfg, q, c, target, g, p', r);
    GrantKeepsFlags(cfg, q, c, target, p', r);
    var id := GrantedId(cfg, q, c, target, p', r);
    StreamsBeforePublication(s.(p := p'), c, id);
  }

  lemma RoomIgnoresFlags(cfg: Config, p: PoolState, q: PoolState, c: ConnItem)
    requires q.managers == p.managers
    ensures Roomy(cfg, q, c) == Roomy(cfg, p, c)
  {
  }

  // ------------------------------------------------- interrupted passes are runs

  /** A pass during which connections close is a run, if what it granted is not half
      published. */
  lemma GuardedPassIsRun(
      cfg: Config, es: seq<Event>, s: Sys, target: string, g: Sight, p': PoolState, r: Outcome)
      returns (seen: seq<Event>, q: PoolState, late: seq<Event>)
    requires GuardedRun(cfg, es, s) && PassUnder(cfg, s.p, target, g, p', r) && p'.closed <= s.p.known
    requires r.Granted? ==> r.conn !in s.publishing
    ensures OnlyCloses(seen) && OnlyCloses(late)
    ensures GuardedRun(cfg, es + seen + PassEvents(s.p, target, q, r) + late, s.(p := p'))
  {
    hide GuardedRun, PassUnder, Pass, Stuck, Once, NoRepeats;
    var before;
    before, q := PassLinearizes(cfg, s.p, target, g, p', r);
    RunFacts(cfg, es, s);
    OnceHasNoRepeats(s.p.idle);
    seen := ConnectionsClose(cfg, es, s, before);
    var s1 := Closing(s, before);
    PassIsSteps(cfg, es + seen, s1, target, q, r);
    var s2 := s1.(p := q);
    PassKeepsKnown(cfg, s1.p, target, q, r);
    late := ConnectionsClose(cfg, es + seen + PassEvents(s1.p, target, q, r), s2, p'.closed);
    assert q.closed + p'.closed == p'.closed;
    assert Closing(s2, p'.closed) == s.(p := p');
  }

  /** A pass that is checked before it starts, and during which connections close, is a run:
      the closes that the pass saw, the undisturbed pass, the other closes. */
  lemma InterruptedPassIsRun(
      cfg: Config, es: seq<Event>, s: Sys, target: string, g: Sight, p': PoolState, r: Outcome)
      returns (seen: seq<Event>, q: PoolState, late: seq<Event>)
    requires GuardedRun(cfg, es, s) && PassUnder(cfg, s.p, target, g, p', r) && p'.closed <= s.p.known
    requires NoneSharedEarly(cfg, s)
    ensures OnlyCloses(seen) && OnlyCloses(late)
    ensures GuardedRun(cfg, es + seen + PassEvents(s.p, target, q, r) + late, s.(p := p'))
  {
    hide GuardedRun, PassUnder, Safe, Tidy, NoneSharedEarly;
    RunLeadsTo(cfg, es, s);
    RunIsGood(cfg, es);
    GrantIsPublished(cfg, s, target, g, p', r);
    seen, q, late := GuardedPassIsRun(cfg, es, s, target, g, p', r);
  }

  /** What a thread does next: a section or an atomic update, or a whole pass during which
      connections close. */
  datatype Act =
    | Section(event: Event)
    | PassOn(target: string, sight: Sight, after: PoolState, outcome: Outcome)

  ghost predicate Acts(cfg: Config, s: Sys, a: Act, s': Sys) {
    match a
    case Section(e) => !e.Acquire? && Enabled(cfg, s, e) && s' == Step(cfg, s, e)
    case PassOn(target, sight, after, outcome) =>
      PassUnder(cfg, s.p, target, sight, after, outcome) && after.closed <= s.p.known && s' == s.(p := after)
  }

  ghost predicate ActRun(cfg: Config, acts: seq<Act>, states: seq<Sys>) {
    && |states| == |acts| + 1 && states[0] == START
    && forall i {:trigger acts[i]} :: 0 <= i < |acts| ==> Acts(cfg, states[i], acts[i], states[i + 1])
  }

  /** What is checked before an act, without knowing what a pass will see or grant. */
  ghost predicate CheckedFirst(cfg: Config, s: Sys, a: Act) {
    if a.PassOn? then NoneSharedEarly(cfg, s) else Guard(s, a.event)
  }

  lemma ActIsRun(cfg: Config, es: seq<Event>, s: Sys, a: Act, s': Sys) returns (es': seq<Event>)
    requires GuardedRun(cfg, es, s) && Acts(cfg, s, a, s') && CheckedFirst(cfg, s, a)
    ensures GuardedRun(cfg, es', s')
  {
    hide GuardedRun, Enabled, Step, Guard, PassUnder, NoneSharedEarly;
    match a
    case Section(e) =>
      Next(cfg, es, s, e);
      es' := es + [e];
    case PassOn(target, sight, after, outcome) =>
      var seen, q, late := InterruptedPassIsRun(cfg, es, s, target, sight, after, outcome);
      es' := es + seen + PassEvents(s.p, target, q, outcome) + late;
  }

  /** A run of acts, all of which are checked before they start, is a guarded run at every
      moment, and so keeps the pool safe and tidy. */
  lemma {:induction false} CheckedActsAreGuarded(cfg: Config, acts: seq<Act>, states: seq<Sys>, i: nat)
      returns (es: seq<Event>)
    requires ActRun(cfg, acts, states) && i <= |acts|
    requires forall j :: 0 <= j < |acts| ==> CheckedFirst(cfg, states[j], acts[j])
    ensures GuardedRun(cfg, es, states[i])
    ensures Safe(cfg, states[i]) && Tidy(states[i])
  {
    hide GuardedRun, Acts, CheckedFirst, Safe, Tidy;
    if i == 0 {
      es := [];
      Start(cfg);
    } else {
      var before := CheckedActsAreGuarded(cfg, acts, states, i - 1);
      es := ActIsRun(cfg, before, states[i - 1], acts[i - 1], states[i]);
    }
    RunLeadsTo(cfg, es, states[i]);
    RunIsGood(cfg, es);
  }

  lemma PassKeepsKnown(cfg: Config, p: PoolState, target: string, q: PoolState, r: Outcome)
    requires Pass(cfg, p, target, q, r)
    ensures q.known == p.known && q.pending == p.pending && (!r.Granted? ==> q.managers == p.managers)
  {
    hide LastTakeable, Remainder;
  }

  // ---------------------------------------------------------- completeness

  lemma ClosingShrinksLive(p: PoolState, cs: set<ConnItem>)
    ensures Live(p.(closed := p.closed + cs)) <= Live(p)
  {
  }

  lemma LimitAtEnd(cfg: Config, p1: PoolState, p': PoolState)
    requires AllAtLimit(cfg, p1) && p'.managers == p1.managers
    requires Elements(p'.idle) <= Elements(p1.idle) && p1.closed <= p'.closed
    ensures AllAtLimit(cfg, p') && Live(p') <= Live(p1)
  {
    assert Live(p') <= Live(p1) by { hide AllAtLimit; }
    forall c | c in Live(p') ensures |ManagerOf(p', c).streams| == cfg.maxStreams {
      assert c in Live(p1) && ManagerOf(p', c) == ManagerOf(p1, c);
    }
  }

  /** Allocation is complete after every guarded run, whatever other threads close during
      the pass: with sharing on and a limit between 1 and 256, it grants a fresh ID on a
      connection that was live and never retired, or every connection still open at its
      end carries exactly the limit; and it refuses exactly when the connections it
      counted, all live before and among them all live at the end, fill the pool. */
  lemma AllocationIsComplete(
      cfg: Config, es: seq<Event>, s: Sys, target: string, g: Sight, p': PoolState, r: Outcome)
      returns (counted: set<ConnItem>)
    requires GuardedRun(cfg, es, s) && PassUnder(cfg, s.p, target, g, p', r) && p'.closed <= s.p.known
    requires cfg.multiplex && 1 <= cfg.maxStreams <= 256
    ensures FreshGrant(s, p', r)
    ensures !r.Granted? ==> AllAtLimit(cfg, p') && Live(p') <= counted <= Live(s.p)
    ensures r == PoolFull <==> !r.Granted? && |counted| + s.p.pending >= cfg.maxPool
  {
    hide GuardedRun, PassUnder, Pass, Stuck, Live, AllAtLimit, Once, NoRepeats;
    var before, q := PassLinearizes(cfg, s.p, target, g, p', r);
    RunFacts(cfg, es, s);
    var closes := ConnectionsClose(cfg, es, s, before);
    var s1 := Closing(s, before);
    counted := Live(s1.p);
    RunLeadsTo(cfg, es + closes, s1);
    UndisturbedIsComplete(cfg, es + closes, target, q, r);
    ClosingShrinksLive(s.p, before);
    PassKeepsKnown(cfg, s1.p, target, q, r);
    if !r.Granted? {
      LimitAtEnd(cfg, s1.p, p');
    }
  }

  lemma RunLeadsTo(cfg: Config, es: seq<Event>, s: Sys)
    requires GuardedRun(cfg, es, s)
    ensures IsRun(cfg, es) && Guarded(cfg, es) && After(cfg, es) == s
  {
  }

  // -------------------------------------------------- in unguarded runs too

  lemma ClosingIsSafe(cfg: Config, s: Sys, idle: seq<ConnItem>, closed: set<ConnItem>)
    requires Safe(cfg, s) && s.p.closed <= closed <= s.p.known && Elements(idle) <= s.p.known
    ensures Safe(cfg, s.(p := s.p.(idle := idle, closed := closed)))
  {
    var q := s.p.(idle := idle, closed := closed);
    forall c | c in idle ensures c in q.known { assert c in Elements(idle); }
    assert Coherent(cfg, q, s.retired);
    SubsetSize(OpenManaged(q), OpenManaged(s.p));
  }

  lemma IdleIsKnown(cfg: Config, s: Sys)
    requires Safe(cfg, s)
    ensures Elements(s.p.idle) <= s.p.known && s.p.closed <= s.p.known
  {
  }

  lemma UndisturbedIsSafe(cfg: Config, s: Sys, target: string, q: PoolState, r: Outcome)
    requires Safe(cfg, s) && Pass(cfg, s.p, target, q, r)
    ensures Safe(cfg, s.(p := q))
  {
    hide Pass, CreatesNothing;
    AcquireIsCoherent(cfg, s.p, s.retired, target, q, r);
    UncountedIsSafe(cfg, s, q, s.(p := q));
  }

  /** A creation during whose count connections close is a run: those closes, and then the
      steps of the creation, which finds the slot free that the count saw free. */
  lemma InterruptedCreationIsRun(
      cfg: Config, es: seq<Event>, s: Sys, counted: set<ConnItem>, closed: set<ConnItem>, item: Option<ConnItem>)
      returns (closes: seq<Event>)
    requires GuardedRun(cfg, es, s) && s.p.closed <= closed <= s.p.known
    requires Live(s.p.(closed := closed)) <= counted && |counted| + s.p.pending < cfg.maxPool
    requires item.Some? ==> item.value !in s.p.known
    ensures OnlyCloses(closes)
    ensures GuardedRun(cfg, es + closes + CreateEvents(item), s.(p := Attempted(s.p.(closed := closed), item)))
  {
    hide GuardedRun, Attempted, Live, CreateEvents;
    closes := ConnectionsClose(cfg, es, s, closed);
    assert s.p.closed + closed == closed;
    SubsetSize(Live(s.p.(closed := closed)), counted);
    CreateIsSteps(cfg, es + closes, Closing(s, closed), item);
  }

  /** In every run, guarded or not, a pass during which connections close keeps the
      capacity, the counters, the stream limits and the targets sound. */
  lemma InterruptedPassIsSafe(cfg: Config, s: Sys, target: string, g: Sight, p': PoolState, r: Outcome)
    requires Safe(cfg, s) && PassUnder(cfg, s.p, target, g, p', r) && p'.closed <= s.p.known
    ensures Safe(cfg, s.(p := p'))
  {
    hide Safe, PassUnder, Pass, Stuck, NoRepeats;
    var before, q := PassLinearizes(cfg, s.p, target, g, p', r);
    IdleIsKnown(cfg, s);
    var s1 := Closing(s, before);
    ClosingIsSafe(cfg, s, s.p.idle, s.p.closed + before);
    assert s1 == s.(p := s.p.(idle := s.p.idle, closed := s.p.closed + before));
    UndisturbedIsSafe(cfg, s1, target, q, r);
    PassKeepsKnown(cfg, s1.p, target, q, r);
    ClosingIsSafe(cfg, s1.(p := q), p'.idle, p'.closed);
  }
}
