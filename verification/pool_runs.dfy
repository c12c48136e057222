/** All runs of the pool: every interleaving of the critical sections and atomic
    updates of any number of threads, the invariants that survive all of them,
    and the exact guards under which the rest survive. */
module PoolRuns {
  import opened Prelude
  import opened Bitmap
  import opened StreamIds
  import opened Connections
  import opened PoolStates
  import opened IdleDrain
  import opened Acquisition
  import opened Heartbeats

  /** The pool together with the positions of the threads working on it. */
  datatype Sys = Sys(
    p: PoolState,
    reserved: nat,                // slots reserved, creation not counted yet
    dialing: nat,                 // creations counted, outcome open
    publishing: set<ConnItem>,    // between the two publication sections
    leaving: nat,                 // finished creations that still hold their slot
    retired: set<ConnItem>,       // connections that have been detached
    uncounted: nat,               // detached connections not counted as closed yet
    unadded: int,                 // active flags set but not added to the counter yet
    unsubtracted: int)            // active flags cleared but not taken off it yet

  const START := Sys(EMPTY_POOL, 0, 0, {}, 0, {}, 0, 0, 0)

  datatype Event =
    | Reserve
    | CountCreated
    | DialFails
    | PublishFirst(conn: ConnItem)
    | PublishSecond(conn: ConnItem)
    | ReleaseSlot
    | Acquire(target: string, after: PoolState, outcome: Outcome)
    | GiveBack(conn: ConnItem, pos: nat)
    | RegisterOn(conn: ConnItem, target: string)
    | UnregisterOn(conn: ConnItem, id: StreamId)
    | WriteFails(conn: ConnItem)
    | DetachConn(conn: ConnItem)
    | ClearFlag(conn: ConnItem)
    | AddActive
    | SubtractActive
    | CountClosed
    | BeatPass(now: int, order: seq<ConnItem>)
    | Ack(connectionID: string)
    | CullIdle(aged: set<ConnItem>, keepMin: int)
    | Resort(order: seq<ConnItem>)

  ghost predicate Enabled(cfg: Config, s: Sys, e: Event) {
    match e
    case Reserve => SlotFree(cfg, s.p)
    case CountCreated => s.reserved > 0
    case DialFails => s.dialing > 0
    case PublishFirst(c) => s.dialing > 0 && c !in s.p.known
    case PublishSecond(c) => c in s.publishing
    case ReleaseSlot => s.leaving > 0
    case Acquire(target, after, outcome) => !Stuck(cfg, s.p, s.p.idle) && Pass(cfg, s.p, target, after, outcome)
    case GiveBack(c, pos) => c in s.p.known && pos <= |s.p.idle|
    case RegisterOn(c, target) => c in s.p.known
    case UnregisterOn(c, id) => c in s.p.known
    case WriteFails(c) => c in s.p.known
    case DetachConn(c) => c in s.p.closed
    case ClearFlag(c) => c in s.retired
    case AddActive => s.unadded > 0
    case SubtractActive => s.unsubtracted > 0
    case CountClosed => s.uncounted > 0
    case BeatPass(now, order) => Enumerates(order, s.p.managers.Keys)
    case Ack(id) => true
    case CullIdle(aged, keepMin) => true
    case Resort(order) => multiset(order) == multiset(s.p.idle)
  }

  function Detached(s: Sys, c: ConnItem): Sys {
    s.(p := Detach(s.p, c), retired := s.retired + {c},
       uncounted := s.uncounted + if Indexed(s.p, c) then 1 else 0)
  }

  /** A section has taken the pool to `q`, but its last action, which adjusts the counter
      of active connections, is still to come. */
  function Uncounted(s: Sys, q: PoolState): Sys {
    var change := q.activeCount - s.p.activeCount;
    s.(p := q.(activeCount := s.p.activeCount),
       unadded := s.unadded + Max(change, 0), unsubtracted := s.unsubtracted + Max(-change, 0))
  }

  ghost function Step(cfg: Config, s: Sys, e: Event): Sys
    requires Enabled(cfg, s, e)
  {
    var p := s.p;
    match e
    case Reserve => s.(p := p.(pending := p.pending + 1), reserved := s.reserved + 1)
    case CountCreated =>
      s.(p := p.(created := p.created + 1), reserved := s.reserved - 1, dialing := s.dialing + 1)
    case DialFails =>
      s.(p := p.(failures := p.failures + 1), dialing := s.dialing - 1, leaving := s.leaving + 1)
    case PublishFirst(c) =>
      s.(p := PublishManager(p, c), dialing := s.dialing - 1, publishing := s.publishing + {c})
    case PublishSecond(c) =>
      s.(p := PublishIdle(p, c), publishing := s.publishing - {c}, leaving := s.leaving + 1)
    case ReleaseSlot => s.(p := p.(pending := p.pending - 1), leaving := s.leaving - 1)
    case Acquire(target, after, outcome) => Uncounted(s, after)
    case GiveBack(c, pos) => Uncounted(s, ReleaseAt(p, c, pos))
    case RegisterOn(c, target) => s.(p := Register(cfg, p, c, target))
    case UnregisterOn(c, id) => s.(p := Unregister(p, c, id))
    case WriteFails(c) => s.(p := MarkClosed(p, c))
    case DetachConn(c) => Detached(s, c)
    case ClearFlag(c) =>
      s.(p := p.(active := p.active - {c}), unsubtracted := s.unsubtracted + if c in p.active then 1 else 0)
    case AddActive => s.(p := p.(activeCount := p.activeCount + 1), unadded := s.unadded - 1)
    case SubtractActive => s.(p := p.(activeCount := p.activeCount - 1), unsubtracted := s.unsubtracted - 1)
    case CountClosed => s.(p := p.(closedCount := p.closedCount + 1), uncounted := s.uncounted - 1)
    case BeatPass(now, order) => s.(p := BeatPool(p, cfg.heartbeatTimeout, now, order))
    case Ack(id) => s.(p := Acknowledge(p, id))
    case CullIdle(aged, keepMin) => s.(p := Cull(p, aged, keepMin))
    case Resort(order) => s.(p := p.(idle := order))
  }

  // ------------------------------------- what every interleaving keeps

  /** The indexes name known connections only; a known connection without a
      manager has been retired, and retired ones are closed; affinity targets
      have managers; no manager is over its limit. */
  ghost predicate Coherent(cfg: Config, p: PoolState, retired: set<ConnItem>) {
    && (forall c :: c in p.idle ==> c in p.known)
    && p.managers.Keys <= p.known && p.active <= p.known && p.closed <= p.known
    && retired <= p.closed
    && (forall c :: c in p.known && c !in p.managers ==> c in retired)
    && (forall t :: t in p.targets ==> p.targets[t] in p.managers)
    && (forall c :: c in p.managers ==> |p.managers[c].streams| <= Max(cfg.maxStreams, 0))
  }

  ghost predicate Safe(cfg: Config, s: Sys) {
    && Coherent(cfg, s.p, s.retired)
    && s.publishing <= s.p.known
    && s.p.activeCount + s.unadded == |s.p.active| + s.unsubtracted
    && s.unadded >= 0 && s.unsubtracted >= 0
    && s.p.pending == s.reserved + s.dialing + |s.publishing| + s.leaving
    && |OpenManaged(s.p)| + s.reserved + s.dialing <= Max(cfg.maxPool, 0)
  }

  function OpenManaged(p: PoolState): set<ConnItem> { p.managers.Keys - p.closed }

  /** In a coherent state every open connection has a manager. */
  lemma LiveAreManaged(cfg: Config, p: PoolState, retired: set<ConnItem>)
    requires Coherent(cfg, p, retired)
    ensures Live(p) == OpenManaged(p)
  {
  }

  /** A section that creates nothing. */
  ghost predicate CreatesNothing(p: PoolState, q: PoolState) {
    && q.known == p.known && OpenManaged(q) <= OpenManaged(p) && q.pending == p.pending
    && q.activeCount - |q.active| == p.activeCount - |p.active|
    && q.created == p.created && q.failures == p.failures
  }

  // How often a connection occurs in the lists the sections build.

  lemma {:induction false} RemoveFirstCount(s: seq<ConnItem>, c: ConnItem)
    ensures multiset(RemoveFirst(s, c)) == multiset(s) - multiset{c}
  {
    if s != [] {
      assert s == [s[0]] + s[1..];
      assert multiset(s) == multiset{s[0]} + multiset(s[1..]);
      if s[0] != c {
        RemoveFirstCount(s[1..], c);
      }
    }
  }

  lemma {:induction false} OpenCount(p: PoolState, s: seq<ConnItem>, c: ConnItem)
    ensures multiset(Open(p, s))[c] == if c in p.closed then 0 else multiset(s)[c]
  {
    if s != [] {
      var n := |s| - 1;
      OpenCount(p, s[..n], c);
      assert s == s[..n] + [s[n]];
    }
  }

  lemma RemainderCount(p: PoolState, idle: seq<ConnItem>, k: nat, c: ConnItem)
    requires k < |idle| && idle[k] !in p.closed
    ensures var m := multiset(Remainder(p, idle, k))[c];
      && (c !in p.closed ==> m == multiset(idle)[c] - if c == idle[k] then 1 else 0)
      && m <= multiset(idle)[c]
  {
    hide Open;
    var back, front := idle[k + 1..], idle[..k];
    OpenCount(p, back, c);
    assert idle == front + ([idle[k]] + back);
  }

  lemma InsertCount(s: seq<ConnItem>, pos: nat, c: ConnItem)
    requires pos <= |s|
    ensures multiset(InsertAt(s, pos, c)) == multiset(s) + multiset{c}
  {
    assert s == s[..pos] + s[pos..];
  }

  lemma ClearActiveKeepsCount(p: PoolState, c: ConnItem)
    ensures CreatesNothing(p, ClearActive(p, c)) && CreatesNothing(p, SetActive(p, c))
  {
  }

  lemma SubList(xs: seq<ConnItem>, ys: multiset<ConnItem>)
    requires multiset(xs) <= ys
    ensures forall c :: c in xs ==> c in ys
  {
    forall c | c in xs ensures c in ys {
      assert c in multiset(xs);
    }
  }

  lemma GrantIsCoherent(
      cfg: Config, p: PoolState, retired: set<ConnItem>, c: ConnItem, target: string, q: PoolState, r: Outcome)
    requires Coherent(cfg, p, retired) && c in p.known && c !in p.closed
    requires GrantsOn(cfg, p, c, target, q, r)
    ensures Coherent(cfg, q, retired) && CreatesNothing(p, q)
  {
    AllocateIsComplete(ManagerOf(p, c), cfg.maxStreams, target);
    assert c in p.managers;
    assert q.managers.Keys == p.managers.Keys;
  }

  lemma ShorterIdleIsCoherent(cfg: Config, p: PoolState, retired: set<ConnItem>, idle: seq<ConnItem>)
    requires Coherent(cfg, p, retired) && forall c :: c in idle ==> c in p.idle
    ensures Coherent(cfg, p.(idle := idle), retired) && CreatesNothing(p, p.(idle := idle))
  {
  }

  lemma AcquireIsCoherent(cfg: Config, p: PoolState, retired: set<ConnItem>, target: string, q: PoolState, r: Outcome)
    requires Coherent(cfg, p, retired) && Pass(cfg, p, target, q, r)
    ensures Coherent(cfg, q, retired) && CreatesNothing(p, q)
  {
    hide Coherent, CreatesNothing, LastTakeable, Remainder, SetActive, GrantsOn, AffinityHit, CanShare, LeastLoaded;
    var k := LastTakeable(cfg, p, p.idle);
    if k >= 0 {
      var c, rest := p.idle[k], Remainder(p, p.idle, k);
      TakenIsCoherent(cfg, p, retired, k);
      GrantIsCoherent(cfg, SetActive(p.(idle := rest), c), retired, c, target, q, r);
      NothingTwice(p, SetActive(p.(idle := rest), c), q);
    } else {
      ShorterIdleIsCoherent(cfg, p, retired, []);
      DrainedPass(cfg, p, target, q, r);
      if r.Granted? {
        ManagedIsKnown(cfg, p.(idle := []), retired, r.conn);
        GrantIsCoherent(cfg, p.(idle := []), retired, r.conn, target, q, r);
        NothingTwice(p, p.(idle := []), q);
      }
    }
  }

  lemma NothingTwice(p: PoolState, q: PoolState, u: PoolState)
    requires CreatesNothing(p, q) && CreatesNothing(q, u)
    ensures CreatesNothing(p, u)
  {
    hide OpenManaged;
  }

  lemma ManagedIsKnown(cfg: Config, p: PoolState, retired: set<ConnItem>, c: ConnItem)
    requires Coherent(cfg, p, retired) && c in p.managers
    ensures c in p.known
  {
  }

  lemma TakenIsCoherent(cfg: Config, p: PoolState, retired: set<ConnItem>, k: nat)
    requires Coherent(cfg, p, retired) && k < |p.idle| && p.idle[k] !in p.closed
    ensures var q := SetActive(p.(idle := Remainder(p, p.idle, k)), p.idle[k]);
      Coherent(cfg, q, retired) && CreatesNothing(p, q) && p.idle[k] in q.known && p.idle[k] !in q.closed
  {
    hide Remainder;
    var c, rest := p.idle[k], Remainder(p, p.idle, k);
    forall d | d in rest ensures d in p.idle {
      RemainderCount(p, p.idle, k, d);
      assert d in multiset(rest);
    }
    ShorterIdleIsCoherent(cfg, p, retired, rest);
    ClearActiveKeepsCount(p.(idle := rest), c);
    assert c in p.idle;
  }

  /** The cases of a pass over a pool whose idle list has been drained. */
  lemma DrainedPass(cfg: Config, p: PoolState, target: string, q: PoolState, r: Outcome)
    requires LastTakeable(cfg, p, p.idle) < 0 && Pass(cfg, p, target, q, r)
    ensures var p0 := p.(idle := []);
      if r.Granted? then r.conn in p0.managers && r.conn !in p0.closed && GrantsOn(cfg, p0, r.conn, target, q, r)
      else q == p0
  {
    hide Allocate, LastTakeable, Roomy;
  }

  lemma DetachIsCoherent(cfg: Config, p: PoolState, retired: set<ConnItem>, c: ConnItem)
    requires Coherent(cfg, p, retired) && c in p.closed
    ensures Coherent(cfg, Detach(p, c), retired + {c}) && CreatesNothing(p, Detach(p, c))
  {
    RemoveFirstCount(p.idle, c);
    SubList(RemoveFirst(p.idle, c), multiset(p.idle));
  }

  lemma LongerIdleIsCoherent(cfg: Config, p: PoolState, retired: set<ConnItem>, idle: seq<ConnItem>, c: ConnItem)
    requires Coherent(cfg, p, retired) && c in p.known
    requires forall d :: d in idle ==> d in p.idle || d == c
    ensures Coherent(cfg, p.(idle := idle), retired) && CreatesNothing(p, p.(idle := idle))
  {
  }

  lemma GiveBackIsCoherent(cfg: Config, p: PoolState, retired: set<ConnItem>, c: ConnItem, pos: nat)
    requires Coherent(cfg, p, retired) && c in p.known && pos <= |p.idle|
    ensures Coherent(cfg, ReleaseAt(p, c, pos), retired) && CreatesNothing(p, ReleaseAt(p, c, pos))
  {
    ClearActiveKeepsCount(p, c);
    assert Coherent(cfg, ClearActive(p, c), retired);
    InsertCount(p.idle, pos, c);
    SubList(InsertAt(p.idle, pos, c), multiset(p.idle) + multiset{c});
    LongerIdleIsCoherent(cfg, ClearActive(p, c), retired, InsertAt(p.idle, pos, c), c);
  }

  lemma RegisterIsCoherent(cfg: Config, p: PoolState, retired: set<ConnItem>, c: ConnItem, target: string)
    requires Coherent(cfg, p, retired) && c in p.known
    ensures Coherent(cfg, Register(cfg, p, c, target), retired) && CreatesNothing(p, Register(cfg, p, c, target))
  {
  }

  lemma UnregisterIsCoherent(cfg: Config, p: PoolState, retired: set<ConnItem>, c: ConnItem, id: StreamId)
    requires Coherent(cfg, p, retired)
    ensures Coherent(cfg, Unregister(p, c, id), retired) && CreatesNothing(p, Unregister(p, c, id))
  {
    if c in p.managers {
      MapRemoveSize(p.managers[c].streams, id);
      assert Unregister(p, c, id).managers.Keys == p.managers.Keys;
    }
  }

  lemma CullIsCoherent(cfg: Config, p: PoolState, retired: set<ConnItem>, aged: set<ConnItem>, keepMin: int)
    requires Coherent(cfg, p, retired)
    ensures Coherent(cfg, Cull(p, aged, keepMin), retired) && CreatesNothing(p, Cull(p, aged, keepMin))
  {
    hide CullSplit;
    var (kept, expired) := CullSplit(p.idle, aged, |p.idle| - keepMin);
    CullSplits(p.idle, aged, |p.idle| - keepMin);
    assert Elements(kept) <= Elements(p.idle);
    forall c | c in kept ensures c in p.idle {
      assert c in Elements(kept);
    }
    assert Elements(expired) <= p.known;
  }

  lemma PublishManagerIsCoherent(cfg: Config, p: PoolState, retired: set<ConnItem>, c: ConnItem)
    requires Coherent(cfg, p, retired) && c !in p.known
    ensures Coherent(cfg, PublishManager(p, c), retired)
    ensures OpenManaged(PublishManager(p, c)) == OpenManaged(p) + {c} && c !in OpenManaged(p)
  {
  }

  lemma OneMore(s: set<ConnItem>, c: ConnItem)
    requires c !in s
    ensures |s + {c}| == |s| + 1
  {
  }

  lemma PublishFirstIsSafe(cfg: Config, s: Sys, c: ConnItem)
    requires Safe(cfg, s) && Enabled(cfg, s, PublishFirst(c))
    ensures Safe(cfg, Step(cfg, s, PublishFirst(c)))
  {
    hide Coherent, OpenManaged;
    PublishManagerIsCoherent(cfg, s.p, s.retired, c);
    OneMore(OpenManaged(s.p), c);
    OneMore(s.publishing, c);
    var s' := Step(cfg, s, PublishFirst(c));
    OpenIgnoresCounts(PublishManager(s.p, c), s'.p);
  }

  lemma OpenIgnoresCounts(p: PoolState, q: PoolState)
    requires q.managers == p.managers && q.closed == p.closed
    ensures OpenManaged(q) == OpenManaged(p)
  {
  }

  /** Coherence does not depend on the counters. */
  lemma CountsAreFree(cfg: Config, p: PoolState, q: PoolState, retired: set<ConnItem>)
    requires Coherent(cfg, p, retired)
    requires q == p.(pending := q.pending, created := q.created, failures := q.failures, closedCount := q.closedCount,
                     activeCount := q.activeCount)
    ensures Coherent(cfg, q, retired)
  {
  }

  lemma PublishSecondIsSafe(cfg: Config, s: Sys, c: ConnItem)
    requires Safe(cfg, s) && Enabled(cfg, s, PublishSecond(c))
    ensures Safe(cfg, Step(cfg, s, PublishSecond(c)))
  {
    var q := PublishIdle(s.p, c);
    assert forall d :: d in q.idle ==> d in s.p.idle || d == c;
    assert Coherent(cfg, q, s.retired);
  }

  lemma CountingIsSafe(cfg: Config, s: Sys, e: Event)
    requires Safe(cfg, s) && Enabled(cfg, s, e)
    requires e.Reserve? || e.CountCreated? || e.DialFails? || e.ReleaseSlot?
    ensures Safe(cfg, Step(cfg, s, e))
  {
    hide Coherent, OpenManaged, Live;
    LiveAreManaged(cfg, s.p, s.retired);
    var q := Step(cfg, s, e).p;
    CountsAreFree(cfg, s.p, q, s.retired);
    OpenIgnoresCounts(s.p, q);
  }

  /** The pool after a section, its counter adjusted. */
  ghost function Whole(cfg: Config, s: Sys, e: Event): PoolState
    requires Enabled(cfg, s, e)
  {
    match e
    case Acquire(target, after, outcome) => after
    case GiveBack(c, pos) => ReleaseAt(s.p, c, pos)
    case _ => Step(cfg, s, e).p
  }

  lemma UseIsCoherent(cfg: Config, s: Sys, e: Event)
    requires Coherent(cfg, s.p, s.retired) && Enabled(cfg, s, e)
    requires e.Acquire? || e.GiveBack? || e.RegisterOn? || e.UnregisterOn? || e.CullIdle? || e.DetachConn?
    ensures Coherent(cfg, Whole(cfg, s, e), Step(cfg, s, e).retired)
    ensures CreatesNothing(s.p, Whole(cfg, s, e))
  {
    match e
    case Acquire(target, after, outcome) => AcquireIsCoherent(cfg, s.p, s.retired, target, after, outcome);
    case GiveBack(c, pos) => GiveBackIsCoherent(cfg, s.p, s.retired, c, pos);
    case RegisterOn(c, target) => RegisterIsCoherent(cfg, s.p, s.retired, c, target);
    case UnregisterOn(c, id) => UnregisterIsCoherent(cfg, s.p, s.retired, c, id);
    case CullIdle(aged, keepMin) => CullIsCoherent(cfg, s.p, s.retired, aged, keepMin);
    case DetachConn(c) => DetachIsCoherent(cfg, s.p, s.retired, c);
    case _ =>
  }

  lemma MaintenanceIsCoherent(cfg: Config, s: Sys, e: Event)
    requires Coherent(cfg, s.p, s.retired) && Enabled(cfg, s, e)
    requires e.Resort? || e.BeatPass? || e.Ack? || e.WriteFails? || e.CountClosed?
    ensures Coherent(cfg, Whole(cfg, s, e), s.retired)
    ensures CreatesNothing(s.p, Whole(cfg, s, e))
  {
    if e.Resort? {
      SubList(e.order, multiset(s.p.idle));
    }
  }

  lemma FlagsAreSafe(cfg: Config, s: Sys, e: Event)
    requires Safe(cfg, s) && Enabled(cfg, s, e)
    requires e.ClearFlag? || e.AddActive? || e.SubtractActive?
    ensures Safe(cfg, Step(cfg, s, e))
  {
    var q := Step(cfg, s, e).p;
    assert Coherent(cfg, q, s.retired);
    assert OpenManaged(q) == OpenManaged(s.p);
  }

  /** A section that creates nothing and gets no further than its counter update is safe. */
  lemma UncountedIsSafe(cfg: Config, s: Sys, q: PoolState, s': Sys)
    requires Safe(cfg, s) && CreatesNothing(s.p, q)
    requires Coherent(cfg, q, s'.retired)
    requires var u := Uncounted(s, q);
      || s' == u.(retired := s'.retired, uncounted := s'.uncounted)
      || s' == s.(p := q, retired := s'.retired, uncounted := s'.uncounted)
    ensures Safe(cfg, s')
  {
    assert Coherent(cfg, s'.p, s'.retired);
    assert OpenManaged(s'.p) == OpenManaged(q);
    SubsetSize(OpenManaged(q), OpenManaged(s.p));
  }

  /** Every step of every thread keeps the safe part: no interleaving exceeds the
      capacity, miscounts the slots or the active flags, leaves an affinity target
      without a manager or puts a connection over its stream limit. */
  lemma EveryStepIsSafe(cfg: Config, s: Sys, e: Event)
    requires Safe(cfg, s) && Enabled(cfg, s, e)
    ensures Safe(cfg, Step(cfg, s, e))
  {
    if e.PublishFirst? {
      PublishFirstIsSafe(cfg, s, e.conn);
    } else if e.PublishSecond? {
      PublishSecondIsSafe(cfg, s, e.conn);
    } else if e.Reserve? || e.CountCreated? || e.DialFails? || e.ReleaseSlot? {
      CountingIsSafe(cfg, s, e);
    } else if e.ClearFlag? || e.AddActive? || e.SubtractActive? {
      FlagsAreSafe(cfg, s, e);
    } else {
      if e.Resort? || e.BeatPass? || e.Ack? || e.WriteFails? || e.CountClosed? {
        MaintenanceIsCoherent(cfg, s, e);
      } else {
        UseIsCoherent(cfg, s, e);
      }
      hide Safe, Coherent, CreatesNothing, Pass;
      UncountedIsSafe(cfg, s, Whole(cfg, s, e), Step(cfg, s, e));
    }
  }

  // ---------------------------------------------------- what guards buy

  ghost predicate Once(s: seq<ConnItem>) {
    forall c :: c in s ==> multiset(s)[c] == 1
  }

  lemma OnceHasNoRepeats(s: seq<ConnItem>)
    requires Once(s)
    ensures NoRepeats(s)
  {
    forall i, j | 0 <= i < j < |s| ensures s[i] != s[j] {
      assert s == s[..i] + [s[i]] + s[i + 1..];
      assert s[j] in s[i + 1..];
      assert multiset(s)[s[i]] == multiset(s[..i])[s[i]] + 1 + multiset(s[i + 1..])[s[i]];
    }
  }

  lemma OnceInsert(s: seq<ConnItem>, pos: nat, c: ConnItem)
    requires Once(s) && pos <= |s| && c !in s
    ensures Once(InsertAt(s, pos, c))
    ensures Elements(InsertAt(s, pos, c)) == Elements(s) + {c}
  {
    var t := InsertAt(s, pos, c);
    InsertCount(s, pos, c);
    assert c !in multiset(s);
    assert forall d :: d in t <==> d in multiset(t);
    assert forall d :: d in s <==> d in multiset(s);
  }

  lemma OnceRemoveFirst(s: seq<ConnItem>, c: ConnItem)
    requires Once(s)
    ensures Once(RemoveFirst(s, c))
    ensures Elements(RemoveFirst(s, c)) == Elements(s) - {c}
  {
    var t := RemoveFirst(s, c);
    RemoveFirstCount(s, c);
    assert forall d :: d in t <==> d in multiset(t);
    assert forall d :: d in s <==> d in multiset(s);
  }

  lemma OnceCull(s: seq<ConnItem>, aged: set<ConnItem>, budget: int)
    requires Once(s)
    ensures var (kept, expired) := CullSplit(s, aged, budget);
      && Once(kept)
      && Elements(kept) + Elements(expired) == Elements(s)
  {
    CullSplits(s, aged, budget);
    var (kept, expired) := CullSplit(s, aged, budget);
    assert forall d :: d in kept <==> d in multiset(kept);
    assert forall d :: d in expired <==> d in multiset(expired);
    assert forall d :: d in s <==> d in multiset(s);
    assert forall d :: multiset(kept)[d] + multiset(expired)[d] == multiset(s)[d];
  }

  lemma OnceRemainder(p: PoolState, idle: seq<ConnItem>, k: nat)
    requires Once(idle) && k < |idle| && idle[k] !in p.closed
    ensures Once(Remainder(p, idle, k))
    ensures Elements(Remainder(p, idle, k)) <= Elements(idle) - {idle[k]}
    ensures Elements(idle) - p.closed - {idle[k]} <= Elements(Remainder(p, idle, k))
  {
    var rest := Remainder(p, idle, k);
    assert idle[k] in idle;
    forall d | d in rest ensures d in idle && d != idle[k] && multiset(rest)[d] == 1 {
      RemainderCount(p, idle, k, d);
      assert d in multiset(rest);
      assert d in multiset(idle);
    }
    forall d | d in idle && d !in p.closed && d != idle[k] ensures d in rest {
      RemainderCount(p, idle, k, d);
      assert d in multiset(rest);
    }
  }

  lemma OnceResort(s: seq<ConnItem>, order: seq<ConnItem>)
    requires Once(s) && multiset(order) == multiset(s)
    ensures Once(order)
    ensures Elements(order) == Elements(s)
  {
    assert forall d :: d in order <==> d in multiset(order);
    assert forall d :: d in s <==> d in multiset(s);
  }

  /** Every open managed connection is idle, active or being published, and only
      one of these; idle ones are listed once and carry no streams. */
  ghost predicate Partitioned(p: PoolState, publishing: set<ConnItem>) {
    var idle := Elements(p.idle);
    && Once(p.idle)
    && idle !! p.active && idle !! publishing && publishing !! p.active
    && idle <= p.managers.Keys && publishing <= p.managers.Keys
    && p.managers.Keys - p.closed <= idle + p.active + publishing
    && Streamless(p, idle + publishing)
  }

  ghost predicate Streamless(p: PoolState, conns: set<ConnItem>) {
    forall c :: c in conns && c in p.managers ==> p.managers[c].streams == map[]
  }

  /** Created = failed + closed + managed + in flight. */
  ghost predicate Ledger(s: Sys) {
    s.p.created == s.p.failures + s.p.closedCount + s.uncounted + |s.p.managers| + s.dialing
  }

  /** The partition, retired connections being out of every index, and the ledger. */
  ghost predicate Tidy(s: Sys) {
    && Partitioned(s.p, s.publishing)
    && s.retired !! s.p.managers.Keys
    && Ledger(s)
  }

  /** What a step must respect to keep that: a grant must not fall on a connection
      that is still being published, such a connection must not be given back or
      detached, and handlers must be registered on managed connections only. */
  ghost predicate Guard(s: Sys, e: Event) {
    match e
    case Acquire(_, _, outcome) => outcome.Granted? ==> outcome.conn !in s.publishing
    case GiveBack(c, _) => c in s.publishing ==> c in s.p.closed
    case RegisterOn(c, _) => c in s.p.managers
    case DetachConn(c) => c !in s.publishing
    case _ => true
  }

  lemma PartitionedPublishFirst(p: PoolState, publishing: set<ConnItem>, c: ConnItem)
    requires Partitioned(p, publishing) && c !in p.idle && c !in p.active
    ensures Partitioned(PublishManager(p, c), publishing + {c})
  {
  }

  lemma PartitionedPublishSecond(p: PoolState, publishing: set<ConnItem>, c: ConnItem)
    requires Partitioned(p, publishing) && c in publishing
    ensures Partitioned(PublishIdle(p, c), publishing - {c})
  {
    OnceInsert(p.idle, |p.idle|, c);
    assert InsertAt(p.idle, |p.idle|, c) == p.idle + [c];
  }

  lemma TidyPublish(cfg: Config, s: Sys, e: Event)
    requires Coherent(cfg, s.p, s.retired) && s.publishing <= s.p.known && Tidy(s) && Enabled(cfg, s, e)
    requires e.PublishFirst? || e.PublishSecond?
    ensures Tidy(Step(cfg, s, e))
  {
    if e.PublishFirst? {
      PartitionedPublishFirst(s.p, s.publishing, e.conn);
      MapInsertSize(s.p.managers, e.conn, FRESH);
    } else {
      PartitionedPublishSecond(s.p, s.publishing, e.conn);
    }
  }

  lemma TidyGrant(
      cfg: Config, s: Sys, c: ConnItem, target: string, q: PoolState, r: Outcome)
    requires Coherent(cfg, s.p, s.retired) && Tidy(s) && c in s.p.active && c !in s.p.closed && c in s.p.known
    requires GrantsOn(cfg, s.p, c, target, q, r)
    ensures Tidy(s.(p := q))
  {
    assert q.managers.Keys == s.p.managers.Keys;
    assert |q.managers| == |q.managers.Keys| == |s.p.managers|;
  }

  lemma TidyTaken(s: Sys, k: nat)
    requires Tidy(s) && k < |s.p.idle| && s.p.idle[k] !in s.p.closed
    ensures var c := s.p.idle[k];
      var s' := s.(p := SetActive(s.p.(idle := Remainder(s.p, s.p.idle, k)), c));
      Tidy(s') && c in s'.p.active && c !in s.publishing
  {
    hide Remainder, Once;
    OnceRemainder(s.p, s.p.idle, k);
    assert s.p.idle[k] in Elements(s.p.idle);
  }

  lemma TidyDrained(cfg: Config, s: Sys)
    requires Coherent(cfg, s.p, s.retired) && Tidy(s)
    requires !Stuck(cfg, s.p, s.p.idle) && LastTakeable(cfg, s.p, s.p.idle) < 0
    ensures var p := s.p.(idle := []); Coherent(cfg, p, s.retired) && Tidy(s.(p := p))
  {
    OnlyClosedLeft(cfg, s.p);
    ShorterIdleIsCoherent(cfg, s.p, s.retired, []);
  }

  /** With an empty idle list, an open connection that is not half published is in use. */
  lemma OpenIsActive(cfg: Config, s: Sys, c: ConnItem)
    requires Coherent(cfg, s.p, s.retired) && Tidy(s) && s.p.idle == []
    requires c in s.p.managers && c !in s.p.closed && c !in s.publishing
    ensures c in s.p.active && c in s.p.known
  {
  }

  lemma StreamsBeforePublication(s: Sys, c: ConnItem, id: StreamId)
    requires c in s.publishing && c in s.p.managers && id in s.p.managers[c].streams
    ensures !Tidy(s)
  {
  }

  lemma TidyServed(cfg: Config, s: Sys, c: ConnItem, target: string, q: PoolState, r: Outcome)
    requires Coherent(cfg, s.p, s.retired) && Tidy(s) && s.p.idle == []
    requires c in s.p.managers && c !in s.p.closed && GrantsOn(cfg, s.p, c, target, q, r)
    ensures Tidy(s.(p := q)) <==> c !in s.publishing
  {
    hide Tidy, Coherent, GrantsOn;
    if c !in s.publishing {
      OpenIsActive(cfg, s, c);
      TidyGrant(cfg, s, c, target, q, r);
    } else {
      var id := GrantedId(cfg, s.p, c, target, q, r);
      StreamsBeforePublication(s.(p := q), c, id);
    }
  }

  lemma GrantedId(cfg: Config, p: PoolState, c: ConnItem, target: string, q: PoolState, r: Outcome)
      returns (id: StreamId)
    requires GrantsOn(cfg, p, c, target, q, r)
    ensures c in q.managers && id in q.managers[c].streams && r == Granted(c, id)
  {
    AllocateIsComplete(ManagerOf(p, c), cfg.maxStreams, target);
    id := r.id;
  }

  lemma TidyAcquire(cfg: Config, s: Sys, target: string, q: PoolState, r: Outcome)
    requires Coherent(cfg, s.p, s.retired) && Tidy(s)
    requires !Stuck(cfg, s.p, s.p.idle) && Pass(cfg, s.p, target, q, r)
    ensures Tidy(s.(p := q)) <==> (r.Granted? ==> r.conn !in s.publishing)
  {
    hide Coherent, Tidy, LastTakeable, Remainder, SetActive, GrantsOn, Stuck, AffinityHit, CanShare, LeastLoaded;
    var k := LastTakeable(cfg, s.p, s.p.idle);
    if k >= 0 {
      var c := s.p.idle[k];
      TidyTaken(s, k);
      TakenIsCoherent(cfg, s.p, s.retired, k);
      var taken := SetActive(s.p.(idle := Remainder(s.p, s.p.idle, k)), c);
      var id := GrantedId(cfg, taken, c, target, q, r);
      TidyGrant(cfg, s.(p := taken), c, target, q, r);
    } else {
      TidyDrained(cfg, s);
      DrainedPass(cfg, s.p, target, q, r);
      if r.Granted? {
        TidyServed(cfg, s.(p := s.p.(idle := [])), r.conn, target, q, r);
      }
    }
  }

  lemma TidyRejoin(cfg: Config, s: Sys, c: ConnItem, pos: nat)
    requires Coherent(cfg, s.p, s.retired) && Tidy(s) && c in s.p.known && pos <= |s.p.idle|
    requires c !in s.p.closed && c !in s.p.idle && ManagerOf(s.p, c).streams == map[]
    ensures Tidy(s.(p := ReleaseAt(s.p, c, pos))) <==> c !in s.publishing
  {
    PartitionedRejoin(s.p, s.publishing, c, pos);
  }

  lemma PartitionedRejoin(p: PoolState, publishing: set<ConnItem>, c: ConnItem, pos: nat)
    requires Partitioned(p, publishing) && pos <= |p.idle|
    requires c !in p.closed && c !in p.idle && c in p.managers && p.managers[c].streams == map[]
    ensures Partitioned(ReleaseAt(p, c, pos), publishing) <==> c !in publishing
  {
    var q := ReleaseAt(p, c, pos);
    OnceInsert(p.idle, pos, c);
    assert c in Elements(q.idle);
    assert Elements(q.idle) == Elements(p.idle) + {c};
  }

  lemma TidyStaysOut(s: Sys, c: ConnItem)
    requires Tidy(s)
    requires c in s.p.closed || c in s.p.idle
    ensures Tidy(s.(p := ClearActive(s.p, c)))
  {
  }

  lemma TidyGiveBack(cfg: Config, s: Sys, c: ConnItem, pos: nat)
    requires Coherent(cfg, s.p, s.retired) && Tidy(s) && c in s.p.known && pos <= |s.p.idle|
    ensures Tidy(s.(p := ReleaseAt(s.p, c, pos))) <==> (c in s.publishing ==> c in s.p.closed)
  {
    if ManagerOf(s.p, c).streams == map[] {
      if c in s.p.closed || c in s.p.idle {
        TidyStaysOut(s, c);
      } else {
        TidyRejoin(cfg, s, c, pos);
      }
    }
  }

  lemma TidyRegister(cfg: Config, s: Sys, c: ConnItem, target: string)
    requires Coherent(cfg, s.p, s.retired) && Tidy(s) && c in s.p.known
    ensures Tidy(s.(p := Register(cfg, s.p, c, target))) <==> c in s.p.managers
  {
  }

  lemma TidyUnregister(s: Sys, c: ConnItem, id: StreamId)
    requires Tidy(s)
    ensures Tidy(s.(p := Unregister(s.p, c, id)))
  {
    if c in s.p.managers {
      assert Unregister(s.p, c, id).managers.Keys == s.p.managers.Keys;
      assert |Unregister(s.p, c, id).managers| == |s.p.managers.Keys|;
    }
  }

  lemma PartitionedDetach(p: PoolState, publishing: set<ConnItem>, c: ConnItem)
    requires Partitioned(p, publishing) && c in p.closed
    ensures Partitioned(Detach(p, c), publishing) <==> c !in publishing
  {
    var q := Detach(p, c);
    OnceRemoveFirst(p.idle, c);
    assert c !in q.managers;
    assert Elements(q.idle) == Elements(p.idle) - {c};
  }

  lemma TidyDetach(s: Sys, c: ConnItem)
    requires Tidy(s) && c in s.p.closed
    ensures Tidy(Detached(s, c)) <==> c !in s.publishing
  {
    PartitionedDetach(s.p, s.publishing, c);
    MapRemoveSize(s.p.managers, c);
    assert Detached(s, c).retired !! Detach(s.p, c).managers.Keys;
    assert Ledger(Detached(s, c));
  }

  lemma TidyCull(s: Sys, aged: set<ConnItem>, keepMin: int)
    requires Tidy(s)
    ensures Tidy(s.(p := Cull(s.p, aged, keepMin)))
  {
    OnceCull(s.p.idle, aged, |s.p.idle| - keepMin);
  }

  /** Only counters and pings differ, and the ledger's balance is the same. */
  ghost predicate SameButCounts(s: Sys, s': Sys) {
    && s'.publishing == s.publishing && s'.retired == s.retired
    && s'.p == s.p.(heartbeats := s'.p.heartbeats, activeCount := s'.p.activeCount, pending := s'.p.pending,
                    created := s'.p.created, failures := s'.p.failures, closedCount := s'.p.closedCount)
    && s'.p.created - s'.p.failures - s'.p.closedCount - s'.uncounted - s'.dialing ==
       s.p.created - s.p.failures - s.p.closedCount - s.uncounted - s.dialing
  }

  lemma TidyCounts(s: Sys, s': Sys)
    requires Tidy(s) && SameButCounts(s, s')
    ensures Tidy(s')
  {
  }

  lemma TidyFlags(s: Sys, c: ConnItem)
    requires Tidy(s)
    ensures Tidy(s.(p := MarkClosed(s.p, c)))
    ensures c in s.retired ==> Tidy(s.(p := s.p.(active := s.p.active - {c})))
  {
    hide Once;
  }

  lemma TidyResort(s: Sys, order: seq<ConnItem>)
    requires Tidy(s) && multiset(order) == multiset(s.p.idle)
    ensures Tidy(s.(p := s.p.(idle := order)))
  {
    OnceResort(s.p.idle, order);
    hide Once;
  }

  lemma TidyOther(cfg: Config, s: Sys, e: Event)
    requires Coherent(cfg, s.p, s.retired) && Tidy(s) && Enabled(cfg, s, e)
    requires e.Reserve? || e.CountCreated? || e.DialFails? || e.ReleaseSlot?
          || e.Resort? || e.BeatPass? || e.Ack? || e.WriteFails?
          || e.ClearFlag? || e.AddActive? || e.SubtractActive? || e.CountClosed?
    ensures Tidy(Step(cfg, s, e))
  {
    hide Tidy, Coherent, BeatAll, Enumerates;
    if e.Resort? {
      TidyResort(s, e.order);
    } else if e.WriteFails? {
      TidyFlags(s, e.conn);
    } else if e.ClearFlag? {
      TidyFlags(s, e.conn);
      TidyCounts(s.(p := s.p.(active := s.p.active - {e.conn})), Step(cfg, s, e));
    } else {
      TidyCounts(s, Step(cfg, s, e));
    }
  }

  lemma TidyUncounted(s: Sys, q: PoolState)
    ensures Tidy(Uncounted(s, q)) == Tidy(s.(p := q))
  {
  }

  lemma SafeParts(cfg: Config, s: Sys)
    requires Safe(cfg, s)
    ensures Coherent(cfg, s.p, s.retired) && s.publishing <= s.p.known
  {
  }

  /** A step keeps the partition, the finality of retirement and the ledger if and
      only if it respects the guard. */
  lemma StepIsTidyIffGuarded(cfg: Config, s: Sys, e: Event)
    requires Safe(cfg, s) && Tidy(s) && Enabled(cfg, s, e)
    ensures Tidy(Step(cfg, s, e)) <==> Guard(s, e)
  {
    hide Safe, Tidy, Coherent, Pass, Stuck, ReleaseAt, Register, Unregister, Detached, Cull, SlotFree;
    SafeParts(cfg, s);
    match e
    case Acquire(target, after, outcome) =>
      TidyAcquire(cfg, s, target, after, outcome);
      TidyUncounted(s, after);
    case GiveBack(c, pos) =>
      TidyGiveBack(cfg, s, c, pos);
      TidyUncounted(s, ReleaseAt(s.p, c, pos));
    case RegisterOn(c, target) => TidyRegister(cfg, s, c, target);
    case UnregisterOn(c, id) => TidyUnregister(s, c, id);
    case DetachConn(c) => TidyDetach(s, c);
    case CullIdle(aged, keepMin) => TidyCull(s, aged, keepMin);
    case PublishFirst(c) => TidyPublish(cfg, s, e);
    case PublishSecond(c) => TidyPublish(cfg, s, e);
    case _ => TidyOther(cfg, s, e);
  }

  // ---------------------------- the guard of an undisturbed pass, beforehand

  /** What can be checked before a pass that nobody disturbs: an idle connection can be taken; or the affine
      connection can and is not half published; or there is none such and nothing can be
      shared or no half-published connection is open. */
  ghost predicate PassMayRun(cfg: Config, s: Sys, target: string) {
    var q := s.p.(idle := []);
    || LastTakeable(cfg, s.p, s.p.idle) >= 0
    || if AffinityHit(cfg, q, target) then q.targets[target] !in s.publishing
       else !cfg.multiplex || cfg.maxStreams < 1 || s.publishing <= s.p.closed
  }

  lemma CheckedGrant(cfg: Config, s: Sys, target: string, q: PoolState, r: Outcome)
    requires Tidy(s) && PassMayRun(cfg, s, target) && Pass(cfg, s.p, target, q, r) && r.Granted?
    ensures r.conn !in s.publishing
  {
    hide Allocate, Streamless, Once, Ledger;
    var k := LastTakeable(cfg, s.p, s.p.idle);
    if k >= 0 {
      assert s.p.idle[k] in Elements(s.p.idle);
    }
  }

  /** When it holds, every undisturbed pass keeps the pool tidy ... */
  lemma CheckedPassIsTidy(cfg: Config, s: Sys, target: string, q: PoolState, r: Outcome)
    requires Safe(cfg, s) && Tidy(s) && !Stuck(cfg, s.p, s.p.idle)
    requires PassMayRun(cfg, s, target) && Pass(cfg, s.p, target, q, r)
    ensures Tidy(s.(p := q))
  {
    hide Tidy, Pass, PassMayRun, Coherent;
    if r.Granted? {
      CheckedGrant(cfg, s, target, q, r);
    }
    TidyAcquire(cfg, s, target, q, r);
  }

  lemma HalfPublishedIsLeast(cfg: Config, s: Sys, c: ConnItem)
    requires Tidy(s) && c in s.publishing && c !in s.p.closed && cfg.maxStreams >= 1
    ensures LeastLoaded(s.p, c) && Takeable(cfg, s.p, c)
  {
  }

  lemma GrantExists(cfg: Config, p: PoolState, c: ConnItem, target: string) returns (q: PoolState, r: Outcome)
    requires Roomy(cfg, p, c)
    ensures GrantsOn(cfg, p, c, target, q, r) && r.Granted? && r.conn == c
  {
    AllocateIsComplete(ManagerOf(p, c), cfg.maxStreams, target);
    var (m, id) := Allocate(ManagerOf(p, c), cfg.maxStreams, target);
    q, r := p.(managers := p.managers[c := m]), Granted(c, id.value);
  }

  /** ... and when it does not, some undisturbed pass does not. */
  lemma UncheckedPassCanBreak(cfg: Config, s: Sys, target: string) returns (q: PoolState, r: Outcome)
    requires Safe(cfg, s) && Tidy(s) && !Stuck(cfg, s.p, s.p.idle)
    requires !PassMayRun(cfg, s, target)
    ensures Pass(cfg, s.p, target, q, r) && !Tidy(s.(p := q))
  {
    hide Tidy, Coherent, GrantsOn, Roomy;
    var p := s.p.(idle := []);
    var c;
    if AffinityHit(cfg, p, target) {
      c := p.targets[target];
    } else {
      c :| c in s.publishing && c !in s.p.closed;
      HalfPublishedIsLeast(cfg, s, c);
      RoomIgnoresIdle(cfg, s.p, c);
      assert LeastLoaded(p, c) && Takeable(cfg, p, c);
      assert CanShare(cfg, p);
    }
    q, r := GrantExists(cfg, p, c, target);
    TidyAcquire(cfg, s, target, q, r);
  }

  lemma RoomIgnoresIdle(cfg: Config, p: PoolState, c: ConnItem)
    ensures Roomy(cfg, p.(idle := []), c) == Roomy(cfg, p, c)
  {
  }
}
