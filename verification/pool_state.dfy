/** The connection pool as a value, and what each critical section of the pool
    does to it. Connections appear only as identities. */
module PoolStates {
  import opened Prelude
  import opened Bitmap
  import opened StreamIds
  import opened Connections

  datatype Config = Config(maxStreams: int, maxPool: int, multiplex: bool, heartbeatTimeout: int)

  datatype PoolState = PoolState(
    known: set<ConnItem>,                    // every connection ever published
    idle: seq<ConnItem>,                     // the idle list
    managers: map<ConnItem, ManagerState>,   // managerByConn
    targets: map<string, ConnItem>,          // targetToConn
    heartbeats: map<string, int>,            // pendingHeartbeats
    active: set<ConnItem>,                   // connections whose active flag is set
    closed: set<ConnItem>,                   // connections whose closed flag is set
    activeCount: int,                        // activeConnections
    pending: int,                            // pendingConnections
    created: int, failures: int, closedCount: int)

  const EMPTY_POOL := PoolState({}, [], map[], map[], map[], {}, {}, 0, 0, 0, 0, 0)

  function Elements(s: seq<ConnItem>): set<ConnItem> { set c | c in s }

  lemma NoElements()
    ensures Elements([]) == {}
  {
  }

  lemma ListElement(s: seq<ConnItem>, i: nat)
    requires i < |s|
    ensures Elements(s[..i + 1]) == Elements(s[..i]) + {s[i]} && s[i] in Elements(s)
  {
  }

  lemma ElementsAppend(s: seq<ConnItem>, c: ConnItem)
    ensures Elements(s + [c]) == Elements(s) + {c}
  {
  }

  lemma ElementsPrepend(c: ConnItem, s: seq<ConnItem>)
    ensures Elements([c] + s) == {c} + Elements(s)
  {
  }

  /** The connections counted against the pool's capacity. */
  function Live(p: PoolState): set<ConnItem> {
    p.managers.Keys + Elements(p.idle) - p.closed
  }

  function ManagerOf(p: PoolState, c: ConnItem): ManagerState {
    if c in p.managers then p.managers[c] else FRESH
  }

  predicate Roomy(cfg: Config, p: PoolState, c: ConnItem) {
    HasRoom(ManagerOf(p, c), cfg.maxStreams)
  }

  predicate Takeable(cfg: Config, p: PoolState, c: ConnItem) {
    c !in p.closed && Roomy(cfg, p, c)
  }

  lemma LiveIgnoresPending(p: PoolState, pending: int)
    ensures Live(p.(pending := pending)) == Live(p)
  {
  }

  // ------------------------------------------------ creating a connection

  predicate SlotFree(cfg: Config, p: PoolState) { |Live(p)| + p.pending < cfg.maxPool }

  /** First section of a publication: the connection gets its stream manager. */
  function PublishManager(p: PoolState, c: ConnItem): PoolState {
    p.(known := p.known + {c}, managers := p.managers[c := FRESH])
  }

  /** Second section of a publication: the connection joins the idle list. */
  function PublishIdle(p: PoolState, c: ConnItem): PoolState {
    p.(idle := p.idle + [c])
  }

  /** A creation attempt: counted, and either published or counted as a failure. */
  function Attempted(p: PoolState, item: Option<ConnItem>): PoolState {
    var q := p.(created := p.created + 1);
    match item
    case Some(c) => PublishIdle(PublishManager(q, c), c)
    case None => q.(failures := q.failures + 1)
  }

  /** An attempt takes no notice of the slot it holds. */
  lemma AttemptIgnoresSlot(p: PoolState, item: Option<ConnItem>)
    ensures var q := Attempted(p.(pending := p.pending + 1), item);
      q.(pending := q.pending - 1) == Attempted(p, item)
  {
  }

  lemma AttemptKeepsFlags(p: PoolState, item: Option<ConnItem>)
    ensures Attempted(p, item).closed == p.closed
  {
  }

  /** An attempt is counted; a new connection joins the idle list at its end and has a
      manager without streams, and a failure is counted and changes nothing else. */
  lemma AttemptIs(p: PoolState, item: Option<ConnItem>)
    ensures var q := Attempted(p, item);
      && q.created == p.created + 1
      && q.failures == (if item.None? then p.failures + 1 else p.failures)
      && (item.None? ==> q.idle == p.idle && q.managers == p.managers && q.known == p.known)
      && (item.Some? ==>
            && |q.idle| == |p.idle| + 1 && q.idle[|p.idle|] == item.value && q.idle[..|p.idle|] == p.idle
            && item.value in q.managers && q.managers[item.value].streams == map[]
            && q.managers - {item.value} == p.managers - {item.value}
            && q.known == p.known + {item.value})
      && q.targets == p.targets && q.heartbeats == p.heartbeats && q.active == p.active && q.closed == p.closed
      && q.activeCount == p.activeCount && q.pending == p.pending && q.closedCount == p.closedCount
  {
  }

  // ---------------------------------------------------------- closing one

  function MarkClosed(p: PoolState, c: ConnItem): PoolState {
    p.(closed := p.closed + {c})
  }

  function RemoveFirst(s: seq<ConnItem>, c: ConnItem): seq<ConnItem> {
    if s == [] then [] else if s[0] == c then s[1..] else [s[0]] + RemoveFirst(s[1..], c)
  }

  lemma {:induction false} RemoveAbsent(s: seq<ConnItem>, c: ConnItem)
    requires c !in s
    ensures RemoveFirst(s, c) == s
  {
    if s != [] { RemoveAbsent(s[1..], c); }
  }

  lemma {:induction false} RemoveFirstAt(s: seq<ConnItem>, c: ConnItem, i: nat)
    requires i < |s| && s[i] == c && c !in s[..i]
    ensures RemoveFirst(s, c) == s[..i] + s[i + 1..]
  {
    if i > 0 {
      assert s[0] in s[..i];
      assert s[1..][..i - 1] == s[..i][1..];
      RemoveFirstAt(s[1..], c, i - 1);
    }
  }

  lemma {:induction false} RemoveFirstKnown(s: seq<ConnItem>, c: ConnItem)
    ensures Elements(RemoveFirst(s, c)) <= Elements(s)
  {
    if s != [] {
      RemoveFirstKnown(s[1..], c);
      assert s == [s[0]] + s[1..];
      assert Elements(s) == {s[0]} + Elements(s[1..]);
    }
  }

  function WithoutTargetsOf(targets: map<string, ConnItem>, c: ConnItem): map<string, ConnItem> {
    map t | t in targets && targets[t] != c :: targets[t]
  }

  /** Takes a connection out of every index. */
  function Detach(p: PoolState, c: ConnItem): PoolState {
    p.(idle := RemoveFirst(p.idle, c),
       managers := p.managers - {c},
       targets := WithoutTargetsOf(p.targets, c),
       heartbeats := p.heartbeats - {c.connectionID})
  }

  /** Whether `Detach` finds the connection in the idle list or among the managers. */
  predicate Indexed(p: PoolState, c: ConnItem) { c in p.idle || c in p.managers }

  function ClearActive(p: PoolState, c: ConnItem): PoolState {
    if c in p.active then p.(active := p.active - {c}, activeCount := p.activeCount - 1) else p
  }

  function SetActive(p: PoolState, c: ConnItem): PoolState {
    if c in p.active then p else p.(active := p.active + {c}, activeCount := p.activeCount + 1)
  }

  /** What follows the detaching section: the active flag and the statistics. */
  function Settle(p: PoolState, c: ConnItem, counted: bool): PoolState {
    ClearActive(p, c).(closedCount := p.closedCount + if counted then 1 else 0)
  }

  /** The pool's part of closing a connection, run without interruption. */
  function Close(p: PoolState, c: ConnItem): PoolState {
    var q := MarkClosed(p, c);
    Settle(Detach(q, c), c, Indexed(q, c))
  }

  /** Where a connection stood first in a list, if it did; without it the list is as before. */
  lemma RemovedAt(s: seq<ConnItem>, c: ConnItem) returns (i: nat)
    ensures i <= |s| && c !in s[..i]
    ensures if c in s then i < |s| && s[i] == c && RemoveFirst(s, c) == s[..i] + s[i + 1..]
            else RemoveFirst(s, c) == s
  {
    hide RemoveFirst;
    i := 0;
    if c !in s {
      RemoveAbsent(s, c);
    } else {
      while i < |s| && s[i] != c
        invariant i <= |s| && c !in s[..i]
      {
        i := i + 1;
      }
      assert s[..|s|] == s;
      RemoveFirstAt(s, c, i);
    }
  }

  /** Closing a connection takes its own entries out of every index, the first occurrence in
      the idle list included, and leaves those of all others as they are. */
  lemma CloseTakesOnlyItsOwn(p: PoolState, c: ConnItem) returns (i: nat)
    ensures var q := Close(p, c);
      && (forall t :: t in q.targets <==> t in p.targets && p.targets[t] != c)
      && (forall t :: t in q.targets ==> q.targets[t] == p.targets[t])
      && (forall d :: d in q.managers <==> d in p.managers && d != c)
      && (forall d :: d in q.managers ==> q.managers[d] == p.managers[d])
      && (forall id :: id in q.heartbeats <==> id in p.heartbeats && id != c.connectionID)
      && (forall id :: id in q.heartbeats ==> q.heartbeats[id] == p.heartbeats[id])
    ensures i <= |p.idle| && c !in p.idle[..i]
    ensures if c in p.idle then i < |p.idle| && p.idle[i] == c && Close(p, c).idle == p.idle[..i] + p.idle[i + 1..]
            else Close(p, c).idle == p.idle
  {
    i := RemovedAt(p.idle, c);
  }

  /** It sets the closed flag and clears the active one, and both counters follow. */
  lemma CloseSettles(p: PoolState, c: ConnItem)
    ensures var q := Close(p, c);
      && q.closed == p.closed + {c} && q.active == p.active - {c}
      && q.activeCount == (if c in p.active then p.activeCount - 1 else p.activeCount)
      && q.closedCount == (if c in p.idle || c in p.managers then p.closedCount + 1 else p.closedCount)
      && q.known == p.known && q.pending == p.pending && q.created == p.created && q.failures == p.failures
  {
  }

  /** Marking a connection closed beforehand makes no difference to closing it. */
  lemma MarkClosedFirst(p: PoolState, c: ConnItem)
    ensures Close(MarkClosed(p, c), c) == Close(p, c)
  {
    assert p.closed + {c} + {c} == p.closed + {c};
  }

  function CloseAll(p: PoolState, conns: seq<ConnItem>): PoolState {
    if conns == [] then p
    else Close(CloseAll(p, conns[..|conns| - 1]), conns[|conns| - 1])
  }

  /** Closing several connections leaves managers to the others only, and marks
      exactly these closed. */
  lemma {:induction false} CloseAllDropsManagers(p: PoolState, conns: seq<ConnItem>)
    ensures CloseAll(p, conns).managers == p.managers - Elements(conns)
    ensures CloseAll(p, conns).closed == p.closed + Elements(conns)
  {
    hide RemoveFirst, Indexed, Elements;
    NoElements();
    if conns != [] {
      var n := |conns| - 1;
      CloseAllDropsManagers(p, conns[..n]);
      ElementsAppend(conns[..n], conns[n]);
      assert conns == conns[..n] + [conns[n]];
    }
  }

  // ---------------------------------------------------------- using one

  function InsertAt(s: seq<ConnItem>, pos: nat, c: ConnItem): seq<ConnItem>
    requires pos <= |s|
  {
    s[..pos] + [c] + s[pos..]
  }

  /** Gives a connection back; it rejoins the idle list at `pos` once it has no
      streams, unless it is closed or already there. */
  function ReleaseAt(p: PoolState, c: ConnItem, pos: nat): PoolState
    requires pos <= |p.idle|
  {
    if ManagerOf(p, c).streams != map[] then p
    else if c in p.closed || c in p.idle then ClearActive(p, c)
    else ClearActive(p, c).(idle := InsertAt(p.idle, pos, c))
  }

  /** A connection with streams stays as it is. One without is idle from now on, and unless
      it is closed or listed it stands at `pos` in the idle list. */
  lemma ReleaseIs(p: PoolState, c: ConnItem, pos: nat)
    requires pos <= |p.idle|
    ensures var busy, q := |ManagerOf(p, c).streams| > 0, ReleaseAt(p, c, pos);
      && q.active == (if busy then p.active else p.active - {c})
      && q.activeCount == (if !busy && c in p.active then p.activeCount - 1 else p.activeCount)
      && q.idle == (if busy || c in p.closed || c in p.idle then p.idle else p.idle[..pos] + [c] + p.idle[pos..])
      && q.managers == p.managers && q.targets == p.targets && q.heartbeats == p.heartbeats && q.closed == p.closed
  {
  }

  function Register(cfg: Config, p: PoolState, c: ConnItem, target: string): PoolState {
    p.(managers := if c in p.managers then p.managers else p.managers[c := FRESH],
       targets := if target != "" && cfg.multiplex then p.targets[target := c] else p.targets)
  }

  /** Registering points the target at this connection, whichever it pointed at before, if
      requests may share and there is a target; the connection has a manager afterwards, its
      own if it had one; all other targets and managers stay. */
  lemma RegisterIs(cfg: Config, p: PoolState, c: ConnItem, target: string)
    ensures var q := Register(cfg, p, c, target);
      && (target != "" && cfg.multiplex ==> target in q.targets && q.targets[target] == c)
      && (target == "" || !cfg.multiplex ==> q.targets == p.targets)
      && q.targets - {target} == p.targets - {target}
      && c in q.managers && q.managers - {c} == p.managers - {c}
      && (c in p.managers ==> q.managers[c] == p.managers[c])
      && (c !in p.managers ==> q.managers[c].streams == map[] && q.managers[c].hint == 0)
      && q.idle == p.idle && q.active == p.active && q.closed == p.closed && q.heartbeats == p.heartbeats
  {
  }

  function TargetOf(p: PoolState, c: ConnItem, id: StreamId): string {
    var m := ManagerOf(p, c);
    if id in m.streams then m.streams[id] else ""
  }

  function Unregister(p: PoolState, c: ConnItem, id: StreamId): PoolState {
    if c !in p.managers then p
    else
      var m, target := StreamIds.Release(p.managers[c], id), TargetOf(p, c, id);
      p.(managers := p.managers[c := m],
         targets := if m.streams == map[] && target != "" then p.targets - {target} else p.targets)
  }

  /** Unregistering frees the ID on this connection and changes no other manager. */
  lemma UnregisterFrees(p: PoolState, c: ConnItem, id: StreamId)
    ensures var q := Unregister(p, c, id);
      && q.managers - {c} == p.managers - {c} && (c in q.managers <==> c in p.managers)
      && (c in p.managers ==>
            && id !in q.managers[c].streams && q.managers[c].hint == p.managers[c].hint
            && q.managers[c].streams == p.managers[c].streams - {id})
      && q.idle == p.idle && q.active == p.active && q.closed == p.closed && q.heartbeats == p.heartbeats
  {
  }

  lemma NoStreamLeft(streams: map<StreamId, string>, id: StreamId)
    ensures streams - {id} == map[] <==> streams.Keys <= {id}
  {
    if streams.Keys <= {id} {
      assert streams - {id} == map[];
    } else {
      var d :| d in streams.Keys && d != id;
      assert d in streams - {id};
    }
  }

  /** The target of the last stream on a connection is forgotten with it, and no other. */
  lemma LastStreamTakesTarget(p: PoolState, c: ConnItem, id: StreamId)
    ensures Unregister(p, c, id).targets ==
      if c in p.managers && p.managers[c].streams.Keys == {id} && p.managers[c].streams[id] != ""
      then p.targets - {p.managers[c].streams[id]} else p.targets
  {
    if c in p.managers {
      NoStreamLeft(p.managers[c].streams, id);
      assert id !in p.managers[c].streams ==> TargetOf(p, c, id) == "";
    }
  }

  // ---------------------------------------------------------- maintenance

  /** Splits the idle list into what stays and what expires: the first `budget`
      connections older than the limit (`aged`), in list order. */
  function CullSplit(idle: seq<ConnItem>, aged: set<ConnItem>, budget: int): (seq<ConnItem>, seq<ConnItem>) {
    if idle == [] then ([], [])
    else
      var n := |idle| - 1;
      var (kept, expired) := CullSplit(idle[..n], aged, budget);
      if |expired| < budget && idle[n] in aged then (kept, expired + [idle[n]])
      else (kept + [idle[n]], expired)
  }

  lemma CullNone(aged: set<ConnItem>, budget: int)
    ensures CullSplit([], aged, budget) == ([], [])
  {
  }

  lemma CullStep(
      idle: seq<ConnItem>, aged: set<ConnItem>, budget: int, i: nat, kept: seq<ConnItem>, expired: seq<ConnItem>)
    requires i < |idle| && CullSplit(idle[..i], aged, budget) == (kept, expired)
    ensures CullSplit(idle[..i + 1], aged, budget) ==
      if |expired| < budget && idle[i] in aged then (kept, expired + [idle[i]]) else (kept + [idle[i]], expired)
    ensures Elements(expired + [idle[i]]) == Elements(expired) + {idle[i]}
  {
    assert idle[..i + 1][..i] == idle[..i];
  }

  function Cull(p: PoolState, aged: set<ConnItem>, keepMin: int): PoolState {
    var (kept, expired) := CullSplit(p.idle, aged, |p.idle| - keepMin);
    p.(idle := kept, closed := p.closed + Elements(expired))
  }

  lemma {:induction false} CullSplits(idle: seq<ConnItem>, aged: set<ConnItem>, budget: int)
    ensures var (kept, expired) := CullSplit(idle, aged, budget);
      multiset(kept) + multiset(expired) == multiset(idle) && Elements(kept) + Elements(expired) == Elements(idle)
  {
    if idle != [] {
      var n := |idle| - 1;
      CullSplits(idle[..n], aged, budget);
      assert idle == idle[..n] + [idle[n]];
      ElementsAppend(idle[..n], idle[n]);
      var (kept, expired) := CullSplit(idle[..n], aged, budget);
      ElementsAppend(kept, idle[n]);
      ElementsAppend(expired, idle[n]);
    }
  }

  /** Culling takes connections over age only, no more than the budget, and all that are
      over age unless it has used up the budget. */
  lemma {:induction false} CullStaysInBudget(idle: seq<ConnItem>, aged: set<ConnItem>, budget: int)
    ensures var (kept, expired) := CullSplit(idle, aged, budget);
      && |kept| + |expired| == |idle| && |expired| <= Max(budget, 0)
      && (forall c :: c in expired ==> c in aged)
      && (|expired| < budget ==> forall c :: c in kept ==> c !in aged)
  {
    if idle != [] { CullStaysInBudget(idle[..|idle| - 1], aged, budget); }
  }

  /** The elements of `conns` that are, or are not, in `some`, in order. */
  function Among(conns: seq<ConnItem>, some: set<ConnItem>, wanted: bool := true): seq<ConnItem> {
    if conns == [] then []
    else
      var n := |conns| - 1;
      Among(conns[..n], some, wanted) + if (conns[n] in some) == wanted then [conns[n]] else []
  }

  /** Culling works down the list to some position j, where the budget is used up or
      the list ends: up to there it takes exactly the connections over age, and
      everything else stays in order. */
  lemma {:induction false} CullTakesFirstAged(idle: seq<ConnItem>, aged: set<ConnItem>, budget: int) returns (j: nat)
    ensures j <= |idle|
    ensures var (kept, expired) := CullSplit(idle, aged, budget);
      && expired == Among(idle[..j], aged)
      && kept == Among(idle[..j], aged, false) + idle[j..]
      && |expired| <= Max(budget, 0) && (j < |idle| ==> |expired| >= budget)
  {
    if idle == [] {
      j := 0;
    } else {
      var n := |idle| - 1;
      j := CullTakesFirstAged(idle[..n], aged, budget);
      assert idle[..n][..j] == idle[..j];
      if |CullSplit(idle[..n], aged, budget).1| < budget {
        j := |idle|;
        assert idle[..n][..n] == idle[..n] && idle[..|idle|] == idle;
      } else {
        assert idle[j..] == idle[..n][j..] + [idle[n]];
      }
    }
  }
}
