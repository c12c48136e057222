/** The connection pool itself. Every method does to the pool's fields and to the
    connections' flags exactly what the pool's value model says. */
module Pools {
  import opened Prelude
  import opened Bitmap
  import opened StreamIds
  import opened StreamManagers
  import opened Connections
  import opened PoolStates
  import opened IdleDrain
  import opened Acquisition
  import opened Heartbeats

  /** Where a connection with this score joins the idle list: before the first one
      with a lower score. */
  ghost function InsertPos(idle: seq<ConnItem>, score: int): (pos: nat)
    reads Elements(idle)`qualityScore
    ensures pos <= |idle|
    ensures forall i :: 0 <= i < pos ==> idle[i].qualityScore >= score
    ensures pos < |idle| ==> idle[pos].qualityScore < score
  {
    if idle == [] || idle[0].qualityScore < score then 0 else 1 + InsertPos(idle[1..], score)
  }

  ghost predicate SortedByQuality(idle: seq<ConnItem>)
    reads Elements(idle)`qualityScore
  {
    forall i, j :: 0 <= i < j < |idle| ==> idle[i].qualityScore >= idle[j].qualityScore
  }

  lemma InsertPosIsThere(idle: seq<ConnItem>, score: int, pos: nat)
    requires pos <= |idle|
    requires forall i :: 0 <= i < pos ==> idle[i].qualityScore >= score
    requires pos < |idle| ==> idle[pos].qualityScore < score
    ensures InsertPos(idle, score) == pos
  {
    var other := InsertPos(idle, score);
    assert other >= pos;
    assert other <= pos;
  }

  /** Releases keep a list sorted by quality sorted. */
  lemma InsertKeepsSorted(idle: seq<ConnItem>, c: ConnItem)
    requires SortedByQuality(idle)
    ensures SortedByQuality(InsertAt(idle, InsertPos(idle, c.qualityScore), c))
  {
  }

  /** Ranges over a set in some order. */
  method InSomeOrder(s: set<ConnItem>) returns (items: seq<ConnItem>)
    ensures Enumerates(items, s)
  {
    hide Enumerates;
    items := [];
    NothingEnumerated();
    var rest := s;
    assert s - rest == {};
    while rest != {}
      invariant rest <= s && Enumerates(items, s - rest)
      decreases |rest|
    {
      var c :| c in rest;
      Enumerated(items, s - rest, c);
      assert s - rest + {c} == s - (rest - {c});
      items := items + [c];
      rest := rest - {c};
    }
    assert s - {} == s;
  }

  /** Joining behind all that are at least as good keeps a list sorted. */
  lemma JoinKeepsSorted(idle: seq<ConnItem>, c: ConnItem, pos: nat)
    requires pos == InsertPos(idle, c.qualityScore)
    ensures SortedByQuality(idle) ==> SortedByQuality(idle[..pos] + [c] + idle[pos..])
  {
    if SortedByQuality(idle) {
      InsertKeepsSorted(idle, c);
    }
  }

  class ConnectionPool {
    const cfg: Config
    const defaultWindow: int
    const minWindow: int
    const maxWindow: int
    var pool: seq<ConnItem>
    var managerByConn: map<ConnItem, StreamManager>
    var targetToConn: map<string, ConnItem>
    var pendingHeartbeats: map<string, int>
    var activeConnections: int
    var pendingConnections: int
    var createdConnections: int
    var failures: int
    var closedConnections: int

    // What the flags, managers and indexes amount to; `Valid` ties these to the real fields.
    ghost var known: set<ConnItem>
    ghost var active: set<ConnItem>
    ghost var closed: set<ConnItem>
    ghost var managers: map<ConnItem, ManagerState>
    ghost var owned: set<StreamManager>

    ghost function View(): PoolState
      reads this
    {
      PoolState(known, pool, managers, targetToConn, pendingHeartbeats, active, closed,
                activeConnections, pendingConnections, createdConnections, failures, closedConnections)
    }

    /** The indexes name known connections only, and every open one has a manager. */
    ghost predicate IndexesKnown()
      reads this`known, this`closed, this`pool, this`targetToConn, this`managers, this`managerByConn
    {
      && known - closed <= managers.Keys
      && Elements(pool) <= known && (forall t :: t in targetToConn ==> targetToConn[t] in known)
      && managers.Keys == managerByConn.Keys && managerByConn.Keys <= known
    }

    ghost predicate FlagsMatch()
      reads this`known, this`active, this`closed, known`active, known`closed
    {
      && active <= known && closed <= known
      && (forall c :: c in known ==> (c.active <==> c in active) && (c.closed <==> c in closed))
    }

    /** Every manager is in order and belongs to its connection. */
    ghost predicate ManagersMatch()
      reads this`known, this`managers, this`managerByConn, this`owned, owned, known`streams, known`activeStreams
    {
      && (forall c :: c in managerByConn ==>
            var m := managerByConn[c];
            && c in known && c in managers && m in owned && m.conn == c && m.max == cfg.maxStreams
            && m.Valid() && m.View() == managers[c])
      && (forall c :: c in known && c !in managerByConn ==> c.streams == 0 && c.activeStreams == 0)
    }

    ghost predicate Valid()
      reads this, owned, known
    {
      IndexesKnown() && FlagsMatch() && ManagersMatch()
    }

    constructor (cfg: Config, defaultWindow: int, minWindow: int, maxWindow: int)
      ensures Valid() && View() == EMPTY_POOL && this.cfg == cfg
    {
      this.cfg, this.defaultWindow, this.minWindow, this.maxWindow := cfg, defaultWindow, minWindow, maxWindow;
      pool, managerByConn, targetToConn, pendingHeartbeats := [], map[], map[], map[];
      activeConnections, pendingConnections := 0, 0;
      createdConnections, failures, closedConnections := 0, 0, 0;
      known, active, closed, managers, owned := {}, {}, {}, map[], {};
    }

    // ------------------------------------------------------- the item flags

    method MarkActive(c: ConnItem)
      requires FlagsMatch() && c in known
      modifies `activeConnections, `active, c`active
      ensures FlagsMatch() && View() == SetActive(old(View()), c)
    {
      var changed := c.MarkActive();
      if changed {
        activeConnections := activeConnections + 1;
      }
      active := active + {c};
    }

    method MarkIdle(c: ConnItem)
      requires FlagsMatch() && c in known
      modifies `activeConnections, `active, c`active
      ensures FlagsMatch() && View() == ClearActive(old(View()), c)
    {
      var changed := c.MarkIdle();
      if changed {
        activeConnections := activeConnections - 1;
      }
      active := active - {c};
    }

    method MarkClosed(c: ConnItem)
      requires FlagsMatch() && c in known
      modifies `closed, c`closed
      ensures FlagsMatch() && View() == PoolStates.MarkClosed(old(View()), c)
      ensures old(IndexesKnown()) ==> IndexesKnown()
    {
      c.closed := true;
      closed := closed + {c};
    }

    // --------------------------------------------------------- the managers

    lemma ManagerIsInOrder(c: ConnItem)
      requires ManagersMatch() && c in known
      ensures c in managerByConn ==>
        var m := managerByConn[c];
        m.Valid() && m.conn == c && m.max == cfg.maxStreams && m in owned && c in managers && m.View() == managers[c]
      ensures c !in managerByConn ==> c.streams == 0 && c.activeStreams == 0
    {
    }

    lemma ManagerIsOwned(c: ConnItem)
      requires Valid() && c in managerByConn
      ensures c in known && c in managers && c in View().managers
      ensures managerByConn[c] in owned && managerByConn[c].conn == c
      ensures managerByConn[c].max == cfg.maxStreams
      ensures managerByConn[c].Valid() && managerByConn[c].View() == managers[c]
    {
      hide FlagsMatch;
    }

    /** A connection, known or new, gets its manager: nothing else changes. */
    twostate predicate OnlyManagerAdded(new c: ConnItem, new m: StreamManager)
      reads this, owned, known
    {
      && c !in old(managerByConn) && known == old(known) + {c} && owned == old(owned) + {m}
      && m.conn == c && m.max == cfg.maxStreams && m.Valid() && m.View() == FRESH
      && managerByConn == old(managerByConn)[c := m] && managers == old(managers)[c := FRESH]
      && unchanged(`pool, `targetToConn, `active, `closed)
      && unchanged(old(known)) && unchanged(old(owned))
    }

    twostate lemma NewcomerInOrder(new c: ConnItem, new m: StreamManager)
      requires old(ManagersMatch()) && OnlyManagerAdded(c, m)
      ensures ManagersMatch()
    {
      hide InOrder, Targets, Elements;
    }

    twostate lemma NewcomerIsValid(new c: ConnItem, new m: StreamManager)
      requires old(Valid()) && OnlyManagerAdded(c, m)
      requires c !in old(known) ==> !c.active && !c.closed
      ensures Valid()
    {
      hide ManagersMatch, InOrder, Targets, Elements;
      NewcomerInOrder(c, m);
    }

    method NewManager(c: ConnItem) returns (m: StreamManager)
      requires Valid() && c in known && c !in managerByConn
      modifies `managerByConn, `managers, `owned
      ensures Valid() && fresh(m)
      ensures owned == old(owned) + {m}
      ensures managerByConn == old(managerByConn)[c := m]
      ensures managers == old(managers)[c := FRESH]
    {
      hide IndexesKnown, FlagsMatch, ManagersMatch, InOrder;
      ManagerIsInOrder(c);
      m := new StreamManager(c, cfg.maxStreams, defaultWindow, minWindow, maxWindow);
      managerByConn := managerByConn[c := m];
      managers := managers[c := FRESH];
      owned := owned + {m};
      assert known == old(known) + {c};
      NewcomerIsValid(c, m);
    }

    /** The connection's stream manager, made on demand. */
    method GetManager(c: ConnItem) returns (m: StreamManager)
      requires Valid() && c in known
      modifies `managerByConn, `managers, `owned
      ensures Valid() && c in managerByConn && managerByConn[c] == m
      ensures owned == old(owned) + {m} && (m in old(owned) || fresh(m))
      ensures View() == old(View()).(managers := old(View()).managers[c := ManagerOf(old(View()), c)])
    {
      if c in managerByConn {
        m := managerByConn[c];
        assert m in owned;
      } else {
        hide ManagersMatch;
        m := NewManager(c);
      }
    }

    /** Only the manager of `c` and its stream counters have changed, and the manager is
        in order again. */
    twostate predicate OnlyManagerChanged(c: ConnItem)
      reads this, owned, known
    {
      && unchanged(`pool, `targetToConn, `known, `active, `closed, `managerByConn, `owned)
      && c in managerByConn && managerByConn[c] in owned && c in known && managerByConn[c].conn == c
      && managerByConn[c].Valid()
      && managers == old(managers)[c := managerByConn[c].View()]
      && unchanged(known`active, known`closed)
      && unchanged(owned - {managerByConn[c]})
      && unchanged((known - {c})`streams, (known - {c})`activeStreams)
    }

    twostate lemma RestStaysInOrder(c: ConnItem)
      requires old(ManagersMatch()) && OnlyManagerChanged(c)
      ensures ManagersMatch()
    {
      hide InOrder, Targets, Elements;
      forall d | d in managerByConn && d != c
        ensures managerByConn[d].Valid() && managerByConn[d].View() == managers[d] {
        var m := managerByConn[d];
        assert m.conn == d && m in owned - {managerByConn[c]};
      }
    }

    twostate lemma RestStaysValid(c: ConnItem)
      requires old(Valid()) && OnlyManagerChanged(c)
      ensures Valid()
    {
      hide ManagersMatch, InOrder, Targets, Elements;
      RestStaysInOrder(c);
    }

    method AllocateOn(c: ConnItem, target: string) returns (id: StreamId, ok: bool)
      requires Valid() && c in managerByConn
      modifies `managers, managerByConn[c], c`streams, c`activeStreams
      ensures OnlyManagerChanged(c)
      ensures managers == old(managers)[c := Allocate(old(managers)[c], cfg.maxStreams, target).0]
      ensures Allocate(old(managers)[c], cfg.maxStreams, target).1 == if ok then Some(id) else None
    {
      hide Valid, View, StreamManager.Valid, StreamManager.View, Allocate;
      ManagerIsOwned(c);
      var m := managerByConn[c];
      id, ok := m.TryAllocateStream(target);
      managers := managers[c := m.View()];
    }

    method TryAllocate(c: ConnItem, target: string) returns (id: StreamId, ok: bool)
      requires Valid() && c in managerByConn
      modifies `managers, managerByConn[c], c`streams, c`activeStreams
      ensures Valid()
      ensures View() == Tried(cfg, old(View()), c, target)
      ensures Allocate(ManagerOf(old(View()), c), cfg.maxStreams, target).1 == if ok then Some(id) else None
    {
      hide IndexesKnown, FlagsMatch, ManagersMatch, OnlyManagerChanged, Allocate;
      ManagerIsOwned(c);
      id, ok := AllocateOn(c, target);
      RestStaysValid(c);
    }

    // ------------------------------------------------ creating a connection

    /** What other threads do to the closed flags between two looks at one. */
    method Interfere(cs: set<ConnItem>)
      requires Valid() && cs <= known
      modifies `closed, known`closed
      ensures Valid() && closed == old(closed) + cs
    {
      hide IndexesKnown, FlagsMatch, ManagersMatch, Elements, Enumerates;
      var items := InSomeOrder(cs);
      NoElements();
      var i := 0;
      while i < |items|
        invariant 0 <= i <= |items|
        invariant Valid() && closed == old(closed) + Elements(items[..i])
      {
        ListElement(items, i);
        EnumeratedIsIn(items, cs, i);
        MarkClosed(items[i]);
        i := i + 1;
      }
      assert items[..|items|] == items;
      EnumeratesAll(items, cs);
    }

    method IsClosed(c: ConnItem) returns (yes: bool)
      requires FlagsMatch() && c in known
      ensures yes <==> c in closed
    {
      yes := c.closed;
    }

    /** One look at a closed flag, after others have closed what they close: any of the
        connections that have a manager, so any open one. */
    method Look(c: ConnItem) returns (isClosed: bool)
      requires Valid() && c in known
      modifies `closed, known`closed
      ensures Valid() && old(closed) <= closed && (isClosed <==> c in closed)
    {
      hide IndexesKnown, FlagsMatch, ManagersMatch;
      ManagedAreKnown();
      var cs: set<ConnItem> := *;
      Interfere(cs * managerByConn.Keys);
      isClosed := IsClosed(c);
    }

    lemma ManagedAreKnown()
      requires IndexesKnown()
      ensures managers.Keys == managerByConn.Keys <= known
    {
    }

    /** The managed connections in some order. */
    method ListManaged() returns (items: seq<ConnItem>)
      requires IndexesKnown()
      ensures Enumerates(items, managers.Keys) && managers.Keys == managerByConn.Keys <= known
    {
      items := InSomeOrder(managerByConn.Keys);
    }

    /** The first loop of the count, over the managers. */
    method CountManaged() returns (seen: set<ConnItem>)
      requires Valid()
      modifies `closed, known`closed
      ensures Valid() && old(closed) <= closed
      ensures SeenOpen(seen, managers.Keys, old(closed), closed)
    {
      hide IndexesKnown, FlagsMatch, ManagersMatch, SeenOpen, Elements, Enumerates;
      seen := {};
      NothingSeen(closed);
      NoElements();
      var items := ListManaged();
      var i := 0;
      while i < |items|
        invariant 0 <= i <= |items|
        invariant Valid() && old(closed) <= closed
        invariant SeenOpen(seen, Elements(items[..i]), old(closed), closed)
      {
        ListElement(items, i);
        EnumeratedIsIn(items, managers.Keys, i);
        ghost var after := closed;
        var isClosed := Look(items[i]);
        OneMoreSeen(seen, Elements(items[..i]), old(closed), after, closed, items[i]);
        if !isClosed {
          seen := seen + {items[i]};
        }
        i := i + 1;
      }
      assert items[..|items|] == items;
      EnumeratesAll(items, managers.Keys);
    }

    /** The second loop, over the idle list. */
    method CountIdle(managed: set<ConnItem>) returns (seen: set<ConnItem>, ghost idle: set<ConnItem>)
      requires Valid()
      modifies `closed, known`closed
      ensures Valid() && old(closed) <= closed
      ensures seen == managed + idle && SeenOpen(idle, Elements(pool), old(closed), closed)
    {
      hide IndexesKnown, FlagsMatch, ManagersMatch, SeenOpen, Elements;
      seen, idle := managed, {};
      NothingSeen(closed);
      NoElements();
      var i := 0;
      while i < |pool|
        invariant 0 <= i <= |pool|
        invariant Valid() && old(closed) <= closed
        invariant seen == managed + idle && SeenOpen(idle, Elements(pool[..i]), old(closed), closed)
      {
        var c := pool[i];
        IdleIsKnown(i);
        ListElement(pool, i);
        ghost var after := closed;
        var isClosed := Look(c);
        OneMoreSeen(idle, Elements(pool[..i]), old(closed), after, closed, c);
        if !isClosed {
          seen, idle := seen + {c}, idle + {c};
        }
        i := i + 1;
      }
      assert pool[..|pool|] == pool;
    }

    /** Counts the connections that are live, looking at one flag after the other; each
        one counted was live before, and all that are live afterwards are counted. */
    method LiveConnectionCount() returns (n: nat, ghost counted: set<ConnItem>)
      requires Valid()
      modifies `closed, known`closed
      ensures Valid() && old(closed) <= closed
      ensures n == |counted| && Live(View()) <= counted <= Live(old(View()))
    {
      hide IndexesKnown, FlagsMatch, ManagersMatch, SeenOpen, Live;
      ghost var before := View();
      var managed := CountManaged();
      ghost var between := closed;
      var seen;
      ghost var idle;
      seen, idle := CountIdle(managed);
      BothSeen(before, managed, idle, between, closed);
      n, counted := |seen|, seen;
    }

    method ReserveConnectionSlot() returns (size: int, ok: bool, ghost counted: set<ConnItem>)
      requires Valid()
      modifies `pendingConnections, `closed, known`closed
      ensures Valid() && size == |counted| + old(View()).pending
      ensures Live(View()) <= counted <= Live(old(View())) && old(closed) <= closed
      ensures ok <==> |counted| + old(View()).pending < cfg.maxPool
      ensures View() == old(View()).(closed := closed, pending := old(View()).pending + if ok then 1 else 0)
    {
      hide IndexesKnown, FlagsMatch, ManagersMatch, Live;
      var live;
      live, counted := LiveConnectionCount();
      size := live + pendingConnections;
      LiveIgnoresPending(View(), pendingConnections + 1);
      if size >= cfg.maxPool {
        return size, false, counted;
      }
      pendingConnections := pendingConnections + 1;
      ok := true;
    }

    method ReleaseConnectionSlot()
      requires Valid()
      modifies `pendingConnections
      ensures Valid() && View() == old(View()).(pending := old(View()).pending - 1)
    {
      hide IndexesKnown, FlagsMatch, ManagersMatch;
      pendingConnections := pendingConnections - 1;
    }

    method AddItem(c: ConnItem) returns (m: StreamManager)
      requires c !in managerByConn && c.streams == 0 && c.activeStreams == 0
      modifies `managerByConn, `managers, `owned, `known
      ensures fresh(m) && OnlyManagerAdded(c, m)
    {
      hide InOrder;
      m := new StreamManager(c, cfg.maxStreams, defaultWindow, minWindow, maxWindow);
      known := known + {c};
      managerByConn := managerByConn[c := m];
      managers := managers[c := FRESH];
      owned := owned + {m};
    }

    /** First section of a publication. */
    method PublishManager(c: ConnItem)
      requires Valid() && c !in known && !c.active && !c.closed && c.streams == 0 && c.activeStreams == 0
      modifies `managerByConn, `managers, `owned, `known
      ensures Valid() && View() == PoolStates.PublishManager(old(View()), c)
      ensures fresh(owned - old(owned))
    {
      hide IndexesKnown, FlagsMatch, ManagersMatch;
      ManagedAreKnown();
      var m := AddItem(c);
      NewcomerIsValid(c, m);
    }

    /** Second section of a publication. */
    method PublishIdle(c: ConnItem)
      requires Valid() && c in known
      modifies `pool
      ensures Valid() && View() == PoolStates.PublishIdle(old(View()), c)
    {
      hide ManagersMatch;
      pool := pool + [c];
    }

    /** Publishes a new connection, section by section. */
    method Publish(connectionID: string, now: int) returns (c: ConnItem)
      requires Valid()
      modifies `managerByConn, `managers, `owned, `known, `pool
      ensures Valid() && fresh(owned - old(owned))
      ensures fresh(c) && c.connectionID == connectionID && c.createdAt == now
      ensures View() == PoolStates.PublishIdle(PoolStates.PublishManager(old(View()), c), c)
    {
      hide ManagersMatch;
      c := new ConnItem(connectionID, now);
      PublishManager(c);
      PublishIdle(c);
    }

    /** A creation attempt that holds a slot. */
    method Attempt(dialed: Option<string>, now: int) returns (item: Option<ConnItem>)
      requires Valid()
      modifies `createdConnections, `failures, `managerByConn, `managers, `owned, `known, `pool
      ensures Valid() && fresh(owned - old(owned))
      ensures item.Some? <==> dialed.Some?
      ensures item.Some? ==>
        fresh(item.value) && item.value.connectionID == dialed.value && item.value.createdAt == now
      ensures View() == Attempted(old(View()), item)
    {
      hide IndexesKnown, FlagsMatch, ManagersMatch;
      createdConnections := createdConnections + 1;
      if dialed.None? {
        failures := failures + 1;
        return None;
      }
      var c := Publish(dialed.value, now);
      return Some(c);
    }

    /** Creates a connection when the pool has a free slot; `dialed` is the ID of the
        connection if dialing succeeds. The slot is given back either way. */
    method CreateConnection(dialed: Option<string>, now: int)
      returns (item: Option<ConnItem>, ghost counted: set<ConnItem>)
      requires Valid()
      modifies this, known
      ensures Valid() && fresh(owned - old(owned)) && old(closed) <= closed
      ensures var p, q := old(View()), old(View()).(closed := closed);
        && Live(q) <= counted <= Live(p)
        && (item.Some? <==> |counted| + p.pending < cfg.maxPool && dialed.Some?)
        && (item.Some? ==>
              fresh(item.value) && item.value.connectionID == dialed.value && item.value.createdAt == now)
        && View() == if |counted| + p.pending < cfg.maxPool then Attempted(q, item) else q
    {
      hide IndexesKnown, FlagsMatch, ManagersMatch, Attempted, Live;
      var size, reserved;
      size, reserved, counted := ReserveConnectionSlot();
      ghost var q := old(View()).(closed := closed);
      LiveIgnoresPending(View(), q.pending);
      item := None;
      if reserved {
        item := Attempt(dialed, now);
        AttemptKeepsFlags(q, item);
        AttemptIgnoresSlot(q, item);
        ReleaseConnectionSlot();
      }
    }

    // --------------------------------------------------- serving a request

    /** Tries to open a stream, making the manager if there is none. */
    method TryOn(c: ConnItem, target: string) returns (id: StreamId, ok: bool)
      requires Valid() && c in known
      modifies `managerByConn, `managers, `owned, owned, c`streams, c`activeStreams
      ensures Valid() && fresh(owned - old(owned))
      ensures View() == Tried(cfg, old(View()), c, target)
      ensures Allocate(ManagerOf(old(View()), c), cfg.maxStreams, target).1 == if ok then Some(id) else None
    {
      hide IndexesKnown, FlagsMatch, ManagersMatch, View, ManagerOf, Tried, Allocate;
      ghost var p := View();
      var m := GetManager(c);
      TryMakesManager(cfg, p, View(), c, target);
      id, ok := TryAllocate(c, target);
    }

    /** Tries to open a stream on an idle connection, which then becomes active. */
    method TryIdle(c: ConnItem, target: string) returns (r: Option<Outcome>)
      requires Valid() && c in known
      modifies `managerByConn, `managers, `owned, `active, `activeConnections, owned, c
      ensures Valid() && fresh(owned - old(owned))
      ensures Roomy(cfg, old(View()), c) ==>
        r.Some? && GrantsOn(cfg, SetActive(old(View()), c), c, target, View(), r.value)
      ensures !Roomy(cfg, old(View()), c) && c in old(View()).managers ==> r.None? && View() == old(View())
    {
      hide IndexesKnown, FlagsMatch, ManagersMatch, View, Tried, Allocate, Roomy, GrantsOn, SetActive;
      TryMeets(cfg, View(), c, target);
      var id, ok := TryOn(c, target);
      if ok {
        MarkActive(c);
        r := Some(Granted(c, id));
      } else {
        r := None;
      }
    }

    method Pop() returns (item: ConnItem)
      requires Valid() && |pool| > 0
      modifies `pool
      ensures Valid() && item in known
      ensures pool == old(pool)[..|old(pool)| - 1] && item == old(pool)[|old(pool)| - 1]
    {
      hide ManagersMatch;
      item := pool[|pool| - 1];
      assert item in Elements(pool);
      pool := pool[..|pool| - 1];
    }

    /** Takes the last connection off the list and looks at its flag, after others have
        closed what they close. */
    method PopAndLook(cs: set<ConnItem>) returns (item: ConnItem, isClosed: bool)
      requires Valid() && |pool| > 0 && cs <= known
      modifies `pool, `closed, known`closed
      ensures Valid() && item in known && item == old(pool)[|old(pool)| - 1]
      ensures View() == old(View()).(idle := old(pool)[..|old(pool)| - 1], closed := old(closed) + cs)
      ensures isClosed <==> item in old(closed) + cs
      ensures !isClosed ==> item in View().managers
    {
      hide IndexesKnown, FlagsMatch, ManagersMatch;
      item := Pop();
      Interfere(cs);
      isClosed := IsClosed(item);
      OpenHasManager(item);
    }

    method PutBack(item: ConnItem)
      requires Valid() && item in known
      modifies `pool
      ensures Valid() && View() == old(View()).(idle := [item] + old(View()).idle)
    {
      hide ManagersMatch;
      pool := [item] + pool;
    }

    lemma OpenHasManager(c: ConnItem)
      requires IndexesKnown() && c in known
      ensures c in closed || c in managers
    {
    }

    /** One round: looks at the last connection of the idle list. */
    method DrainRound(target: string, cs: set<ConnItem>) returns (r: Option<Outcome>)
      requires Valid() && |pool| > 0 && cs <= known
      modifies this, owned, known
      ensures Valid() && fresh(owned - old(owned)) && known == old(known)
      ensures RoundUnder(cfg, old(View()), old(closed) + cs, target, View(), r)
    {
      hide IndexesKnown, FlagsMatch, ManagersMatch, RoundUnder, Roomy, GrantsOn, SetActive;
      ghost var p := View();
      var item, isClosed := PopAndLook(cs);
      if isClosed {
        r := None;
      } else {
        r := TryIdle(item, target);
        if r.None? {
          PutBack(item);
        }
      }
      RoundIs(cfg, p, old(closed) + cs, target, View(), r);
    }

    /** Takes connections from the end of the idle list until one has room, while other
        threads close connections; watched for at most `budget` rounds, because the loop
        does not always end. */
    method TakeIdle(target: string, wave: Waves, budget: nat) returns (r: Option<Outcome>, turn: nat)
      requires Valid() && Within(wave, known)
      modifies this, owned, known
      ensures Valid() && fresh(owned - old(owned)) && known == old(known)
      ensures TakesUnder(cfg, old(View()), target, wave, turn, View(), r)
      ensures r.None? && pool != [] ==> turn == budget
    {
      hide IndexesKnown, FlagsMatch, ManagersMatch, Within, GrantsOn, RoundUnder, DrainUnder, Roomy;
      ghost var p := View();
      turn := 0;
      DrainStart(cfg, p, wave);
      while |pool| > 0 && turn < budget
        invariant Valid() && fresh(owned - old(owned)) && known == old(known) && turn <= budget
        invariant View() == p.(idle := pool, closed := ClosedBy(p, wave, turn))
        invariant DrainUnder(cfg, p, p.idle, wave, turn) == Running(pool)
        decreases budget - turn
      {
        ghost var before := View();
        WaveIsWithin(wave, turn, known);
        r := DrainRound(target, wave(turn));
        RoundAdvances(cfg, p, wave, turn, before, target, View(), r);
        turn := turn + 1;
        if r.Some? {
          return;
        }
      }
      r := None;
    }

    /** Tries to open one more stream on a connection that is in use. */
    method TryManaged(c: ConnItem, target: string) returns (r: Option<Outcome>)
      requires Valid() && c in managerByConn
      modifies `managers, owned, c`streams, c`activeStreams
      ensures Valid()
      ensures Roomy(cfg, old(View()), c) ==> r.Some? && GrantsOn(cfg, old(View()), c, target, View(), r.value)
      ensures !Roomy(cfg, old(View()), c) ==> r.None? && View() == old(View())
    {
      hide IndexesKnown, FlagsMatch, ManagersMatch, View, Tried, Allocate, Roomy, GrantsOn;
      ManagerIsOwned(c);
      TryMeets(cfg, View(), c, target);
      var id, ok := TryAllocate(c, target);
      r := if ok then Some(Granted(c, id)) else None;
    }

    /** The managed connection that this target last used, if requests may share. */
    method FindAffine(target: string) returns (c: Option<ConnItem>)
      requires IndexesKnown()
      ensures c == Affine(cfg, View(), target)
      ensures c.Some? ==> c.value in managerByConn && c.value in known
    {
      c := None;
      if target != "" && cfg.multiplex && target in targetToConn && targetToConn[target] in managerByConn {
        c := Some(targetToConn[target]);
      }
    }

    method TryAffinity(target: string) returns (r: Option<Outcome>)
      requires Valid()
      modifies `closed, `managers, owned, known
      ensures Valid() && old(closed) <= closed
      ensures var q := old(View()).(closed := closed);
        && (AffinityHit(cfg, q, target) ==> r.Some? && GrantsOn(cfg, q, q.targets[target], target, View(), r.value))
        && (!AffinityHit(cfg, q, target) ==> r.None? && View() == q)
    {
      hide IndexesKnown, ManagersMatch, FlagsMatch, GrantsOn, Roomy, Affine, AffinityHit;
      var affine := FindAffine(target);
      r := None;
      AffinityIs(cfg, View(), target);
      if affine.Some? {
        var isClosed := Look(affine.value);
        AffinityIs(cfg, View(), target);
        AffineIgnoresFlags(cfg, old(View()), closed, target);
        if !isClosed {
          r := TryManaged(affine.value, target);
        }
      }
    }

    method StreamCount(c: ConnItem) returns (n: nat)
      requires Valid() && c in managerByConn
      ensures c in managers && n == |managers[c].streams|
    {
      n := managerByConn[c].GetStreamCount();
    }

    /** Finds a connection with the fewest streams of those seen open, among those not
        above the limit. */
    method FindLeastLoaded() returns (best: Option<ConnItem>, minStreams: int, ghost open: set<ConnItem>)
      requires Valid()
      modifies `closed, known`closed
      ensures Valid() && old(closed) <= closed
      ensures SeenOpen(open, managers.Keys, old(closed), closed)
      ensures IsLeast(managers, open, cfg.maxStreams, best, minStreams)
    {
      hide IndexesKnown, FlagsMatch, ManagersMatch, SeenOpen, IsLeast, Elements, Enumerates;
      best, minStreams, open := None, cfg.maxStreams + 1, {};
      NothingSeen(closed);
      NothingIsLeast(managers, cfg.maxStreams);
      NoElements();
      var items := ListManaged();
      var i := 0;
      while i < |items|
        invariant 0 <= i <= |items|
        invariant Valid() && old(closed) <= closed
        invariant SeenOpen(open, Elements(items[..i]), old(closed), closed)
        invariant IsLeast(managers, open, cfg.maxStreams, best, minStreams)
      {
        var c := items[i];
        ListElement(items, i);
        EnumeratedIsIn(items, managers.Keys, i);
        ghost var after := closed;
        var isClosed := Look(c);
        OneMoreSeen(open, Elements(items[..i]), old(closed), after, closed, c);
        if !isClosed {
          var streamCount := StreamCount(c);
          OneMoreIsLeast(managers, open, cfg.maxStreams, best, minStreams, c);
          open := open + {c};
          if streamCount < minStreams {
            best, minStreams := Some(c), streamCount;
          }
        }
        i := i + 1;
      }
      assert items[..|items|] == items;
      EnumeratesAll(items, managers.Keys);
    }

    method TryShare(target: string) returns (r: Option<Outcome>, ghost open: set<ConnItem>)
      requires Valid()
      modifies `closed, `managers, owned, known
      ensures Valid() && old(closed) <= closed
      ensures SeenOpen(open, old(managers).Keys, old(closed), closed)
      ensures SharesUnder(cfg, old(View()).(closed := closed), target, open, View(), r)
      ensures r.None? ==> View() == old(View()).(closed := closed)
    {
      hide IndexesKnown, FlagsMatch, ManagersMatch, SeenOpen, IsLeast, GrantsOn, SharesUnder, Roomy;
      r, open := None, managers.Keys - closed;
      AllSeen(managers.Keys, closed);
      NothingShared(cfg, View(), target, open);
      if cfg.multiplex {
        var best, minStreams;
        best, minStreams, open := FindLeastLoaded();
        ghost var q := View();
        LeastIsKnown(managers, open, cfg.maxStreams, best, minStreams);
        ManagedAreKnown();
        if best.Some? && minStreams < cfg.maxStreams {
          r := TryManaged(best.value, target);
        }
        SharesLeast(cfg, q, target, open, best, minStreams, View(), r);
      }
    }

    /** One pass of a request through the pool, under the pool's lock, while other threads
        close connections; `done` is false if its drain loop has not ended after `budget`
        rounds. `sight` is what the pass saw of the closed flags. */
    method AcquirePass(target: string, wave: Waves, budget: nat)
      returns (done: bool, r: Outcome, ghost sight: Sight)
      requires Valid() && Within(wave, known)
      modifies this, owned, known
      ensures Valid() && fresh(owned - old(owned)) && known == old(known)
      ensures done ==> PassUnder(cfg, old(View()), target, sight, View(), r)
      ensures !done ==> !Ended(DrainUnder(cfg, old(View()), old(pool), wave, budget))
    {
      hide IndexesKnown, FlagsMatch, ManagersMatch, Within, TakesUnder, GrantsOn, AffinityHit, SharesUnder,
        SeenOpen, RestUnder, Live, Ended, DrainUnder, ClosedBy;
      ghost var p := View();
      var got, turn := TakeIdle(target, wave, budget);
      sight := Sight(wave, turn, {}, {}, {});
      if got.Some? {
        TakeIsPass(cfg, p, target, sight, View(), got);
        return true, got.value, sight;
      }
      DrainTells(cfg, p, target, wave, turn, View());
      if |pool| > 0 {
        return false, PoolFull, sight;
      }
      sight, r := Rest(target, p, sight);
      done := true;
    }

    /** The rest of a pass, once its drain loop has emptied the idle list. */
    method Rest(target: string, ghost p: PoolState, ghost drained: Sight) returns (ghost sight: Sight, r: Outcome)
      requires Valid() && Emptied(cfg, p, drained)
      requires View() == p.(idle := [], closed := ClosedBy(p, drained.wave, drained.rounds))
      modifies `closed, `managers, owned, known
      ensures Valid()
      ensures PassUnder(cfg, p, target, sight, View(), r)
      ensures sight.wave == drained.wave && sight.rounds == drained.rounds
    {
      hide IndexesKnown, FlagsMatch, ManagersMatch, DrainUnder, ClosedBy, PassUnder, GrantsOn, AffinityHit,
        SharesUnder, SeenOpen, Live;
      var got := TryAffinity(target);
      sight := drained.(asked := closed);
      if got.Some? {
        AffinityIsPass(cfg, p, target, sight, View(), got);
        return sight, got.value;
      }
      ghost var open;
      got, open := TryShare(target);
      sight := sight.(open := open);
      if got.Some? {
        ShareIsPass(cfg, p, target, sight, View(), got);
        return sight, got.value;
      }
      ghost var q := View();
      var live;
      ghost var counted;
      live, counted := LiveConnectionCount();
      sight := sight.(counted := counted);
      r := if live + pendingConnections >= cfg.maxPool then PoolFull else WaitForNew(pendingConnections == 0);
      CountIsPass(cfg, p, target, sight, q, View(), r);
    }

    // --------------------------------------------- giving connections back

    /** Puts a connection into the idle list, before those of lower quality. */
    method InsertByQuality(item: ConnItem)
      requires IndexesKnown() && item in known
      modifies `pool
      ensures IndexesKnown()
      ensures pool == InsertAt(old(pool), InsertPos(old(pool), item.qualityScore), item)
    {
      var insertPos := 0;
      while insertPos < |pool| && pool[insertPos].qualityScore >= item.qualityScore
        invariant 0 <= insertPos <= |pool|
        invariant forall i :: 0 <= i < insertPos ==> pool[i].qualityScore >= item.qualityScore
      {
        insertPos := insertPos + 1;
      }
      InsertPosIsThere(pool, item.qualityScore, insertPos);
      pool := pool[..insertPos] + [item] + pool[insertPos..];
    }

    /** The number of streams on a connection, zero if it has no manager. */
    method StreamsOn(item: ConnItem) returns (n: nat)
      requires Valid()
      ensures n == |ManagerOf(View(), item).streams|
    {
      n := 0;
      if item in managerByConn {
        n := StreamCount(item);
      }
    }

    method Rejoin(item: ConnItem)
      requires IndexesKnown() && FlagsMatch() && item in known
      modifies `pool
      ensures IndexesKnown()
      ensures pool == if item in closed || item in old(pool) then old(pool)
                      else InsertAt(old(pool), InsertPos(old(pool), item.qualityScore), item)
    {
      hide IndexesKnown, InsertPos, InsertAt, Elements;
      if !item.closed && item !in pool {
        InsertByQuality(item);
      }
    }

    method GiveBack(item: ConnItem)
      requires Valid() && item in known
      modifies `activeConnections, `active, `pool, item`active
      ensures Valid()
      ensures View() == ReleaseAt(old(View()), item, old(InsertPos(pool, item.qualityScore)))
    {
      hide ManagersMatch, IndexesKnown, FlagsMatch, InsertPos, InsertAt, Elements;
      var streamCount := StreamsOn(item);
      if streamCount == 0 {
        MarkIdle(item);
        Rejoin(item);
      }
    }

    /** Gives a connection back. With streams it stays as it is; without, it is idle from now
        on, and unless it is closed or listed it joins the idle list behind all that are at
        least as good, so that the list stays sorted. */
    method ReleaseConnection(item: ConnItem) returns (ghost pos: nat)
      requires Valid() && item in known
      modifies `activeConnections, `active, `pool, item`active
      ensures Valid() && pos <= |old(pool)| && View() == ReleaseAt(old(View()), item, pos)
      ensures old(forall i :: 0 <= i < pos ==> pool[i].qualityScore >= item.qualityScore)
      ensures old(pos < |pool| ==> pool[pos].qualityScore < item.qualityScore)
      ensures var busy := |ManagerOf(old(View()), item).streams| > 0;
        && active == (if busy then old(active) else old(active) - {item})
        && pool == if busy || item in closed || item in old(pool) then old(pool)
                   else old(pool)[..pos] + [item] + old(pool)[pos..]
      ensures old(SortedByQuality(pool)) ==> SortedByQuality(pool)
    {
      hide Valid, IndexesKnown, FlagsMatch, ManagersMatch, InsertPos, ManagerOf, ReleaseAt;
      pos := InsertPos(pool, item.qualityScore);
      ReleaseIs(View(), item, pos);
      JoinKeepsSorted(pool, item, pos);
      GiveBack(item);
    }

    method SetTarget(target: string, item: ConnItem)
      requires IndexesKnown() && item in known
      modifies `targetToConn
      ensures IndexesKnown() && targetToConn == old(targetToConn)[target := item]
    {
      targetToConn := targetToConn[target := item];
    }

    method RegisterStreamHandler(item: ConnItem, target: string)
      requires Valid() && item in known
      modifies `managerByConn, `managers, `owned, `targetToConn
      ensures Valid() && fresh(owned - old(owned))
      ensures View() == Register(cfg, old(View()), item, target)
    {
      hide ManagersMatch, FlagsMatch, IndexesKnown;
      var m := GetManager(item);
      assert managers == if item in old(managers) then old(managers) else old(managers)[item := FRESH];
      if target != "" && cfg.multiplex {
        SetTarget(target, item);
      }
    }

    method ReleaseOn(c: ConnItem, id: StreamId) returns (target: string, isEmpty: bool)
      requires Valid() && c in managerByConn
      modifies `managers, managerByConn[c], c`streams, c`activeStreams
      ensures OnlyManagerChanged(c)
      ensures managers == old(managers)[c := StreamIds.Release(old(managers)[c], id)]
      ensures target == if id in old(managers)[c].streams then old(managers)[c].streams[id] else ""
      ensures isEmpty <==> managers[c].streams == map[]
    {
      hide Valid, View, StreamManager.Valid, StreamManager.View, StreamIds.Release;
      ManagerIsOwned(c);
      var m := managerByConn[c];
      target, isEmpty := m.UnregisterStream(id);
      managers := managers[c := m.View()];
    }

    method UnregisterOn(c: ConnItem, id: StreamId) returns (target: string, isEmpty: bool)
      requires Valid() && c in managerByConn
      modifies `managers, managerByConn[c], c`streams, c`activeStreams
      ensures Valid() && c in managers
      ensures managers == old(managers)[c := StreamIds.Release(ManagerOf(old(View()), c), id)]
      ensures target == TargetOf(old(View()), c, id)
      ensures isEmpty <==> managers[c].streams == map[]
    {
      hide IndexesKnown, FlagsMatch, ManagersMatch, OnlyManagerChanged, StreamIds.Release;
      ManagerIsOwned(c);
      target, isEmpty := ReleaseOn(c, id);
      RestStaysValid(c);
    }

    method DropTarget(target: string)
      requires Valid()
      modifies `targetToConn
      ensures Valid() && targetToConn == old(targetToConn) - {target}
    {
      hide FlagsMatch, ManagersMatch;
      targetToConn := targetToConn - {target};
    }

    /** Frees the ID of a stream, and forgets the target of the last one on a connection. */
    method UnregisterStreamHandler(item: ConnItem, id: StreamId) returns (target: string, isEmpty: bool)
      requires Valid() && item in known
      modifies `managers, `targetToConn, owned, known
      ensures Valid() && View() == Unregister(old(View()), item, id)
      ensures View().managers - {item} == old(View()).managers - {item}
      ensures item in old(View()).managers ==> item in View().managers
      ensures item in old(View()).managers ==>
        id !in View().managers[item].streams && View().managers[item].hint == old(View()).managers[item].hint
      ensures item in old(View()).managers ==>
        View().managers[item].streams == old(View()).managers[item].streams - {id}
      ensures target == TargetOf(old(View()), item, id)
      ensures isEmpty <==> ManagerOf(View(), item).streams == map[]
    {
      hide IndexesKnown, ManagersMatch, FlagsMatch, View, Unregister, TargetOf, ManagerOf;
      UnregisterFrees(View(), item, id);
      target, isEmpty := UnregisterAndForget(item, id);
    }

    method UnregisterAndForget(item: ConnItem, id: StreamId) returns (target: string, isEmpty: bool)
      requires Valid() && item in known
      modifies `managers, `targetToConn, owned, known
      ensures Valid() && View() == Unregister(old(View()), item, id)
      ensures target == TargetOf(old(View()), item, id)
      ensures isEmpty <==> ManagerOf(View(), item).streams == map[]
    {
      hide IndexesKnown, ManagersMatch, FlagsMatch, StreamIds.Release;
      if item !in managerByConn {
        ManagedAreKnown();
        return "", true;
      }
      ManagerIsOwned(item);
      target, isEmpty := UnregisterOn(item, id);
      if isEmpty && target != "" {
        DropTarget(target);
      }
    }

    // -------------------------------------------------- closing connections

    method RemoveFromPool(item: ConnItem) returns (removed: bool)
      requires IndexesKnown()
      modifies `pool
      ensures IndexesKnown()
      ensures pool == RemoveFirst(old(pool), item) && (removed <==> item in old(pool))
    {
      var i := 0;
      while i < |pool|
        invariant 0 <= i <= |pool| && pool == old(pool)
        invariant item !in pool[..i]
      {
        if pool[i] == item {
          RemoveFirstAt(pool, item, i);
          RemoveFirstKnown(pool, item);
          pool := pool[..i] + pool[i + 1..];
          return true;
        }
        i := i + 1;
      }
      RemoveAbsent(pool, item);
      removed := false;
    }

    method RemoveTargets(item: ConnItem)
      requires IndexesKnown()
      modifies `targetToConn
      ensures IndexesKnown()
      ensures targetToConn == WithoutTargetsOf(old(targetToConn), item)
    {
      var rest := targetToConn.Keys;
      while rest != {}
        invariant rest <= old(targetToConn).Keys
        invariant forall t :: t in targetToConn <==>
          t in old(targetToConn) && (t in rest || old(targetToConn)[t] != item)
        invariant forall t :: t in targetToConn ==> targetToConn[t] == old(targetToConn)[t]
        decreases |rest|
      {
        var t :| t in rest;
        if targetToConn[t] == item {
          targetToConn := targetToConn - {t};
        }
        rest := rest - {t};
      }
    }

    method RemoveManager(item: ConnItem) returns (removed: Option<StreamManager>)
      requires IndexesKnown() && item in closed
      modifies `managerByConn, `managers
      ensures IndexesKnown()
      ensures managerByConn == old(managerByConn) - {item} && managers == old(managers) - {item}
      ensures removed == if item in old(managerByConn) then Some(old(managerByConn)[item]) else None
    {
      removed := None;
      if item in managerByConn {
        removed := Some(managerByConn[item]);
      }
      managerByConn := managerByConn - {item};
      managers := managers - {item};
    }

    /** The section that takes a connection out of every index. */
    method DetachItem(item: ConnItem) returns (removed: bool, m: Option<StreamManager>)
      requires IndexesKnown() && item in closed
      modifies `pool, `managerByConn, `managers, `targetToConn, `pendingHeartbeats
      ensures IndexesKnown() && View() == Detach(old(View()), item)
      ensures removed <==> Indexed(old(View()), item)
      ensures managerByConn == old(managerByConn) - {item} && managers == old(managers) - {item}
      ensures m == if item in old(managerByConn) then Some(old(managerByConn)[item]) else None
    {
      hide IndexesKnown, RemoveFirst, WithoutTargetsOf, Elements;
      removed := RemoveFromPool(item);
      m := RemoveManager(item);
      removed := removed || m.Some?;
      RemoveTargets(item);
      pendingHeartbeats := pendingHeartbeats - {item.connectionID};
    }

    /** Only the manager of `c` has gone, and the connection counts no streams. */
    twostate predicate OnlyManagerDropped(c: ConnItem)
      reads this, owned, known
    {
      && unchanged(`known, `owned) && c in known
      && managerByConn == old(managerByConn) - {c} && managers == old(managers) - {c}
      && c.streams == 0 && c.activeStreams == 0
      && unchanged((known - {c})`streams, (known - {c})`activeStreams)
      && unchanged(set m | m in owned && !(c in old(managerByConn) && m == old(managerByConn)[c]))
    }

    twostate lemma RestStillMatches(c: ConnItem)
      requires old(ManagersMatch()) && OnlyManagerDropped(c)
      ensures ManagersMatch()
    {
      forall d | d in managerByConn ensures managerByConn[d].Valid() && managerByConn[d].View() == managers[d] {
        var m := managerByConn[d];
        assert m.conn == d && m in owned;
      }
    }

    /** Everything in a close but the connection's streams. */
    method CloseItem(item: ConnItem) returns (m: Option<StreamManager>)
      requires IndexesKnown() && FlagsMatch() && item in known
      modifies `pool, `managerByConn, `managers, `targetToConn, `pendingHeartbeats
      modifies `active, `activeConnections, `closed, `closedConnections, item`active, item`closed
      ensures IndexesKnown() && FlagsMatch() && View() == Close(old(View()), item)
      ensures managerByConn == old(managerByConn) - {item} && managers == old(managers) - {item}
      ensures m == if item in old(managerByConn) then Some(old(managerByConn)[item]) else None
    {
      hide IndexesKnown, FlagsMatch, Detach, Indexed;
      MarkClosed(item);
      var removed;
      removed, m := DetachItem(item);
      MarkIdle(item);
      if removed {
        closedConnections := closedConnections + 1;
      }
    }

    /** Closes a connection: out of every index first, then the flag and the statistics,
        then its streams, whose close callbacks may unregister what they like. */
    method HandleConnectionClose(item: ConnItem, callbacks: seq<StreamId>)
      requires Valid() && item in known
      modifies this, owned, item
      ensures Valid() && View() == Close(old(View()), item)
      ensures known == old(known) && owned == old(owned)
    {
      hide IndexesKnown, FlagsMatch, ManagersMatch, Close, InOrder;
      ManagerIsInOrder(item);
      var m := CloseItem(item);
      if m.Some? {
        m.value.HandleConnectionClose(callbacks);
      }
      assert OnlyManagerDropped(item);
      RestStillMatches(item);
    }

    method RetireConnection(item: ConnItem)
      requires Valid() && item in known
      modifies this, owned, item
      ensures Valid() && View() == Close(old(View()), item)
      ensures known == old(known) && owned == old(owned)
    {
      hide IndexesKnown, FlagsMatch, ManagersMatch, Close;
      MarkClosed(item);
      MarkClosedFirst(old(View()), item);
      var callbacks: seq<StreamId> := *;
      HandleConnectionClose(item, callbacks);
    }

    method RetireAll(items: seq<ConnItem>)
      requires Valid() && Elements(items) <= known
      modifies this, owned, known
      ensures Valid() && View() == CloseAll(old(View()), items)
      ensures known == old(known) && owned == old(owned)
    {
      hide IndexesKnown, FlagsMatch, ManagersMatch, Close;
      var i := 0;
      while i < |items|
        invariant 0 <= i <= |items|
        invariant Valid() && known == old(known) && owned == old(owned)
        invariant View() == CloseAll(old(View()), items[..i])
      {
        assert items[i] in Elements(items);
        assert items[..i + 1][..i] == items[..i];
        RetireConnection(items[i]);
        i := i + 1;
      }
      assert items[..|items|] == items;
    }

    /** Closes every connection that has a manager. */
    method Reconnect() returns (items: seq<ConnItem>)
      requires Valid()
      modifies this, owned, known
      ensures Valid() && Enumerates(items, old(managers).Keys)
      ensures View() == CloseAll(old(View()), items) && View().managers == map[]
    {
      items := ListManaged();
      RetireAll(items);
      CloseAllDropsManagers(old(View()), items);
    }

    // ---------------------------------------------------------- maintenance

    /** What one connection adds to a heartbeat pass. */
    method BeatItem(item: ConnItem, now: int, ghost before: Beat) returns (ping: bool, timedOut: bool)
      requires FlagsMatch() && item in known && before.pending == pendingHeartbeats
      modifies `pendingHeartbeats
      ensures BeatOne(old(View()), cfg.heartbeatTimeout, now, before, item) ==
        Beat(pendingHeartbeats, before.pings + if ping then [item] else [],
             before.timeouts + if timedOut then [item] else [])
    {
      ping, timedOut := false, false;
      if !item.closed {
        if item.connectionID in pendingHeartbeats {
          if now - pendingHeartbeats[item.connectionID] > cfg.heartbeatTimeout {
            pendingHeartbeats := pendingHeartbeats - {item.connectionID};
            timedOut := true;
          }
        } else {
          pendingHeartbeats := pendingHeartbeats[item.connectionID := now];
          ping := true;
        }
      }
    }

    /** The part of a heartbeat pass under the pool's lock. */
    method HeartbeatPass(now: int) returns (pings: seq<ConnItem>, timeouts: seq<ConnItem>, ghost order: seq<ConnItem>)
      requires Valid()
      modifies `pendingHeartbeats
      ensures Valid() && Enumerates(order, managers.Keys) && managers.Keys <= known
      ensures BeatAll(old(View()), cfg.heartbeatTimeout, now, order) == Beat(pendingHeartbeats, pings, timeouts)
    {
      hide IndexesKnown, ManagersMatch, FlagsMatch, BeatOne;
      var items := ListManaged();
      pings, timeouts, order := [], [], items;
      ghost var p := View();
      var i := 0;
      while i < |items|
        invariant 0 <= i <= |items| && Valid()
        invariant BeatAll(p, cfg.heartbeatTimeout, now, items[..i]) == Beat(pendingHeartbeats, pings, timeouts)
      {
        assert items[i] in Elements(items);
        assert items[..i + 1] == items[..i] + [items[i]];
        BeatNext(p, cfg.heartbeatTimeout, now, items[..i], items[i]);
        BeatIgnoresPings(p, View(), cfg.heartbeatTimeout, now, Beat(pendingHeartbeats, pings, timeouts), items[i]);
        var ping, timedOut := BeatItem(items[i], now, Beat(pendingHeartbeats, pings, timeouts));
        if ping {
          pings := pings + [items[i]];
        }
        if timedOut {
          timeouts := timeouts + [items[i]];
        }
        i := i + 1;
      }
      assert items[..|items|] == items;
    }

    method Filter(conns: seq<ConnItem>, some: set<ConnItem>) returns (r: seq<ConnItem>)
      ensures r == Among(conns, some)
    {
      r := [];
      var i := 0;
      while i < |conns|
        invariant 0 <= i <= |conns| && r == Among(conns[..i], some)
      {
        assert conns[..i + 1][..i] == conns[..i];
        if conns[i] in some {
          r := r + [conns[i]];
        }
        i := i + 1;
      }
      assert conns[..|conns|] == conns;
    }

    /** A heartbeat: the pass, then closing who timed out and who cannot be written to. */
    method SendHeartbeat(now: int, writeFails: set<ConnItem>) returns (ghost order: seq<ConnItem>)
      requires Valid()
      modifies this, owned, known
      ensures Valid() && Enumerates(order, old(managers).Keys)
      ensures View() == SendAll(old(View()), cfg.heartbeatTimeout, now, order, writeFails)
    {
      hide IndexesKnown, ManagersMatch, FlagsMatch, BeatAll, CloseAll, Among;
      var pings, timeouts;
      pings, timeouts, order := HeartbeatPass(now);
      BeatNamesVisited(old(View()), cfg.heartbeatTimeout, now, order);
      AmongIsAmong(pings, writeFails);
      RetireAll(timeouts);
      var failed := Filter(pings, writeFails);
      RetireAll(failed);
    }

    method AcknowledgeHeartbeat(connectionID: string) returns (wasPending: bool)
      requires Valid()
      modifies `pendingHeartbeats
      ensures Valid() && View() == Acknowledge(old(View()), connectionID)
      ensures wasPending <==> connectionID in old(View()).heartbeats
    {
      hide IndexesKnown, ManagersMatch, FlagsMatch;
      wasPending := connectionID in pendingHeartbeats;
      if wasPending {
        pendingHeartbeats := pendingHeartbeats - {connectionID};
      } else {
        assert pendingHeartbeats - {connectionID} == pendingHeartbeats;
      }
    }

    ghost function Aged(now: int, ttl: int): set<ConnItem>
      reads this`known
    {
      set c | c in known && now - c.createdAt > ttl
    }

    lemma AgedIs(c: ConnItem, now: int, ttl: int)
      requires c in known
      ensures c in Aged(now, ttl) <==> now - c.createdAt > ttl
    {
    }

    lemma AgeTells(kept: seq<ConnItem>, expired: seq<ConnItem>, now: int, ttl: int, spent: bool)
      requires Elements(kept) <= known && Elements(expired) <= known * closed
      requires forall c :: c in expired ==> c in Aged(now, ttl)
      requires spent || forall c :: c in kept ==> c !in Aged(now, ttl)
      ensures forall c :: c in expired ==> c in closed && now - c.createdAt > ttl
      ensures spent || forall c :: c in kept ==> now - c.createdAt <= ttl
    {
      forall c | c in expired ensures c in closed && now - c.createdAt > ttl {
        assert c in Elements(expired);
      }
      forall c | c in kept && !spent ensures now - c.createdAt <= ttl {
        assert c in Elements(kept);
      }
    }

    /** Goes down the idle list, marks those closed that are over age, and leaves at least
        `keepMin` connections. */
    method MarkAged(now: int, ttl: int, keepMin: int) returns (newPool: seq<ConnItem>, expired: seq<ConnItem>)
      requires Valid()
      modifies `closed, known`closed
      ensures Valid() && CullSplit(pool, Aged(now, ttl), |pool| - keepMin) == (newPool, expired)
      ensures View() == old(View()).(closed := old(closed) + Elements(expired))
    {
      hide IndexesKnown, ManagersMatch, FlagsMatch, CullSplit, Elements, Aged;
      newPool, expired := [], [];
      ghost var p, aged, budget := View(), Aged(now, ttl), |pool| - keepMin;
      CullNone(aged, budget);
      NoElements();
      var i := 0;
      while i < |pool|
        invariant 0 <= i <= |pool| && Valid()
        invariant CullSplit(pool[..i], aged, budget) == (newPool, expired)
        invariant View() == p.(closed := p.closed + Elements(expired))
      {
        var item := pool[i];
        CullStep(pool, aged, budget, i, newPool, expired);
        IdleIsKnown(i);
        AgedIs(item, now, ttl);
        if |expired| < |pool| - keepMin && now - item.createdAt > ttl {
          MarkClosed(item);
          expired := expired + [item];
        } else {
          newPool := newPool + [item];
        }
        i := i + 1;
      }
      assert pool[..|pool|] == pool;
    }

    /** Drops idle connections over age, oldest entries of the list first. */
    method CullOldConnections(now: int, ttl: int, keepMin: int) returns (expired: seq<ConnItem>)
      requires Valid()
      modifies `pool, `closed, known`closed
      ensures Valid() && View() == Cull(old(View()), Aged(now, ttl), keepMin)
      ensures expired == CullSplit(old(pool), Aged(now, ttl), |old(pool)| - keepMin).1
      ensures forall c :: c in expired ==> c in closed && now - c.createdAt > ttl
      ensures |pool| == |old(pool)| - |expired| >= Min(keepMin, |old(pool)|)
      ensures |pool| > keepMin ==> forall c :: c in pool ==> now - c.createdAt <= ttl
    {
      hide IndexesKnown, ManagersMatch, FlagsMatch, CullSplit, Elements, Aged;
      var newPool;
      newPool, expired := MarkAged(now, ttl, keepMin);
      CullStaysInBudget(pool, Aged(now, ttl), |pool| - keepMin);
      CullSplits(pool, Aged(now, ttl), |pool| - keepMin);
      ListIsKnown();
      AgeTells(newPool, expired, now, ttl, |expired| >= |pool| - keepMin);
      Keep(newPool);
    }

    lemma IdleIsKnown(i: nat)
      requires IndexesKnown() && i < |pool|
      ensures pool[i] in known
    {
      assert pool[i] in Elements(pool);
    }

    lemma ListIsKnown()
      requires IndexesKnown()
      ensures Elements(pool) <= known
    {
    }

    method Keep(newPool: seq<ConnItem>)
      requires IndexesKnown() && Elements(newPool) <= known
      modifies `pool
      ensures IndexesKnown() && pool == newPool
    {
      pool := newPool;
    }
  }
}
