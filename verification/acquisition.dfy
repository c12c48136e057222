/** One pass of the request path: take an idle connection, else the affine one,
    else the least loaded one, else refuse or wait for a new connection. */
module Acquisition {
  import opened Prelude
  import opened Bitmap
  import opened StreamIds
  import opened Connections
  import opened PoolStates
  import opened IdleDrain

  datatype Outcome =
    | Granted(conn: ConnItem, id: StreamId)
    | PoolFull
    | WaitForNew(createOne: bool)

  ghost predicate GrantsOn(cfg: Config, p: PoolState, c: ConnItem, target: string, p': PoolState, r: Outcome) {
    var (m, id) := Allocate(ManagerOf(p, c), cfg.maxStreams, target);
    && id.Some?
    && r == Granted(c, id.value)
    && p' == p.(managers := p.managers[c := m])
  }

  /** The pool after a try to open a stream on this connection. */
  ghost function Tried(cfg: Config, p: PoolState, c: ConnItem, target: string): PoolState {
    p.(managers := p.managers[c := Allocate(ManagerOf(p, c), cfg.maxStreams, target).0])
  }

  lemma TryMeets(cfg: Config, p: PoolState, c: ConnItem, target: string)
    ensures var id := Allocate(ManagerOf(p, c), cfg.maxStreams, target).1;
      && (Roomy(cfg, p, c) <==> id.Some?)
      && (id.Some? ==> GrantsOn(cfg, p, c, target, Tried(cfg, p, c, target), Granted(c, id.value)))
      && (id.Some? ==>
            GrantsOn(cfg, SetActive(p, c), c, target, SetActive(Tried(cfg, p, c, target), c), Granted(c, id.value)))
    ensures !Roomy(cfg, p, c) && c in p.managers ==> Tried(cfg, p, c, target) == p
  {
    AllocateIsComplete(ManagerOf(p, c), cfg.maxStreams, target);
    hide Allocate;
  }

  /** Making the manager first makes no difference. */
  lemma TryMakesManager(cfg: Config, p: PoolState, q: PoolState, c: ConnItem, target: string)
    requires q == p.(managers := p.managers[c := ManagerOf(p, c)])
    ensures ManagerOf(q, c) == ManagerOf(p, c) && Tried(cfg, q, c, target) == Tried(cfg, p, c, target)
  {
    hide Allocate;
    assert q.managers[c := Allocate(ManagerOf(p, c), cfg.maxStreams, target).0] ==
           p.managers[c := Allocate(ManagerOf(p, c), cfg.maxStreams, target).0];
  }

  /** What the drain loop at the start of a pass leads to. */
  ghost predicate DrainGrants(cfg: Config, p: PoolState, target: string, p': PoolState, r: Option<Outcome>) {
    var k := LastTakeable(cfg, p, p.idle);
    if k >= 0 then
      var q := SetActive(p.(idle := Remainder(p, p.idle, k)), p.idle[k]);
      r.Some? && GrantsOn(cfg, q, p.idle[k], target, p', r.value)
    else
      r.None? && p' == p.(idle := [])
  }

  predicate AffinityHit(cfg: Config, p: PoolState, target: string) {
    && target != "" && cfg.multiplex
    && target in p.targets && p.targets[target] in p.managers
    && Takeable(cfg, p, p.targets[target])
  }

  function Affine(cfg: Config, p: PoolState, target: string): Option<ConnItem> {
    if target != "" && cfg.multiplex && target in p.targets && p.targets[target] in p.managers
    then Some(p.targets[target]) else None
  }

  lemma AffinityIs(cfg: Config, p: PoolState, target: string)
    ensures AffinityHit(cfg, p, target) <==>
      var c := Affine(cfg, p, target); c.Some? && c.value !in p.closed && Roomy(cfg, p, c.value)
    ensures AffinityHit(cfg, p, target) ==> target in p.targets && Affine(cfg, p, target) == Some(p.targets[target])
  {
  }

  lemma AffineIgnoresFlags(cfg: Config, p: PoolState, closed: set<ConnItem>, target: string)
    ensures Affine(cfg, p.(closed := closed), target) == Affine(cfg, p, target)
  {
  }

  ghost predicate LeastLoaded(p: PoolState, c: ConnItem) {
    && c in p.managers && c !in p.closed
    && forall d :: d in p.managers && d !in p.closed ==> |p.managers[c].streams| <= |p.managers[d].streams|
  }

  ghost predicate CanShare(cfg: Config, p: PoolState) {
    cfg.multiplex && exists c :: c in p.managers && Takeable(cfg, p, c)
  }

  /** The pass takes `p` to `p'` with outcome `r`. */
  ghost predicate Pass(cfg: Config, p: PoolState, target: string, p': PoolState, r: Outcome) {
    if LastTakeable(cfg, p, p.idle) >= 0 then
      DrainGrants(cfg, p, target, p', Some(r))
    else
      var q := p.(idle := []);
      if AffinityHit(cfg, q, target) then
        GrantsOn(cfg, q, q.targets[target], target, p', r)
      else if CanShare(cfg, q) then
        r.Granted? && LeastLoaded(q, r.conn) && GrantsOn(cfg, q, r.conn, target, p', r)
      else
        p' == q && r == if SlotFree(cfg, q) then WaitForNew(q.pending == 0) else PoolFull
  }

  lemma OnlyClosedLeft(cfg: Config, p: PoolState)
    requires !Stuck(cfg, p, p.idle) && LastTakeable(cfg, p, p.idle) < 0
    ensures forall c :: c in p.idle ==> c in p.closed
    ensures Live(p.(idle := [])) == Live(p)
  {
    assert forall c :: c in p.idle ==> !Takeable(cfg, p, c);
  }

  /** A grant adds one fresh ID on one open connection and touches no other. */
  lemma GrantIsFresh(cfg: Config, p: PoolState, target: string, p': PoolState, r: Outcome)
    requires Pass(cfg, p, target, p', r) && r.Granted?
    ensures r.conn !in p.closed
    ensures r.id !in ManagerOf(p, r.conn).streams
    ensures r.conn in p'.managers
    ensures p'.managers[r.conn].streams == ManagerOf(p, r.conn).streams[r.id := target]
    ensures p'.managers == p.managers[r.conn := p'.managers[r.conn]]
    ensures |p'.managers[r.conn].streams| <= cfg.maxStreams
  {
    AllocateIsComplete(ManagerOf(p, r.conn), cfg.maxStreams, target);
  }

  /** Allocation is complete: a pass that grants nothing leaves no open connection
      with room for the request, and refuses only at the capacity limit. */
  lemma RefusalMeansFull(cfg: Config, p: PoolState, target: string, p': PoolState, r: Outcome)
    requires !Stuck(cfg, p, p.idle) && Pass(cfg, p, target, p', r) && !r.Granted?
    ensures forall c :: c in p.idle ==> c in p.closed
    ensures cfg.multiplex ==> forall c :: c in Live(p) ==> !Roomy(cfg, p, c)
    ensures cfg.multiplex && cfg.maxStreams <= 256 ==>
      forall c :: c in Live(p) ==> |ManagerOf(p, c).streams| >= cfg.maxStreams
    ensures r == PoolFull <==> |Live(p)| + p.pending >= cfg.maxPool
    ensures r != PoolFull ==> r == WaitForNew(p.pending == 0)
    ensures p' == p.(idle := [])
  {
    OnlyClosedLeft(cfg, p);
    var q := p.(idle := []);
    if cfg.multiplex {
      forall c | c in Live(p) ensures !Roomy(cfg, p, c) {
        assert c in q.managers && !Takeable(cfg, q, c);
      }
    }
  }

  /** A connection shared by the last step of an undisturbed pass has the fewest streams of
      all open ones. */
  lemma QuietShareIsLeast(cfg: Config, p: PoolState, target: string, p': PoolState, r: Outcome)
    requires !Stuck(cfg, p, p.idle) && Pass(cfg, p, target, p', r) && r.Granted?
    requires r.conn !in p.idle
    requires target !in p.targets || p.targets[target] != r.conn
    ensures r.conn in Live(p)
    ensures forall d :: d in Live(p) ==> |ManagerOf(p, r.conn).streams| <= |ManagerOf(p, d).streams|
  {
    OnlyClosedLeft(cfg, p);
  }

  // -------------------------------- a pass while other threads close connections

  /** What a pass saw of the closed flags: the waves of the drain loop and the rounds it
      made, the flags set when it asked for the affine connection, the managed connections
      it found open in its search, and those it counted as live. */
  datatype Sight = Sight(
    wave: Waves, rounds: nat, asked: set<ConnItem>, open: set<ConnItem>, counted: set<ConnItem>)

  /** The connection has the fewest streams of those seen open. */
  ghost predicate Fewest(p: PoolState, open: set<ConnItem>, c: ConnItem) {
    c in open && forall d :: d in open ==> |ManagerOf(p, c).streams| <= |ManagerOf(p, d).streams|
  }

  ghost predicate SomeRoomy(cfg: Config, p: PoolState, open: set<ConnItem>) {
    exists c :: c in open && Roomy(cfg, p, c)
  }

  /** The pass after its drain loop has emptied the list; `q` holds the flags set at its
      end, and each flag is seen set only if it is, and unset only if it was. */
  ghost predicate RestUnder(cfg: Config, q: PoolState, target: string, g: Sight, p': PoolState, r: Outcome) {
    if AffinityHit(cfg, q.(closed := g.asked), target) then
      GrantsOn(cfg, q, q.targets[target], target, p', r)
    else
      && q.managers.Keys - q.closed <= g.open <= q.managers.Keys - g.asked
      && if cfg.multiplex && SomeRoomy(cfg, q, g.open) then
           r.Granted? && Fewest(q, g.open, r.conn) && GrantsOn(cfg, q, r.conn, target, p', r)
         else
           && q.managers.Keys - q.closed <= g.counted <= g.open
           && p' == q
           && r == if |g.counted| + q.pending < cfg.maxPool then WaitForNew(q.pending == 0) else PoolFull
  }

  /** The pass takes `p` to `p'` with outcome `r`, while other threads close connections. */
  ghost predicate PassUnder(cfg: Config, p: PoolState, target: string, g: Sight, p': PoolState, r: Outcome) {
    var closed := ClosedBy(p, g.wave, g.rounds);
    match DrainUnder(cfg, p, p.idle, g.wave, g.rounds)
    case Took(c, rest) =>
      && closed <= p'.closed
      && GrantsOn(cfg, SetActive(p.(idle := rest, closed := p'.closed), c), c, target, p', r)
    case Running(idle) =>
      && idle == [] && closed <= g.asked <= p'.closed
      && RestUnder(cfg, p.(idle := [], closed := p'.closed), target, g, p', r)
  }

  // ------------------------------------ the loops, one look after the other

  /** One round of the drain loop, started on the pool `p`, with these flags set. */
  ghost predicate RoundUnder(
      cfg: Config, p: PoolState, closed: set<ConnItem>, target: string, p': PoolState, r: Option<Outcome>)
  {
    match DrainOnce(cfg, p, closed, Running(p.idle))
    case Running(idle) => r.None? && p' == p.(idle := idle, closed := closed)
    case Took(c, rest) =>
      r.Some? && GrantsOn(cfg, SetActive(p.(idle := rest, closed := closed), c), c, target, p', r.value)
  }

  /** A round drops its connection, or takes it, or puts it back. */
  lemma RoundIs(
      cfg: Config, p: PoolState, closed: set<ConnItem>, target: string, p': PoolState, r: Option<Outcome>)
    requires p.idle != []
    requires var c, rest := p.idle[|p.idle| - 1], p.idle[..|p.idle| - 1];
      var q := p.(idle := rest, closed := closed);
      if c in closed then r.None? && p' == q
      else if Roomy(cfg, q, c) then r.Some? && GrantsOn(cfg, SetActive(q, c), c, target, p', r.value)
      else r.None? && p' == q.(idle := [c] + rest)
    ensures RoundUnder(cfg, p, closed, target, p', r)
  {
    hide GrantsOn, SetActive;
    var c, rest := p.idle[|p.idle| - 1], p.idle[..|p.idle| - 1];
    assert Roomy(cfg, p, c) == Roomy(cfg, p.(idle := rest, closed := closed), c);
  }

  /** What the drain loop has done after n rounds. */
  ghost predicate TakesUnder(
      cfg: Config, p: PoolState, target: string, wave: Waves, n: nat, p': PoolState, r: Option<Outcome>)
  {
    var closed := ClosedBy(p, wave, n);
    match DrainUnder(cfg, p, p.idle, wave, n)
    case Running(idle) => r.None? && p' == p.(idle := idle, closed := closed)
    case Took(c, rest) =>
      r.Some? && GrantsOn(cfg, SetActive(p.(idle := rest, closed := closed), c), c, target, p', r.value)
  }

  lemma DrainStart(cfg: Config, p: PoolState, wave: Waves)
    ensures DrainUnder(cfg, p, p.idle, wave, 0) == Running(p.idle) && ClosedBy(p, wave, 0) == p.closed
  {
  }

  lemma RoundAdvances(
      cfg: Config, p: PoolState, wave: Waves, n: nat, before: PoolState, target: string, p': PoolState,
      r: Option<Outcome>)
    requires before == p.(idle := before.idle, closed := ClosedBy(p, wave, n))
    requires DrainUnder(cfg, p, p.idle, wave, n) == Running(before.idle)
    requires RoundUnder(cfg, before, ClosedBy(p, wave, n + 1), target, p', r)
    ensures TakesUnder(cfg, p, target, wave, n + 1, p', r)
    ensures r.None? ==> DrainUnder(cfg, p, p.idle, wave, n + 1) == Running(p'.idle)
  {
    hide Allocate;
    var closed := ClosedBy(p, wave, n + 1);
    assert DrainOnce(cfg, before, closed, Running(before.idle)) == DrainUnder(cfg, p, p.idle, wave, n + 1);
  }

  ghost predicate Within(wave: Waves, known: set<ConnItem>) { forall n: nat :: wave(n) <= known }

  lemma WaveIsWithin(wave: Waves, n: nat, known: set<ConnItem>)
    requires Within(wave, known)
    ensures wave(n) <= known
  {
  }

  /** Of those looked at, `seen` were found open; flags went from `before` to `after`. */
  ghost predicate SeenOpen(seen: set<ConnItem>, looked: set<ConnItem>, before: set<ConnItem>, after: set<ConnItem>) {
    looked - after <= seen <= looked - before
  }

  lemma NothingSeen(closed: set<ConnItem>)
    ensures SeenOpen({}, {}, closed, closed)
  {
  }

  lemma AllSeen(looked: set<ConnItem>, closed: set<ConnItem>)
    ensures SeenOpen(looked - closed, looked, closed, closed)
  {
  }

  lemma OneMoreSeen(
      seen: set<ConnItem>, looked: set<ConnItem>, before: set<ConnItem>, after: set<ConnItem>,
      now: set<ConnItem>, c: ConnItem)
    requires SeenOpen(seen, looked, before, after) && before <= after <= now
    ensures SeenOpen(if c in now then seen else seen + {c}, looked + {c}, before, now)
  {
  }

  lemma BothSeen(
      p: PoolState, managed: set<ConnItem>, idle: set<ConnItem>, between: set<ConnItem>, after: set<ConnItem>)
    requires SeenOpen(managed, p.managers.Keys, p.closed, between)
    requires SeenOpen(idle, Elements(p.idle), between, after)
    requires p.closed <= between <= after
    ensures Live(p.(closed := after)) <= managed + idle <= Live(p)
  {
  }

  /** The best of those looked at, if one is not above the limit. */
  ghost predicate IsLeast(
      managers: map<ConnItem, ManagerState>, open: set<ConnItem>, max: int, best: Option<ConnItem>, minStreams: int)
  {
    && open <= managers.Keys
    && (forall c :: c in open ==> |managers[c].streams| >= minStreams)
    && (best.None? ==> minStreams == max + 1)
    && (best.Some? ==> best.value in open && minStreams == |managers[best.value].streams|)
  }

  lemma NothingIsLeast(managers: map<ConnItem, ManagerState>, max: int)
    ensures IsLeast(managers, {}, max, None, max + 1)
  {
  }

  lemma OneMoreIsLeast(
      managers: map<ConnItem, ManagerState>, open: set<ConnItem>, max: int, best: Option<ConnItem>, minStreams: int,
      c: ConnItem)
    requires IsLeast(managers, open, max, best, minStreams) && c in managers
    ensures var n := |managers[c].streams|;
      if n < minStreams then IsLeast(managers, open + {c}, max, Some(c), n)
      else IsLeast(managers, open + {c}, max, best, minStreams)
  {
  }

  /** What the search for a connection to share leads to. */
  ghost predicate SharesUnder(
      cfg: Config, q: PoolState, target: string, open: set<ConnItem>, p': PoolState, r: Option<Outcome>)
  {
    if cfg.multiplex && SomeRoomy(cfg, q, open) then
      && r.Some? && r.value.Granted? && Fewest(q, open, r.value.conn)
      && GrantsOn(cfg, q, r.value.conn, target, p', r.value)
    else r.None? && p' == q
  }

  lemma NothingShared(cfg: Config, p: PoolState, target: string, open: set<ConnItem>)
    ensures !cfg.multiplex ==> SharesUnder(cfg, p, target, open, p, None)
  {
  }

  lemma LeastIsKnown(
      managers: map<ConnItem, ManagerState>, open: set<ConnItem>, max: int, best: Option<ConnItem>, minStreams: int)
    requires IsLeast(managers, open, max, best, minStreams)
    ensures best.Some? ==> best.value in managers
  {
  }

  /** A try on a minimum below the limit is all there is to try: unless all 256 IDs are
      taken everywhere, it is a roomy connection with the fewest streams. */
  lemma SharesLeast(
      cfg: Config, q: PoolState, target: string, open: set<ConnItem>, best: Option<ConnItem>, minStreams: int,
      p': PoolState, r: Option<Outcome>)
    requires cfg.multiplex && IsLeast(q.managers, open, cfg.maxStreams, best, minStreams)
    requires if best.Some? && minStreams < cfg.maxStreams && Roomy(cfg, q, best.value)
             then r.Some? && GrantsOn(cfg, q, best.value, target, p', r.value)
             else r.None? && p' == q
    ensures SharesUnder(cfg, q, target, open, p', r)
  {
    hide Allocate;
    assert best.Some? ==> Fewest(q, open, best.value);
  }

  lemma DrainTells(cfg: Config, p: PoolState, target: string, wave: Waves, n: nat, p': PoolState)
    requires TakesUnder(cfg, p, target, wave, n, p', None)
    ensures DrainUnder(cfg, p, p.idle, wave, n) == Running(p'.idle)
    ensures p' == p.(idle := p'.idle, closed := ClosedBy(p, wave, n))
    ensures Ended(DrainUnder(cfg, p, p.idle, wave, n)) <==> p'.idle == []
  {
  }

  lemma GrantKeepsFlags(cfg: Config, p: PoolState, c: ConnItem, target: string, p': PoolState, r: Outcome)
    requires GrantsOn(cfg, p, c, target, p', r)
    ensures p'.closed == p.closed && p'.idle == p.idle
  {
  }

  lemma TakeIsPass(cfg: Config, p: PoolState, target: string, g: Sight, p': PoolState, r: Option<Outcome>)
    requires r.Some? && TakesUnder(cfg, p, target, g.wave, g.rounds, p', r)
    ensures PassUnder(cfg, p, target, g, p', r.value)
  {
    hide GrantsOn;
    var d := DrainUnder(cfg, p, p.idle, g.wave, g.rounds);
    var q := SetActive(p.(idle := d.idle, closed := ClosedBy(p, g.wave, g.rounds)), d.conn);
    GrantKeepsFlags(cfg, q, d.conn, target, p', r.value);
    assert p.(idle := d.idle, closed := p'.closed) == p.(idle := d.idle, closed := ClosedBy(p, g.wave, g.rounds));
  }

  /** The drain loop has emptied the list. */
  ghost predicate Emptied(cfg: Config, p: PoolState, g: Sight) {
    DrainUnder(cfg, p, p.idle, g.wave, g.rounds) == Running([])
  }

  lemma AffinityIsPass(cfg: Config, p: PoolState, target: string, g: Sight, p': PoolState, r: Option<Outcome>)
    requires Emptied(cfg, p, g) && ClosedBy(p, g.wave, g.rounds) <= g.asked && r.Some?
    requires var q := p.(idle := [], closed := g.asked);
      AffinityHit(cfg, q, target) && GrantsOn(cfg, q, q.targets[target], target, p', r.value)
    ensures PassUnder(cfg, p, target, g, p', r.value)
  {
    hide GrantsOn, DrainUnder;
    var q := p.(idle := [], closed := g.asked);
    GrantKeepsFlags(cfg, q, q.targets[target], target, p', r.value);
    assert q.(closed := p'.closed).(closed := g.asked) == q;
  }

  lemma ShareIsPass(cfg: Config, p: PoolState, target: string, g: Sight, p': PoolState, r: Option<Outcome>)
    requires Emptied(cfg, p, g) && ClosedBy(p, g.wave, g.rounds) <= g.asked <= p'.closed && r.Some?
    requires !AffinityHit(cfg, p.(idle := [], closed := g.asked), target)
    requires SeenOpen(g.open, p.managers.Keys, g.asked, p'.closed)
    requires SharesUnder(cfg, p.(idle := [], closed := p'.closed), target, g.open, p', r)
    ensures PassUnder(cfg, p, target, g, p', r.value)
  {
    hide GrantsOn, DrainUnder, AffinityHit, SomeRoomy, Fewest;
    var q := p.(idle := [], closed := p'.closed);
    assert q.(closed := g.asked) == p.(idle := [], closed := g.asked);
  }

  lemma CountIsPass(
      cfg: Config, p: PoolState, target: string, g: Sight, q: PoolState, p': PoolState, r: Outcome)
    requires Emptied(cfg, p, g) && ClosedBy(p, g.wave, g.rounds) <= g.asked <= q.closed <= p'.closed
    requires !AffinityHit(cfg, p.(idle := [], closed := g.asked), target)
    requires SeenOpen(g.open, p.managers.Keys, g.asked, q.closed)
    requires q == p.(idle := [], closed := q.closed) && p' == q.(closed := p'.closed)
    requires SharesUnder(cfg, q, target, g.open, q, None)
    requires Live(p') <= g.counted <= Live(q)
    requires r == if |g.counted| + p'.pending >= cfg.maxPool then PoolFull else WaitForNew(p'.pending == 0)
    ensures PassUnder(cfg, p, target, g, p', r)
  {
    hide GrantsOn, DrainUnder, AffinityHit;
    assert p'.(closed := g.asked) == p.(idle := [], closed := g.asked);
    NoElements();
    assert Live(p') == p.managers.Keys - p'.closed && Live(q) == p.managers.Keys - q.closed;
    SightIgnoresFlags(cfg, q, p', g.open);
  }

  /** The entries that had been closed when their turn came. */
  function SeenClosed(p: PoolState, idle: seq<ConnItem>, wave: Waves, n: nat): set<ConnItem>
    requires n <= |idle|
  {
    if n == 0 then {}
    else
      var c := Entry(idle, n - 1);
      SeenClosed(p, idle, wave, n - 1) + if c in ClosedBy(p, wave, n) then {c} else {}
  }

  ghost predicate NoRepeats(idle: seq<ConnItem>) {
    forall i, j :: 0 <= i < j < |idle| ==> idle[i] != idle[j]
  }

  lemma {:induction false} SeenClosedIs(p: PoolState, idle: seq<ConnItem>, wave: Waves, n: nat)
    requires n <= |idle|
    ensures SeenClosed(p, idle, wave, n) <= ClosedBy(p, wave, n)
    ensures forall i :: 0 <= i < n && Entry(idle, i) in ClosedBy(p, wave, i + 1) ==>
      Entry(idle, i) in SeenClosed(p, idle, wave, n)
    ensures forall i :: 0 <= i < n && NoRepeats(idle) && Entry(idle, i) in SeenClosed(p, idle, wave, n) ==>
      Entry(idle, i) in ClosedBy(p, wave, i + 1)
    ensures forall c :: c in SeenClosed(p, idle, wave, n) ==> exists i :: 0 <= i < n && c == Entry(idle, i)
  {
    if n > 0 {
      SeenClosedIs(p, idle, wave, n - 1);
      ClosedGrows(p, wave, n - 1, n);
    }
  }

  /** What the loop put back is what is open of the entries behind, once those it saw
      closed count as closed. */
  lemma {:induction false} PutBackIsOpen(p: PoolState, p1: PoolState, idle: seq<ConnItem>, wave: Waves, n: nat)
    requires n <= |idle|
    requires forall i :: 0 <= i < n ==> (Entry(idle, i) in p1.closed <==> Entry(idle, i) in ClosedBy(p, wave, i + 1))
    ensures PutBack(p, idle, wave, n) == Open(p1, idle[|idle| - n..])
  {
    hide Open, ClosedBy;
    if n == 0 {
      OpenNothing(p1);
      assert idle[|idle|..] == [];
    } else {
      PutBackIsOpen(p, p1, idle, wave, n - 1);
      var c := Entry(idle, n - 1);
      OpenPrepend(p1, c, idle[|idle| - n + 1..]);
      assert idle[|idle| - n..] == [c] + idle[|idle| - n + 1..];
    }
  }

  /** A loop that took something did so at the first turn that could. */
  lemma TookAtFirst(cfg: Config, p: PoolState, idle: seq<ConnItem>, wave: Waves, n: nat) returns (i: nat)
    requires DrainUnder(cfg, p, idle, wave, n).Took?
    ensures i < |idle| && i < n && TakesAt(cfg, p, idle, wave, i) && NoneTakenBefore(cfg, p, idle, wave, i)
    ensures DrainUnder(cfg, p, idle, wave, n) ==
            Took(Entry(idle, i), PutBack(p, idle, wave, i) + idle[..|idle| - 1 - i])
  {
    i := FirstTaken(cfg, p, idle, wave);
    if i == |idle| || n <= i {
      if n <= |idle| {
        FirstRounds(cfg, p, idle, wave, n);
      } else {
        LaterRounds(cfg, p, idle, wave, n);
      }
      assert false;
    }
    TakesInTurn(cfg, p, idle, wave, i);
    EndIsFinal(cfg, p, idle, wave, i + 1, n);
  }

  /** Once the entries that the loop saw closed count as closed, the one it took is the
      last takeable one. */
  lemma TakenIsLast(cfg: Config, p: PoolState, idle: seq<ConnItem>, wave: Waves, i: nat)
    requires i < |idle| && TakesAt(cfg, p, idle, wave, i) && NoneTakenBefore(cfg, p, idle, wave, i)
    ensures var p1 := p.(closed := p.closed + SeenClosed(p, idle, wave, i));
      LastTakeable(cfg, p1, idle) == |idle| - 1 - i && Entry(idle, i) !in p1.closed
  {
    hide SeenClosed, LastTakeable;
    var k := |idle| - 1 - i;
    var p1 := p.(closed := p.closed + SeenClosed(p, idle, wave, i));
    SeenClosedIs(p, idle, wave, i);
    ClosedGrows(p, wave, i, i + 1);
    ClosedGrows(p, wave, 0, i + 1);
    forall j | k < j < |idle| ensures !Takeable(cfg, p1, idle[j]) {
      var turn := |idle| - 1 - j;
      assert !TakesAt(cfg, p, idle, wave, turn) && idle[j] == Entry(idle, turn);
    }
    assert Takeable(cfg, p1, idle[k]);
    LastTakeableIs(cfg, p1, idle, k);
  }

  lemma PutBackIsRemainder(p: PoolState, idle: seq<ConnItem>, wave: Waves, i: nat)
    requires i < |idle| && NoRepeats(idle)
    ensures var p1 := p.(closed := p.closed + SeenClosed(p, idle, wave, i));
      PutBack(p, idle, wave, i) + idle[..|idle| - 1 - i] == Remainder(p1, idle, |idle| - 1 - i)
  {
    hide SeenClosed, Open;
    var p1 := p.(closed := p.closed + SeenClosed(p, idle, wave, i));
    SeenClosedIs(p, idle, wave, i);
    forall j | 0 <= j < i ensures Entry(idle, j) in p1.closed <==> Entry(idle, j) in ClosedBy(p, wave, j + 1) {
      ClosedGrows(p, wave, 0, j + 1);
    }
    PutBackIsOpen(p, p1, idle, wave, i);
  }

  /** The drain loop of a granting pass, replayed without interference after those
      closes that the loop saw. */
  lemma TakeLinearizes(cfg: Config, p: PoolState, wave: Waves, n: nat) returns (before: set<ConnItem>)
    requires DrainUnder(cfg, p, p.idle, wave, n).Took?
    ensures before <= ClosedBy(p, wave, n)
    ensures var p1, d := p.(closed := p.closed + before), DrainUnder(cfg, p, p.idle, wave, n);
      var k := LastTakeable(cfg, p1, p.idle);
      && k >= 0 && d.conn == p.idle[k] && d.conn !in p1.closed
      && Elements(d.idle) <= Elements(p.idle)
      && (NoRepeats(p.idle) ==> d.idle == Remainder(p1, p.idle, k))
  {
    hide SeenClosed, LastTakeable, Remainder, PutBack, DrainUnder, TakesAt, NoneTakenBefore, Roomy;
    var i := TookAtFirst(cfg, p, p.idle, wave, n);
    before := SeenClosed(p, p.idle, wave, i);
    SeenClosedIs(p, p.idle, wave, i);
    ClosedGrows(p, wave, i, n);
    TakenIsLast(cfg, p, p.idle, wave, i);
    KeepsElements(cfg, p, p.idle, wave, n);
    if NoRepeats(p.idle) {
      PutBackIsRemainder(p, p.idle, wave, i);
    }
  }

  /** A connection shared by the last step was open when the pass started, and has no more
      streams than any connection still open at its end. */
  lemma SharedIsLeastLoaded(cfg: Config, p: PoolState, target: string, g: Sight, p': PoolState, r: Outcome)
    requires PassUnder(cfg, p, target, g, p', r) && r.Granted?
    requires r.conn !in p.idle
    requires target !in p.targets || p.targets[target] != r.conn
    ensures r.conn in p.managers && r.conn !in p.closed
    ensures forall d :: d in Live(p') ==> |ManagerOf(p, r.conn).streams| <= |ManagerOf(p, d).streams|
  {
    hide DrainUnder, Allocate, LastTakeable, Remainder, Roomy, AffinityHit;
    ClosedGrows(p, g.wave, 0, g.rounds);
    if DrainUnder(cfg, p, p.idle, g.wave, g.rounds).Took? {
      var before := TakeLinearizes(cfg, p, g.wave, g.rounds);
      assert false;
    }
    var q := p.(idle := [], closed := p'.closed);
    if AffinityHit(cfg, q.(closed := g.asked), target) {
      AffinityNames(cfg, q.(closed := g.asked), target);
      assert false;
    }
    forall d | d in Live(p') ensures |ManagerOf(p, r.conn).streams| <= |ManagerOf(p, d).streams| {
      assert d in g.open;
    }
  }

  /** A request is served by an idle connection first: if one of those listed stays open, the
      pass grants on a listed one. With sharing off it never grants on any other. */
  lemma IdleComesFirst(cfg: Config, p: PoolState, target: string, g: Sight, p': PoolState, r: Outcome)
    requires PassUnder(cfg, p, target, g, p', r)
    ensures (exists c :: c in p.idle && c !in p'.closed) ==> r.Granted? && r.conn in p.idle
    ensures !cfg.multiplex && r.Granted? ==> r.conn in p.idle
  {
    hide DrainUnder, Allocate, LastTakeable, Remainder, Roomy;
    if DrainUnder(cfg, p, p.idle, g.wave, g.rounds).Took? {
      var before := TakeLinearizes(cfg, p, g.wave, g.rounds);
      assert p.idle[LastTakeable(cfg, p.(closed := p.closed + before), p.idle)] in p.idle;
    } else {
      KeepsElements(cfg, p, p.idle, g.wave, g.rounds);
      forall c | c in p.idle ensures c in p'.closed {
        assert c in Elements(p.idle);
      }
    }
  }

  /** Then by the connection that its target last used: if no idle one was taken and sharing
      is on, that connection serves it, unless it has gone, is closed or is full; and it
      serves nothing when it has gone, was closed or was full before. */
  lemma AffinityComesNext(cfg: Config, p: PoolState, target: string, g: Sight, p': PoolState, r: Outcome)
    requires PassUnder(cfg, p, target, g, p', r) && DrainUnder(cfg, p, p.idle, g.wave, g.rounds).Running?
    requires target != "" && cfg.multiplex && target in p.targets
    ensures var c := p.targets[target];
      && (c in p.managers && c !in p'.closed && HasRoom(p.managers[c], cfg.maxStreams) ==> r.Granted? && r.conn == c)
      && (r.Granted? && r.conn == c ==> c in p.managers && c !in p.closed && HasRoom(p.managers[c], cfg.maxStreams))
  {
    hide DrainUnder, HasRoom;
    ClosedGrows(p, g.wave, 0, g.rounds);
    var c := p.targets[target];
    var q := p.(idle := [], closed := p'.closed);
    AllocateIsComplete(ManagerOf(q, c), cfg.maxStreams, target);
  }

  /** A request that has to wait asks for a new connection if none is under way. */
  lemma FirstWaiterCreates(cfg: Config, p: PoolState, target: string, g: Sight, p': PoolState, r: Outcome)
    requires PassUnder(cfg, p, target, g, p', r)
    ensures r.WaitForNew? ==> (r.createOne <==> p.pending == 0)
    ensures !r.Granted? ==> p' == p.(idle := [], closed := p'.closed)
  {
    hide DrainUnder, Allocate, Roomy;
  }

  /** A loop that emptied the list saw every entry closed. */
  lemma EmptyLinearizes(cfg: Config, p: PoolState, wave: Waves, n: nat)
    requires DrainUnder(cfg, p, p.idle, wave, n) == Running([])
    ensures Elements(p.idle) <= ClosedBy(p, wave, n)
  {
    KeepsElements(cfg, p, p.idle, wave, n);
  }

  /** What the pass saw closed counts as closed before it; what it saw open and was closed
      meanwhile counts as closed after it. */
  ghost predicate Replays(
      cfg: Config, p: PoolState, target: string, p': PoolState, r: Outcome, before: set<ConnItem>, q: PoolState)
  {
    var p1 := p.(closed := p.closed + before);
    && before <= p'.closed && !Stuck(cfg, p1, p1.idle) && Pass(cfg, p1, target, q, r)
    && q.closed == p1.closed && p.closed <= p'.closed
    && p' == q.(idle := p'.idle, closed := p'.closed)
    && Elements(p'.idle) <= Elements(p.idle)
    && (NoRepeats(p.idle) ==> p'.idle == q.idle)
  }

  lemma GrantLinearizes(cfg: Config, p: PoolState, target: string, g: Sight, p': PoolState, r: Outcome)
      returns (before: set<ConnItem>, q: PoolState)
    requires PassUnder(cfg, p, target, g, p', r) && DrainUnder(cfg, p, p.idle, g.wave, g.rounds).Took?
    ensures Replays(cfg, p, target, p', r, before, q)
  {
    hide DrainUnder, Allocate, LastTakeable, Remainder, Roomy;
    var d := DrainUnder(cfg, p, p.idle, g.wave, g.rounds);
    before := TakeLinearizes(cfg, p, g.wave, g.rounds);
    ClosedGrows(p, g.wave, 0, g.rounds);
    var p1 := p.(closed := p.closed + before);
    var k := LastTakeable(cfg, p1, p.idle);
    q := p'.(idle := Remainder(p1, p.idle, k), closed := p1.closed);
    assert p.idle[k] in p.idle;
  }

  lemma AffineLinearizes(cfg: Config, p: PoolState, target: string, g: Sight, p': PoolState, r: Outcome)
    requires p.idle == [] && AffinityHit(cfg, p.(closed := g.asked), target)
    requires GrantsOn(cfg, p.(closed := p'.closed), p.targets[target], target, p', r)
    ensures Pass(cfg, p.(closed := g.asked), target, p'.(closed := g.asked), r)
  {
    hide Allocate, Roomy;
    var p1 := p.(closed := g.asked);
    assert p1.(idle := []) == p1;
  }

  /** Nothing affine, if those not seen open count as closed. */
  lemma NoAffinity(cfg: Config, p: PoolState, target: string, asked: set<ConnItem>, seen: set<ConnItem>)
    requires !AffinityHit(cfg, p.(closed := asked), target) && p.managers.Keys - seen <= p.managers.Keys - asked
    ensures !AffinityHit(cfg, p.(closed := seen), target)
  {
  }

  lemma ShareLinearizes(
      cfg: Config, p: PoolState, target: string, g: Sight, p': PoolState, r: Outcome, before: set<ConnItem>)
    requires p.idle == [] && p.managers.Keys - before == g.open <= p.managers.Keys - g.asked
    requires !AffinityHit(cfg, p.(closed := g.asked), target) && cfg.multiplex
    requires SomeRoomy(cfg, p, g.open) && r.Granted? && Fewest(p, g.open, r.conn)
    requires GrantsOn(cfg, p.(closed := p'.closed), r.conn, target, p', r)
    ensures Pass(cfg, p.(closed := before), target, p'.(closed := before), r)
  {
    hide Allocate;
    var p1 := p.(closed := before);
    assert p1.(idle := []) == p1;
    NoAffinity(cfg, p, target, g.asked, before);
    var c :| c in g.open && Roomy(cfg, p, c);
    assert c in p1.managers && Takeable(cfg, p1, c);
    assert forall d :: d in p1.managers && d !in p1.closed ==> d in p.managers.Keys - before;
  }

  lemma WaitLinearizes(
      cfg: Config, p: PoolState, target: string, g: Sight, p': PoolState, r: Outcome, before: set<ConnItem>)
    requires p.idle == [] && p.managers.Keys - before == g.counted <= g.open <= p.managers.Keys - g.asked
    requires !AffinityHit(cfg, p.(closed := g.asked), target) && !(cfg.multiplex && SomeRoomy(cfg, p, g.open))
    requires p' == p.(closed := p'.closed)
    requires r == if |g.counted| + p.pending < cfg.maxPool then WaitForNew(p.pending == 0) else PoolFull
    ensures Pass(cfg, p.(closed := before), target, p'.(closed := before), r)
  {
    var p1 := p.(closed := before);
    assert p1.(idle := []) == p1;
    NoAffinity(cfg, p, target, g.asked, before);
    assert Live(p1) == g.counted;
    forall c | c in p1.managers ensures cfg.multiplex ==> !Takeable(cfg, p1, c) {
      assert c !in p1.closed ==> c in p.managers.Keys - before;
    }
  }

  lemma RestLinearizes(
      cfg: Config, p: PoolState, target: string, g: Sight, p': PoolState, r: Outcome, closed: set<ConnItem>)
      returns (before: set<ConnItem>)
    requires p.idle == [] && p.closed <= closed <= g.asked <= p'.closed
    requires RestUnder(cfg, p.(closed := p'.closed), target, g, p', r)
    ensures closed <= before <= p'.closed
    ensures Pass(cfg, p.(closed := before), target, p'.(closed := before), r)
  {
    hide Pass, Allocate, Roomy, GrantsOn, AffinityHit, SomeRoomy, Fewest;
    var q := p.(closed := p'.closed);
    assert q.(closed := g.asked) == p.(closed := g.asked);
    if AffinityHit(cfg, q.(closed := g.asked), target) {
      before := g.asked;
      AffinityNames(cfg, q.(closed := g.asked), target);
      AffineLinearizes(cfg, p, target, g, p', r);
    } else if cfg.multiplex && SomeRoomy(cfg, q, g.open) {
      before := closed + (p.managers.Keys - g.open);
      assert p.managers.Keys - before == g.open;
      SightIgnoresFlags(cfg, p, q, g.open);
      ShareLinearizes(cfg, p, target, g, p', r, before);
    } else {
      before := closed + (p.managers.Keys - g.counted);
      assert p.managers.Keys - before == g.counted;
      SightIgnoresFlags(cfg, p, q, g.open);
      WaitLinearizes(cfg, p, target, g, p', r, before);
    }
  }

  lemma AffinityNames(cfg: Config, p: PoolState, target: string)
    requires AffinityHit(cfg, p, target)
    ensures target in p.targets
  {
  }

  lemma SightIgnoresFlags(cfg: Config, p: PoolState, q: PoolState, open: set<ConnItem>)
    requires q == p.(closed := q.closed)
    ensures SomeRoomy(cfg, q, open) == SomeRoomy(cfg, p, open)
    ensures forall c :: Fewest(q, open, c) == Fewest(p, open, c)
  {
  }

  lemma RefusalLinearizes(cfg: Config, p: PoolState, target: string, g: Sight, p': PoolState, r: Outcome)
      returns (before: set<ConnItem>, q: PoolState)
    requires PassUnder(cfg, p, target, g, p', r) && DrainUnder(cfg, p, p.idle, g.wave, g.rounds).Running?
    ensures Replays(cfg, p, target, p', r, before, q)
  {
    hide DrainUnder, Allocate, Roomy, Pass, RestUnder;
    EmptyLinearizes(cfg, p, g.wave, g.rounds);
    ClosedGrows(p, g.wave, 0, g.rounds);
    RestKeepsIdle(cfg, p.(idle := [], closed := p'.closed), target, g, p', r);
    before := RestLinearizes(cfg, p.(idle := []), target, g, p', r, ClosedBy(p, g.wave, g.rounds));
    q := p'.(closed := before);
    var p1 := p.(closed := p.closed + before);
    assert p.closed + before == before;
    EmptiedPass(cfg, p1, target, q, r);
  }

  lemma RestKeepsIdle(cfg: Config, q: PoolState, target: string, g: Sight, p': PoolState, r: Outcome)
    requires q.idle == [] && RestUnder(cfg, q, target, g, p', r)
    ensures p'.idle == []
    ensures p' == q.(managers := p'.managers)
  {
    hide Allocate;
  }

  /** A pass over a list of closed connections is a pass over the empty list. */
  lemma EmptiedPass(cfg: Config, p: PoolState, target: string, q: PoolState, r: Outcome)
    requires Elements(p.idle) <= p.closed && Pass(cfg, p.(idle := []), target, q, r)
    ensures !Stuck(cfg, p, p.idle) && Pass(cfg, p, target, q, r)
  {
    forall i | 0 <= i < |p.idle| ensures p.idle[i] in Elements(p.idle) {}
    LastTakeableIs(cfg, p, p.idle, -1);
    LastTakeableIs(cfg, p.(idle := []), [], -1);
  }

  /** A pass during which connections close has the effect of an undisturbed pass between
      those closes that it saw and the others. */
  lemma PassLinearizes(cfg: Config, p: PoolState, target: string, g: Sight, p': PoolState, r: Outcome)
      returns (before: set<ConnItem>, q: PoolState)
    requires PassUnder(cfg, p, target, g, p', r)
    ensures Replays(cfg, p, target, p', r, before, q)
  {
    if DrainUnder(cfg, p, p.idle, g.wave, g.rounds).Took? {
      before, q := GrantLinearizes(cfg, p, target, g, p', r);
    } else {
      before, q := RefusalLinearizes(cfg, p, target, g, p', r);
    }
  }
}
