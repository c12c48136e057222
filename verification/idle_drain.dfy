/** The loop that takes a connection from the end of the idle list while other threads
    close connections: what it returns, and exactly when it comes to an end. */
module IdleDrain {
  import opened Connections
  import opened PoolStates

  /** The list as the loop has left it, or the connection taken and what is left. */
  datatype Drain = Running(idle: seq<ConnItem>) | Took(conn: ConnItem, idle: seq<ConnItem>)

  predicate Ended(d: Drain) { d.Took? || d.idle == [] }

  /** Closed flags are set without the pool's lock: `wave(i)` is what other threads close
      before round i looks at a flag. */
  type Waves = nat -> set<ConnItem>

  const QUIET: Waves := _ => {}

  /** The flags that are set after the first n waves. */
  function ClosedBy(p: PoolState, wave: Waves, n: nat): set<ConnItem> {
    if n == 0 then p.closed else ClosedBy(p, wave, n - 1) + wave(n - 1)
  }

  lemma {:induction false} ClosedGrows(p: PoolState, wave: Waves, m: nat, n: nat)
    requires m <= n
    ensures ClosedBy(p, wave, m) <= ClosedBy(p, wave, n)
    decreases n
  {
    if m < n { ClosedGrows(p, wave, m, n - 1); }
  }

  lemma {:induction false} QuietClosesNothing(p: PoolState, n: nat)
    ensures ClosedBy(p, QUIET, n) == p.closed
  {
    if n > 0 { QuietClosesNothing(p, n - 1); }
  }

  /** One round of the loop that empties the idle list from its end. */
  function DrainOnce(cfg: Config, p: PoolState, closed: set<ConnItem>, d: Drain): Drain {
    if Ended(d) then d
    else
      var c, rest := d.idle[|d.idle| - 1], d.idle[..|d.idle| - 1];
      if c in closed then Running(rest)
      else if Roomy(cfg, p, c) then Took(c, rest)
      else Running([c] + rest)
  }

  function DrainUnder(cfg: Config, p: PoolState, idle: seq<ConnItem>, wave: Waves, rounds: nat): Drain {
    if rounds == 0 then Running(idle)
    else DrainOnce(cfg, p, ClosedBy(p, wave, rounds), DrainUnder(cfg, p, idle, wave, rounds - 1))
  }

  /** A round by the entry it looks at. */
  lemma RoundOn(cfg: Config, p: PoolState, closed: set<ConnItem>, rest: seq<ConnItem>, c: ConnItem)
    ensures DrainOnce(cfg, p, closed, Running(rest + [c])) ==
      if c in closed then Running(rest) else if Roomy(cfg, p, c) then Took(c, rest) else Running([c] + rest)
  {
    hide Roomy;
    assert (rest + [c])[..|rest|] == rest;
  }

  ghost predicate Ends(cfg: Config, p: PoolState, idle: seq<ConnItem>, wave: Waves) {
    exists n: nat :: Ended(DrainUnder(cfg, p, idle, wave, n))
  }

  lemma {:induction false} EndIsFinal(cfg: Config, p: PoolState, idle: seq<ConnItem>, wave: Waves, m: nat, n: nat)
    requires m <= n && Ended(DrainUnder(cfg, p, idle, wave, m))
    ensures DrainUnder(cfg, p, idle, wave, n) == DrainUnder(cfg, p, idle, wave, m)
    decreases n
  {
    if m < n { EndIsFinal(cfg, p, idle, wave, m, n - 1); }
  }

  // ------------------------------------------- the first turn of every entry

  /** Round i of the first |idle| looks at this entry, if the loop has not ended. */
  function Entry(idle: seq<ConnItem>, i: nat): ConnItem
    requires i < |idle|
  {
    idle[|idle| - 1 - i]
  }

  /** The entry of round i is open when its turn comes, and has room. */
  predicate TakesAt(cfg: Config, p: PoolState, idle: seq<ConnItem>, wave: Waves, i: nat)
    requires i < |idle|
  {
    Entry(idle, i) !in ClosedBy(p, wave, i + 1) && Roomy(cfg, p, Entry(idle, i))
  }

  ghost predicate NoneTakenBefore(cfg: Config, p: PoolState, idle: seq<ConnItem>, wave: Waves, n: nat)
    requires n <= |idle|
  {
    forall i :: 0 <= i < n ==> !TakesAt(cfg, p, idle, wave, i)
  }

  /** The entries of the first n rounds that were open when their turn came, in the order
      of the list. */
  function PutBack(p: PoolState, idle: seq<ConnItem>, wave: Waves, n: nat): seq<ConnItem>
    requires n <= |idle|
  {
    if n == 0 then []
    else
      var c, back := Entry(idle, n - 1), PutBack(p, idle, wave, n - 1);
      if c in ClosedBy(p, wave, n) then back else [c] + back
  }

  lemma LastOfFirst(s: seq<ConnItem>, k: nat)
    requires 0 < k <= |s|
    ensures s[..k] == s[..k - 1] + [s[k - 1]]
  {
  }

  /** As long as nothing is taken, closed entries vanish and full ones move to the front. */
  lemma {:induction false} FirstRounds(cfg: Config, p: PoolState, idle: seq<ConnItem>, wave: Waves, n: nat)
    requires n <= |idle| && NoneTakenBefore(cfg, p, idle, wave, n)
    ensures DrainUnder(cfg, p, idle, wave, n) == Running(PutBack(p, idle, wave, n) + idle[..|idle| - n])
    ensures forall c :: c in PutBack(p, idle, wave, n) ==> !Roomy(cfg, p, c)
  {
    hide DrainOnce, Roomy, ClosedBy;
    if n == 0 {
      assert [] + idle[..|idle|] == idle;
    } else {
      FirstRounds(cfg, p, idle, wave, n - 1);
      LastOfFirst(idle, |idle| - n + 1);
      var back, left, c := PutBack(p, idle, wave, n - 1), idle[..|idle| - n], Entry(idle, n - 1);
      assert !TakesAt(cfg, p, idle, wave, n - 1);
      assert back + (left + [c]) == back + left + [c] && [c] + (back + left) == [c] + back + left;
      RoundOn(cfg, p, ClosedBy(p, wave, n), back + left, c);
    }
  }

  /** The loop takes the first entry that is open and has room when its turn comes. */
  lemma TakesInTurn(cfg: Config, p: PoolState, idle: seq<ConnItem>, wave: Waves, i: nat)
    requires i < |idle| && TakesAt(cfg, p, idle, wave, i) && NoneTakenBefore(cfg, p, idle, wave, i)
    ensures DrainUnder(cfg, p, idle, wave, i + 1) ==
            Took(Entry(idle, i), PutBack(p, idle, wave, i) + idle[..|idle| - 1 - i])
  {
    FirstRounds(cfg, p, idle, wave, i);
    var back, left := PutBack(p, idle, wave, i), idle[..|idle| - i];
    assert back + left == back + idle[..|idle| - 1 - i] + [Entry(idle, i)];
    assert (back + left)[..|back + left| - 1] == back + idle[..|idle| - 1 - i];
  }

  /** The number of rounds before the first entry that is taken, or |idle|. */
  function FirstTaken(cfg: Config, p: PoolState, idle: seq<ConnItem>, wave: Waves, from: nat := 0): (i: nat)
    requires from <= |idle|
    ensures from <= i <= |idle| && (i < |idle| ==> TakesAt(cfg, p, idle, wave, i))
    ensures forall j :: from <= j < i ==> !TakesAt(cfg, p, idle, wave, j)
    decreases |idle| - from
  {
    if from == |idle| || TakesAt(cfg, p, idle, wave, from) then from
    else FirstTaken(cfg, p, idle, wave, from + 1)
  }

  // ------------------------------------------------ when nothing is taken

  ghost predicate AllFull(cfg: Config, p: PoolState, idle: seq<ConnItem>) {
    forall c :: c in idle ==> !Roomy(cfg, p, c)
  }

  lemma FullRound(cfg: Config, p: PoolState, closed: set<ConnItem>, d: Drain)
    requires d.Running? && AllFull(cfg, p, d.idle)
    ensures var d' := DrainOnce(cfg, p, closed, d);
      && d'.Running? && AllFull(cfg, p, d'.idle)
      && (forall c :: c in d.idle && c !in closed ==> c in d'.idle)
      && (forall c :: c in d'.idle ==> c in d.idle)
      && (d.idle != [] && (forall c :: c in d.idle ==> c in closed) ==> |d'.idle| == |d.idle| - 1)
  {
    if d.idle != [] {
      var n := |d.idle| - 1;
      assert d.idle == d.idle[..n] + [d.idle[n]];
      assert d.idle[n] in d.idle;
    }
  }

  /** Once every entry has had its turn, only full connections are left, and the loop can
      take nothing any more. */
  lemma {:induction false} LaterRounds(cfg: Config, p: PoolState, idle: seq<ConnItem>, wave: Waves, n: nat)
    requires |idle| <= n && NoneTakenBefore(cfg, p, idle, wave, |idle|)
    ensures var d := DrainUnder(cfg, p, idle, wave, n); d.Running? && AllFull(cfg, p, d.idle)
    decreases n
  {
    if n == |idle| {
      FirstRounds(cfg, p, idle, wave, n);
    } else {
      LaterRounds(cfg, p, idle, wave, n - 1);
      FullRound(cfg, p, ClosedBy(p, wave, n), DrainUnder(cfg, p, idle, wave, n - 1));
    }
  }

  /** A full connection that nobody closes stays in the list. */
  lemma {:induction false} FullStays(
      cfg: Config, p: PoolState, idle: seq<ConnItem>, wave: Waves, n: nat, c: ConnItem)
    requires NoneTakenBefore(cfg, p, idle, wave, |idle|)
    requires c in idle && !Roomy(cfg, p, c) && c !in ClosedBy(p, wave, n)
    ensures var d := DrainUnder(cfg, p, idle, wave, n); d.Running? && c in d.idle
  {
    hide DrainOnce, Roomy, AllFull;
    if n > 0 {
      ClosedGrows(p, wave, n - 1, n);
      FullStays(cfg, p, idle, wave, n - 1, c);
      FullRoundKeeps(cfg, p, ClosedBy(p, wave, n), DrainUnder(cfg, p, idle, wave, n - 1), c);
      if n <= |idle| {
        FirstRounds(cfg, p, idle, wave, n);
      } else {
        LaterRounds(cfg, p, idle, wave, n);
      }
    }
  }

  lemma FullRoundKeeps(cfg: Config, p: PoolState, closed: set<ConnItem>, d: Drain, c: ConnItem)
    requires d.Running? && c in d.idle && !Roomy(cfg, p, c) && c !in closed
    ensures var d' := DrainOnce(cfg, p, closed, d); d'.Running? ==> c in d'.idle
  {
    hide Roomy;
    var m := |d.idle| - 1;
    assert d.idle == d.idle[..m] + [d.idle[m]];
  }

  /** A round over a list of full connections, all of them closed. */
  lemma ClosedRound(cfg: Config, p: PoolState, closed: set<ConnItem>, d: Drain, idle: seq<ConnItem>)
    requires d.Running? && AllFull(cfg, p, d.idle) && forall c :: c in d.idle ==> c in idle
    requires forall c :: c in idle && !Roomy(cfg, p, c) ==> c in closed
    ensures var d' := DrainOnce(cfg, p, closed, d);
      && (Ended(d') || |d'.idle| == |d.idle| - 1)
      && (Ended(d) ==> Ended(d'))
      && (forall c :: c in d'.idle ==> c in idle)
  {
    hide Roomy;
    if d.idle != [] {
      assert d.idle[|d.idle| - 1] in d.idle;
    }
  }

  /** A list of closed connections is emptied one per round. */
  lemma {:induction false} ClosedListEmpties(
      cfg: Config, p: PoolState, idle: seq<ConnItem>, wave: Waves, n: nat, k: nat)
    requires |idle| <= n && NoneTakenBefore(cfg, p, idle, wave, |idle|)
    requires forall c :: c in idle && !Roomy(cfg, p, c) ==> c in ClosedBy(p, wave, n)
    requires forall c :: c in DrainUnder(cfg, p, idle, wave, n).idle ==> c in idle
    ensures Ended(DrainUnder(cfg, p, idle, wave, n + k)) ||
            |DrainUnder(cfg, p, idle, wave, n + k).idle| == |DrainUnder(cfg, p, idle, wave, n).idle| - k
    ensures forall c :: c in DrainUnder(cfg, p, idle, wave, n + k).idle ==> c in idle
  {
    hide DrainOnce, Roomy, AllFull, Ended, NoneTakenBefore, ClosedBy;
    if k > 0 {
      ClosedListEmpties(cfg, p, idle, wave, n, k - 1);
      LaterRounds(cfg, p, idle, wave, n + k - 1);
      ClosedGrows(p, wave, n, n + k);
      ClosedRound(cfg, p, ClosedBy(p, wave, n + k), DrainUnder(cfg, p, idle, wave, n + k - 1), idle);
    }
  }

  lemma RoundKeepsElements(cfg: Config, p: PoolState, closed: set<ConnItem>, d: Drain)
    ensures var d' := DrainOnce(cfg, p, closed, d);
      && Elements(d'.idle) <= Elements(d.idle)
      && (d'.Running? ==> d.Running? && Elements(d.idle) <= Elements(d'.idle) + closed)
  {
    hide Roomy, Elements;
    if !Ended(d) {
      var m := |d.idle| - 1;
      LastOfFirst(d.idle, m + 1);
      assert d.idle[..m + 1] == d.idle;
      ElementsAppend(d.idle[..m], d.idle[m]);
      ElementsPrepend(d.idle[m], d.idle[..m]);
    }
  }

  lemma {:induction false} KeepsElements(cfg: Config, p: PoolState, idle: seq<ConnItem>, wave: Waves, n: nat)
    ensures var d := DrainUnder(cfg, p, idle, wave, n);
      && Elements(d.idle) <= Elements(idle)
      && (d.Running? ==> Elements(idle) <= Elements(d.idle) + ClosedBy(p, wave, n))
  {
    hide DrainOnce, Elements;
    if n > 0 {
      KeepsElements(cfg, p, idle, wave, n - 1);
      ClosedGrows(p, wave, n - 1, n);
      RoundKeepsElements(cfg, p, ClosedBy(p, wave, n), DrainUnder(cfg, p, idle, wave, n - 1));
    }
  }

  // -------------------------------------------------------- when it ends

  /** Every full connection of the list is closed sooner or later. */
  ghost predicate FullOnesClose(cfg: Config, p: PoolState, idle: seq<ConnItem>, wave: Waves) {
    forall c :: c in idle && !Roomy(cfg, p, c) ==> ClosesInTime(p, wave, c)
  }

  ghost predicate ClosesInTime(p: PoolState, wave: Waves, c: ConnItem) {
    exists n: nat :: c in ClosedBy(p, wave, n)
  }

  lemma {:induction false} CommonTime(
      cfg: Config, p: PoolState, idle: seq<ConnItem>, wave: Waves, m: nat) returns (n: nat)
    requires m <= |idle| && FullOnesClose(cfg, p, idle, wave)
    ensures n >= |idle|
    ensures forall i :: 0 <= i < m && !Roomy(cfg, p, idle[i]) ==> idle[i] in ClosedBy(p, wave, n)
  {
    if m == 0 {
      n := |idle|;
    } else {
      var before := CommonTime(cfg, p, idle, wave, m - 1);
      n := before;
      var c := idle[m - 1];
      if !Roomy(cfg, p, c) {
        assert ClosesInTime(p, wave, c);
        var k: nat :| c in ClosedBy(p, wave, k);
        n := if k > before then k else before;
        ClosedGrows(p, wave, k, n);
      }
      ClosedGrows(p, wave, before, n);
    }
  }

  lemma EndsWhenFullOnesClose(cfg: Config, p: PoolState, idle: seq<ConnItem>, wave: Waves)
    requires NoneTakenBefore(cfg, p, idle, wave, |idle|) && FullOnesClose(cfg, p, idle, wave)
    ensures Ends(cfg, p, idle, wave)
  {
    var n := CommonTime(cfg, p, idle, wave, |idle|);
    LaterRounds(cfg, p, idle, wave, n);
    KeepsElements(cfg, p, idle, wave, n);
    var left := DrainUnder(cfg, p, idle, wave, n).idle;
    forall c | c in left ensures c in idle {
      assert c in Elements(left);
    }
    ClosedListEmpties(cfg, p, idle, wave, n, |left|);
    assert Ended(DrainUnder(cfg, p, idle, wave, n + |left|));
  }

  /** However other threads close connections, the loop comes to an end exactly if some
      entry is open and has room when its first turn comes, or every full connection of
      the list is closed in time. */
  lemma DrainEndsIff(cfg: Config, p: PoolState, idle: seq<ConnItem>, wave: Waves)
    ensures Ends(cfg, p, idle, wave) <==>
      (exists i: nat :: i < |idle| && TakesAt(cfg, p, idle, wave, i)) || FullOnesClose(cfg, p, idle, wave)
  {
    var i := FirstTaken(cfg, p, idle, wave);
    if i < |idle| {
      TakesInTurn(cfg, p, idle, wave, i);
      assert Ended(DrainUnder(cfg, p, idle, wave, i + 1));
    } else if FullOnesClose(cfg, p, idle, wave) {
      EndsWhenFullOnesClose(cfg, p, idle, wave);
    } else {
      var c :| c in idle && !Roomy(cfg, p, c) && !ClosesInTime(p, wave, c);
      forall n: nat ensures !Ended(DrainUnder(cfg, p, idle, wave, n)) {
        assert c !in ClosedBy(p, wave, n);
        FullStays(cfg, p, idle, wave, n, c);
      }
    }
  }

  /** Every open connection of the list has room. */
  ghost predicate OpenHaveRoom(cfg: Config, p: PoolState, idle: seq<ConnItem>) {
    forall c :: c in idle && c !in p.closed ==> Roomy(cfg, p, c)
  }

  /** If every open connection of the list has room, the loop ends whatever others close:
      each of the first |idle| rounds takes its entry or drops it, and none puts one back. */
  lemma {:induction false} RoomyListDrains(cfg: Config, p: PoolState, idle: seq<ConnItem>, wave: Waves, n: nat)
    requires OpenHaveRoom(cfg, p, idle) && n <= |idle|
    ensures var d := DrainUnder(cfg, p, idle, wave, n); d.Took? || d == Running(idle[..|idle| - n])
  {
    if n == 0 {
      assert idle[..|idle|] == idle;
    } else {
      RoomyListDrains(cfg, p, idle, wave, n - 1);
      ClosedGrows(p, wave, 0, n);
      var left := idle[..|idle| - n + 1];
      assert left[|idle| - n] in idle;
      assert left[..|idle| - n] == idle[..|idle| - n];
    }
  }

  /** Otherwise others can make it turn for ever, by closing those that have room. */
  lemma FullListCanHang(cfg: Config, p: PoolState, idle: seq<ConnItem>) returns (wave: Waves)
    requires !OpenHaveRoom(cfg, p, idle)
    ensures !Ends(cfg, p, idle, wave)
    ensures forall n: nat :: wave(n) <= Elements(idle)
  {
    var roomy := set c | c in idle && Roomy(cfg, p, c);
    wave := _ => roomy;
    var c :| c in idle && c !in p.closed && !Roomy(cfg, p, c);
    forall n: nat ensures c !in ClosedBy(p, wave, n) && (n > 0 ==> roomy <= ClosedBy(p, wave, n)) {
      RoomyOnesClose(p, wave, roomy, n);
    }
    forall i: nat | i < |idle| ensures !TakesAt(cfg, p, idle, wave, i) {
      assert Entry(idle, i) in idle;
      assert Roomy(cfg, p, Entry(idle, i)) ==> Entry(idle, i) in roomy;
    }
    assert !ClosesInTime(p, wave, c);
    DrainEndsIff(cfg, p, idle, wave);
  }

  lemma {:induction false} RoomyOnesClose(p: PoolState, wave: Waves, cs: set<ConnItem>, n: nat)
    requires forall i: nat :: wave(i) == cs
    ensures ClosedBy(p, wave, n) == p.closed + if n == 0 then {} else cs
  {
    if n > 0 { RoomyOnesClose(p, wave, cs, n - 1); }
  }

  // -------------------------------------------------- when nobody interferes

  ghost predicate NoneBehind(cfg: Config, p: PoolState, idle: seq<ConnItem>, k: int)
    requires -1 <= k
  {
    forall i :: k < i < |idle| ==> !Takeable(cfg, p, idle[i])
  }

  /** The position nearest the end that the loop can take, or -1. */
  function LastTakeable(cfg: Config, p: PoolState, idle: seq<ConnItem>): (k: int)
    ensures -1 <= k < |idle|
    ensures k >= 0 ==> Takeable(cfg, p, idle[k])
    ensures NoneBehind(cfg, p, idle, k)
  {
    if idle == [] then -1
    else if Takeable(cfg, p, idle[|idle| - 1]) then |idle| - 1
    else LastTakeable(cfg, p, idle[..|idle| - 1])
  }

  lemma LastTakeableIs(cfg: Config, p: PoolState, idle: seq<ConnItem>, k: int)
    requires -1 <= k < |idle| && NoneBehind(cfg, p, idle, k)
    requires k >= 0 ==> Takeable(cfg, p, idle[k])
    ensures LastTakeable(cfg, p, idle) == k
  {
    var other := LastTakeable(cfg, p, idle);
    assert other <= k;
    assert k <= other;
  }

  function Open(p: PoolState, s: seq<ConnItem>): seq<ConnItem> {
    if s == [] then []
    else Open(p, s[..|s| - 1]) + if s[|s| - 1] in p.closed then [] else [s[|s| - 1]]
  }

  /** What is left of the idle list once position k has been taken: the open but
      full connections behind it move to the front, the closed ones vanish. */
  function Remainder(p: PoolState, idle: seq<ConnItem>, k: nat): seq<ConnItem>
    requires k < |idle|
  {
    Open(p, idle[k + 1..]) + idle[..k]
  }

  lemma OpenNothing(p: PoolState)
    ensures Open(p, []) == []
  {
  }

  lemma OpenAppend(p: PoolState, s: seq<ConnItem>, c: ConnItem)
    ensures Open(p, s + [c]) == Open(p, s) + if c in p.closed then [] else [c]
  {
    assert (s + [c])[..|s|] == s;
  }

  lemma {:induction false} OpenPrepend(p: PoolState, c: ConnItem, s: seq<ConnItem>)
    ensures Open(p, [c] + s) == (if c in p.closed then [] else [c]) + Open(p, s)
  {
    hide Open;
    if s == [] {
      OpenNothing(p);
      OpenAppend(p, [], c);
      assert [c] + s == [] + [c];
    } else {
      var rest, last := s[..|s| - 1], s[|s| - 1];
      OpenPrepend(p, c, rest);
      OpenAppend(p, rest, last);
      OpenAppend(p, [c] + rest, last);
      assert s == rest + [last] && [c] + s == [c] + rest + [last];
    }
  }

  /** The list holds an open connection, and every open one is full. */
  ghost predicate Stuck(cfg: Config, p: PoolState, idle: seq<ConnItem>) {
    && (exists c :: c in idle && c !in p.closed)
    && (forall c :: c in idle ==> !Takeable(cfg, p, c))
  }

  /** If nobody interferes, the loop ends exactly if the list is not stuck. */
  lemma QuietDrainEndsIffNotStuck(cfg: Config, p: PoolState, idle: seq<ConnItem>)
    ensures Ends(cfg, p, idle, QUIET) <==> !Stuck(cfg, p, idle)
  {
    DrainEndsIff(cfg, p, idle, QUIET);
    forall n: nat ensures ClosedBy(p, QUIET, n) == p.closed {
      QuietClosesNothing(p, n);
    }
    forall c | c in idle ensures ClosesInTime(p, QUIET, c) <==> c in p.closed {
      assert c in p.closed ==> c in ClosedBy(p, QUIET, 0);
    }
    forall i: nat | i < |idle| ensures TakesAt(cfg, p, idle, QUIET, i) <==> Takeable(cfg, p, Entry(idle, i)) {
    }
    if c :| c in idle && Takeable(cfg, p, c) {
      var j :| 0 <= j < |idle| && idle[j] == c;
      assert TakesAt(cfg, p, idle, QUIET, |idle| - 1 - j);
    }
  }
}
