/** The list of relay nodes, best score first, and what failure reports do to it. */
module Relays {
  import opened Prelude

  /** A node as a value. */
  datatype Relay = Relay(ip: string, port: int, latencyMs: nat, fails: int, score: int)

  function ScoreOf(latencyMs: nat, fails: int): int { latencyMs + fails * 500 }

  predicate Matches(r: Relay, ip: string, port: int) { r.ip == ip && r.port == port }

  predicate Sorted(s: seq<Relay>) {
    forall i, j :: 0 <= i < j < |s| ==> s[i].score <= s[j].score
  }

  /** The position of the first node with this address, or -1. */
  function FirstMatch(s: seq<Relay>, ip: string, port: int): (i: int)
    ensures -1 <= i < |s|
    ensures i >= 0 ==> Matches(s[i], ip, port)
    ensures forall j :: 0 <= j < (if i < 0 then |s| else i) ==> !Matches(s[j], ip, port)
  {
    if s == [] then -1
    else if Matches(s[0], ip, port) then 0
    else
      var i := FirstMatch(s[1..], ip, port);
      if i < 0 then -1 else i + 1
  }

  function Failed(r: Relay): Relay { r.(fails := r.fails + 1, score := ScoreOf(r.latencyMs, r.fails + 1)) }

  /** A failure costs a node 500 points, a millisecond of latency one, and less is better: a
      node that was behind another stays behind it. */
  lemma FailureCosts500(r: Relay, other: Relay)
    requires r.score == r.latencyMs + 500 * r.fails
    ensures var failed := Failed(r);
      && failed.fails == r.fails + 1 && failed.score == r.score + 500
      && failed.score == failed.latencyMs + 500 * failed.fails
      && failed.ip == r.ip && failed.port == r.port && failed.latencyMs == r.latencyMs
      && (other.score <= r.score ==> other.score < failed.score)
  {
  }

  /** A failure report takes the list `s` to `s'`: only the first node with the address is
      touched; it leaves when it reaches the threshold, and otherwise everything is
      sorted again. */
  ghost predicate Report(threshold: int, s: seq<Relay>, ip: string, port: int, s': seq<Relay>) {
    var i := FirstMatch(s, ip, port);
    if i < 0 then s' == s
    else if s[i].fails + 1 >= threshold then s' == s[..i] + s[i + 1..]
    else Sorted(s') && multiset(s') == multiset(s[i := Failed(s[i])])
  }

  /** A sorted list stays sorted. */
  lemma ReportKeepsSorted(threshold: int, s: seq<Relay>, ip: string, port: int, s': seq<Relay>)
    requires Sorted(s) && Report(threshold, s, ip, port, s')
    ensures Sorted(s')
  {
  }

  ghost predicate Permuted<T>(s: seq<T>, t: seq<T>) { multiset(s) == multiset(t) }

  lemma Swapped<T>(s: seq<T>, i: nat, j: nat)
    requires i < |s| && j < |s|
    ensures Permuted(s, s[i := s[j]][j := s[i]])
  {
  }

  lemma Unchanged<T>(s: seq<T>)
    ensures Permuted(s, s)
  {
  }

  lemma PermutedSize<T>(s: seq<T>, t: seq<T>)
    requires Permuted(s, t)
    ensures |s| == |t|
  {
    assert |multiset(s)| == |s| && |multiset(t)| == |t|;
  }

  lemma PermutedTwice<T>(s: seq<T>, t: seq<T>, u: seq<T>)
    requires Permuted(s, t) && Permuted(t, u)
    ensures Permuted(s, u)
  {
  }

  // ------------------------------------------------- runs of failure reports

  datatype Address = Address(ip: string, port: int)

  /** A run of failure reports, with no rescoring in between: states[i] is taken to
      states[i + 1] by a report about addresses[i]. */
  ghost predicate IsRun(threshold: int, states: seq<seq<Relay>>, reports: seq<Address>) {
    && |states| == |reports| + 1
    && forall i {:trigger reports[i]} :: 0 <= i < |reports| ==>
        Report(threshold, states[i], reports[i].ip, reports[i].port, states[i + 1])
  }

  function ReportsOf(reports: seq<Address>, a: Address): nat {
    if reports == [] then 0
    else ReportsOf(reports[..|reports| - 1], a) + if reports[|reports| - 1] == a then 1 else 0
  }

  predicate IsAt(r: Relay, a: Address) { Matches(r, a.ip, a.port) }

  /** The list holds the node `r` once and no other node with its address. */
  ghost predicate OnlyAt(s: multiset<Relay>, a: Address, r: Relay) {
    IsAt(r, a) && s[r] == 1 && forall x :: x in s && IsAt(x, a) ==> x == r
  }

  ghost predicate NoneAt(s: multiset<Relay>, a: Address) {
    forall x :: x in s ==> !IsAt(x, a)
  }

  /** A node after n more failures. */
  function FailedTimes(r: Relay, n: nat): Relay {
    if n == 0 then r else r.(fails := r.fails + n, score := ScoreOf(r.latencyMs, r.fails + n))
  }

  lemma NoMatchMeansNone(s: seq<Relay>, b: Address)
    ensures FirstMatch(s, b.ip, b.port) < 0 <==> NoneAt(multiset(s), b)
  {
    var i := FirstMatch(s, b.ip, b.port);
    if i < 0 {
      forall x | x in multiset(s) ensures !IsAt(x, b) {
        assert x in s;
      }
    } else {
      assert s[i] in multiset(s);
    }
  }

  /** What a report does to the list as a collection. */
  lemma ReportAsMultiset(threshold: int, s: seq<Relay>, b: Address, s': seq<Relay>)
    requires Report(threshold, s, b.ip, b.port, s') && FirstMatch(s, b.ip, b.port) >= 0
    ensures var x := s[FirstMatch(s, b.ip, b.port)];
      && x in multiset(s) && IsAt(x, b)
      && multiset(s') == multiset(s) - multiset{x} +
           if x.fails + 1 >= threshold then multiset{} else multiset{Failed(x)}
  {
    hide Sorted, FirstMatch, Failed;
    var i := FirstMatch(s, b.ip, b.port);
    Cut(s, i);
    if s[i].fails + 1 < threshold {
      Replaced(s, i, Failed(s[i]));
    }
  }

  lemma Replaced<T>(s: seq<T>, i: nat, x: T)
    requires i < |s|
    ensures multiset(s[i := x]) == multiset(s) - multiset{s[i]} + multiset{x}
  {
  }

  lemma Cut<T>(s: seq<T>, i: nat)
    requires i < |s|
    ensures multiset(s) == multiset(s[..i] + s[i + 1..]) + multiset{s[i]}
    ensures multiset(s[..i] + s[i + 1..]) == multiset(s[..i]) + multiset(s[i + 1..])
  {
    assert s == s[..i] + [s[i]] + s[i + 1..];
  }

  /** However many reports there are, a sorted list stays sorted. */
  lemma {:induction false} RunKeepsSorted(
      threshold: int, states: seq<seq<Relay>>, reports: seq<Address>, i: nat)
    requires IsRun(threshold, states, reports) && i <= |reports| && Sorted(states[0])
    ensures Sorted(states[i])
  {
    hide Report, Sorted;
    if i > 0 {
      RunKeepsSorted(threshold, states, reports, i - 1);
      var b := reports[i - 1];
      ReportKeepsSorted(threshold, states[i - 1], b.ip, b.port, states[i]);
    }
  }

  // ---------------------------- how many reports about one address it takes

  /** The number of further reports that a node survives, and the one that removes it. */
  function Life(threshold: int, r: Relay): (n: nat)
    ensures n >= 1
  {
    Max(threshold - r.fails, 1)
  }

  function LifeAt(threshold: int, r: Relay, a: Address): nat {
    if IsAt(r, a) then Life(threshold, r) else 0
  }

  /** The lives of all the nodes with this address; nothing keeps two nodes from sharing one. */
  function Budget(threshold: int, s: seq<Relay>, a: Address): nat {
    if s == [] then 0 else LifeAt(threshold, s[0], a) + Budget(threshold, s[1..], a)
  }

  lemma {:induction false} BudgetOfParts(threshold: int, s: seq<Relay>, t: seq<Relay>, a: Address)
    ensures Budget(threshold, s + t, a) == Budget(threshold, s, a) + Budget(threshold, t, a)
  {
    if s == [] {
      assert s + t == t;
    } else {
      assert (s + t)[1..] == s[1..] + t;
      BudgetOfParts(threshold, s[1..], t, a);
    }
  }

  lemma BudgetOfOne(threshold: int, r: Relay, a: Address)
    ensures Budget(threshold, [r], a) == LifeAt(threshold, r, a)
  {
    assert [r][1..] == [];
  }

  lemma BudgetCut(threshold: int, s: seq<Relay>, i: nat, a: Address)
    requires i < |s|
    ensures Budget(threshold, s, a) == Budget(threshold, s[..i] + s[i + 1..], a) + LifeAt(threshold, s[i], a)
  {
    hide Budget, LifeAt;
    assert s == s[..i] + ([s[i]] + s[i + 1..]);
    BudgetOfParts(threshold, s[..i], [s[i]] + s[i + 1..], a);
    BudgetOfParts(threshold, [s[i]], s[i + 1..], a);
    BudgetOfParts(threshold, s[..i], s[i + 1..], a);
    BudgetOfOne(threshold, s[i], a);
  }

  lemma BudgetReplaced(threshold: int, s: seq<Relay>, i: nat, x: Relay, a: Address)
    requires i < |s|
    ensures Budget(threshold, s[i := x], a) - LifeAt(threshold, x, a) ==
            Budget(threshold, s, a) - LifeAt(threshold, s[i], a)
  {
    hide Budget, LifeAt;
    BudgetCut(threshold, s, i, a);
    BudgetCut(threshold, s[i := x], i, a);
    assert s[i := x][..i] == s[..i] && s[i := x][i + 1..] == s[i + 1..];
  }

  lemma FoundIn<T>(x: T, s: seq<T>, t: seq<T>) returns (j: nat)
    requires Permuted(s, t) && x in s
    ensures j < |t| && t[j] == x
  {
    assert x in multiset(t);
    j :| 0 <= j < |t| && t[j] == x;
  }

  lemma PermutedRest<T>(s: seq<T>, t: seq<T>, j: nat)
    requires Permuted(s, t) && s != [] && j < |t| && t[j] == s[0]
    ensures Permuted(s[1..], t[..j] + t[j + 1..])
  {
    Cut(s, 0);
    Cut(t, j);
    assert s[..0] + s[1..] == s[1..];
    Cancel(multiset(s[1..]), multiset(t[..j] + t[j + 1..]), s[0]);
  }

  lemma Cancel<T>(m: multiset<T>, n: multiset<T>, x: T)
    requires m + multiset{x} == n + multiset{x}
    ensures m == n
  {
    assert m == m + multiset{x} - multiset{x} && n == n + multiset{x} - multiset{x};
  }

  /** Sorting does not change a budget. */
  lemma {:induction false} BudgetPermuted(threshold: int, s: seq<Relay>, t: seq<Relay>, a: Address)
    requires Permuted(s, t)
    ensures Budget(threshold, s, a) == Budget(threshold, t, a)
  {
    hide Budget, LifeAt, Permuted;
    PermutedSize(s, t);
    if s == [] {
      assert t == [];
    } else {
      var j := FoundIn(s[0], s, t);
      PermutedRest(s, t, j);
      BudgetPermuted(threshold, s[1..], t[..j] + t[j + 1..], a);
      BudgetCut(threshold, s, 0, a);
      BudgetCut(threshold, t, j, a);
      assert s[..0] + s[1..] == s[1..];
    }
  }

  lemma {:induction false} NoBudgetMeansNone(threshold: int, s: seq<Relay>, a: Address)
    ensures Budget(threshold, s, a) == 0 <==> NoneAt(multiset(s), a)
  {
    if s != [] {
      NoBudgetMeansNone(threshold, s[1..], a);
      assert s == [s[0]] + s[1..];
      assert multiset(s) == multiset{s[0]} + multiset(s[1..]);
    }
  }

  lemma ReportCases(threshold: int, s: seq<Relay>, b: Address, s': seq<Relay>)
    requires Report(threshold, s, b.ip, b.port, s')
    ensures var i := FirstMatch(s, b.ip, b.port);
      if i < 0 then NoneAt(multiset(s), b) && s' == s
      else IsAt(s[i], b) && if s[i].fails + 1 >= threshold then s' == s[..i] + s[i + 1..]
                            else Permuted(s', s[i := Failed(s[i])])
  {
    hide Sorted;
    NoMatchMeansNone(s, b);
  }

  /** A report uses up one life at its address, if there is one, and none elsewhere. */
  lemma ReportTakesOne(threshold: int, s: seq<Relay>, b: Address, s': seq<Relay>, a: Address)
    requires Report(threshold, s, b.ip, b.port, s')
    ensures Budget(threshold, s', a) ==
      if a == b then Max(Budget(threshold, s, a) - 1, 0) else Budget(threshold, s, a)
  {
    hide Budget, Report, FirstMatch, NoneAt, Permuted;
    var i := FirstMatch(s, b.ip, b.port);
    ReportCases(threshold, s, b, s');
    NoBudgetMeansNone(threshold, s, b);
    if i >= 0 {
      BudgetCut(threshold, s, i, a);
      if s[i].fails + 1 < threshold {
        BudgetReplaced(threshold, s, i, Failed(s[i]), a);
        BudgetPermuted(threshold, s', s[i := Failed(s[i])], a);
      }
    }
  }

  /** However many nodes share an address, and whatever is reported about others: every
      report uses up one life, and the address is gone exactly when none is left. */
  lemma {:induction false} AddressLeavesOnBudget(
      threshold: int, states: seq<seq<Relay>>, reports: seq<Address>, a: Address, i: nat)
    requires IsRun(threshold, states, reports) && i <= |reports|
    ensures var n, budget := ReportsOf(reports[..i], a), Budget(threshold, states[0], a);
      && Budget(threshold, states[i], a) == Max(budget - n, 0)
      && (NoneAt(multiset(states[i]), a) <==> n >= budget)
  {
    hide Report, Budget, NoneAt;
    NoBudgetMeansNone(threshold, states[i], a);
    if i > 0 {
      AddressLeavesOnBudget(threshold, states, reports, a, i - 1);
      assert reports[..i][..i - 1] == reports[..i - 1];
      ReportTakesOne(threshold, states[i - 1], reports[i - 1], states[i], a);
    }
  }

  lemma OnlyBudget(threshold: int, s: seq<Relay>, a: Address, r: Relay)
    requires OnlyAt(multiset(s), a, r)
    ensures Budget(threshold, s, a) == Life(threshold, r)
  {
    assert r in multiset(s);
    var i :| 0 <= i < |s| && s[i] == r;
    Cut(s, i);
    BudgetCut(threshold, s, i, a);
    NoBudgetMeansNone(threshold, s[..i] + s[i + 1..], a);
  }

  lemma OnlyElsewhere(threshold: int, s: seq<Relay>, a: Address, b: Address, s': seq<Relay>, r: Relay)
    requires Report(threshold, s, b.ip, b.port, s') && a != b && OnlyAt(multiset(s), a, r)
    ensures OnlyAt(multiset(s'), a, r)
  {
    hide Report, FirstMatch;
    if FirstMatch(s, b.ip, b.port) >= 0 {
      ReportAsMultiset(threshold, s, b, s');
    } else {
      ReportMisses(threshold, s, b, s');
    }
  }

  lemma ReportMisses(threshold: int, s: seq<Relay>, b: Address, s': seq<Relay>)
    requires Report(threshold, s, b.ip, b.port, s') && FirstMatch(s, b.ip, b.port) < 0
    ensures s' == s
  {
  }

  lemma OnlyHere(threshold: int, s: seq<Relay>, a: Address, r: Relay, s': seq<Relay>)
    requires Report(threshold, s, a.ip, a.port, s') && OnlyAt(multiset(s), a, r) && r.fails + 1 < threshold
    ensures OnlyAt(multiset(s'), a, Failed(r))
  {
    hide Report, FirstMatch;
    NoMatchMeansNone(s, a);
    assert r in multiset(s);
    ReportAsMultiset(threshold, s, a, s');
  }

  /** A node alone at its address leaves exactly at its threshold-th failure, counting from
      its failures so far: before that it is there once, with every report counted and its
      score to match, whatever is reported about other nodes; from then on it is gone. */
  lemma {:induction false} NodeLeavesAtThreshold(
      threshold: int, states: seq<seq<Relay>>, reports: seq<Address>, a: Address, r: Relay, i: nat)
    requires IsRun(threshold, states, reports) && i <= |reports|
    requires OnlyAt(multiset(states[0]), a, r)
    ensures var n := ReportsOf(reports[..i], a);
      if n < Life(threshold, r) then OnlyAt(multiset(states[i]), a, FailedTimes(r, n))
      else NoneAt(multiset(states[i]), a)
  {
    hide Report, OnlyAt, NoneAt, Budget;
    OnlyBudget(threshold, states[0], a, r);
    AddressLeavesOnBudget(threshold, states, reports, a, i);
    if i > 0 && ReportsOf(reports[..i], a) < Life(threshold, r) {
      assert reports[..i][..i - 1] == reports[..i - 1];
      var n := ReportsOf(reports[..i - 1], a);
      NodeLeavesAtThreshold(threshold, states, reports, a, r, i - 1);
      if reports[i - 1] == a {
        OnlyHere(threshold, states[i - 1], a, FailedTimes(r, n), states[i]);
      } else {
        OnlyElsewhere(threshold, states[i - 1], a, reports[i - 1], states[i], FailedTimes(r, n));
      }
    }
  }

  // ------------------------------------------------------------ the manager

  class RelayNode {
    const ip: string
    const port: int
    var latencyMs: nat
    var failCount: int
    var score: int

    constructor (ip: string, port: int, latencyMs: nat)
      ensures Value() == Relay(ip, port, latencyMs, 0, latencyMs)
    {
      this.ip, this.port, this.latencyMs := ip, port, latencyMs;
      failCount, score := 0, ScoreOf(latencyMs, 0);
    }

    ghost function Value(): Relay
      reads this
    {
      Relay(ip, port, latencyMs, failCount, score)
    }
  }

  ghost function Values(nodes: seq<RelayNode>): (r: seq<Relay>)
    reads nodes
    ensures |r| == |nodes| && forall i :: 0 <= i < |nodes| ==> r[i] == nodes[i].Value()
  {
    if nodes == [] then [] else Values(nodes[..|nodes| - 1]) + [nodes[|nodes| - 1].Value()]
  }

  class RelayManager {
    const failureThreshold: int
    var optimalRelays: seq<RelayNode>
    var totalRemovedCount: int

    /** No node is listed twice. */
    ghost predicate Valid()
      reads this
    {
      forall i, j :: 0 <= i < j < |optimalRelays| ==> optimalRelays[i] != optimalRelays[j]
    }

    ghost function View(): seq<Relay>
      reads this, optimalRelays
    {
      Values(optimalRelays)
    }

    constructor (failureThreshold: int, nodes: seq<RelayNode>)
      requires forall i, j :: 0 <= i < j < |nodes| ==> nodes[i] != nodes[j]
      ensures Valid() && optimalRelays == nodes && this.failureThreshold == failureThreshold
      ensures totalRemovedCount == 0
    {
      this.failureThreshold, optimalRelays, totalRemovedCount := failureThreshold, nodes, 0;
    }

    /** Sorts the list in place by comparing every position with all later ones. */
    method ResortByScore()
      requires Valid()
      modifies `optimalRelays
      ensures Valid() && Permuted(old(optimalRelays), optimalRelays)
      ensures Sorted(View()) && Permuted(old(View()), View())
    {
      hide SortedBefore, LeastUpTo, Sorted, Values, Permuted;
      Unchanged(optimalRelays);
      Unchanged(View());
      ghost var n := |optimalRelays|;
      NothingSorted(View());
      var i := 0;
      while i < |optimalRelays| - 1
        invariant 0 <= i && |optimalRelays| == n && Valid()
        invariant Permuted(old(optimalRelays), optimalRelays)
        invariant Permuted(old(View()), View())
        invariant SortedBefore(View(), i)
        decreases n - i
      {
        var j := i + 1;
        NothingCompared(View(), i);
        while j < |optimalRelays|
          invariant i < j <= |optimalRelays| == n && Valid()
          invariant Permuted(old(optimalRelays), optimalRelays)
          invariant Permuted(old(View()), View())
          invariant SortedBefore(View(), i) && LeastUpTo(View(), i, j)
          decreases n - j
        {
          if optimalRelays[i].score > optimalRelays[j].score {
            SwapImproves(View(), i, j);
            ghost var nodes, v := optimalRelays, View();
            SwapNodes(i, j);
            PermutedTwice(old(optimalRelays), nodes, optimalRelays);
            PermutedTwice(old(View()), v, View());
          } else {
            AlreadyLeast(View(), i, j);
          }
          j := j + 1;
        }
        LeastIsNext(View(), i);
        i := i + 1;
      }
      LastIsSorted(View(), i);
    }

    method SwapNodes(i: nat, j: nat)
      requires Valid() && i < j < |optimalRelays|
      modifies `optimalRelays
      ensures Valid() && Permuted(old(optimalRelays), optimalRelays)
      ensures View() == old(View())[i := old(View())[j]][j := old(View())[i]]
    {
      Swapped(optimalRelays, i, j);
      optimalRelays := optimalRelays[i := optimalRelays[j]][j := optimalRelays[i]];
    }

    method FindNode(ip: string, port: int) returns (idx: int)
      ensures idx == FirstMatch(View(), ip, port)
    {
      var i := 0;
      while i < |optimalRelays|
        invariant 0 <= i <= |optimalRelays|
        invariant forall j :: 0 <= j < i ==> !Matches(View()[j], ip, port)
      {
        if optimalRelays[i].ip == ip && optimalRelays[i].port == port {
          FirstMatchIs(View(), ip, port, i);
          return i;
        }
        i := i + 1;
      }
      FirstMatchIs(View(), ip, port, -1);
      idx := -1;
    }

    /** One more failure for a node. */
    method CountFailure(idx: nat)
      requires Valid() && idx < |optimalRelays|
      modifies optimalRelays[idx]
      ensures Valid() && View() == old(View())[idx := Failed(old(View())[idx])]
    {
      var node := optimalRelays[idx];
      ghost var before := View();
      node.failCount := node.failCount + 1;
      node.score := ScoreOf(node.latencyMs, node.failCount);
      forall j | 0 <= j < |optimalRelays| && j != idx ensures View()[j] == before[j] {
        assert optimalRelays[j] != node;
      }
    }

    method RemoveNode(idx: nat)
      requires Valid() && idx < |optimalRelays|
      modifies `optimalRelays, `totalRemovedCount
      ensures Valid() && View() == old(View())[..idx] + old(View())[idx + 1..]
      ensures totalRemovedCount == old(totalRemovedCount) + 1
    {
      totalRemovedCount := totalRemovedCount + 1;
      optimalRelays := optimalRelays[..idx] + optimalRelays[idx + 1..];
    }

    /** Counts a failure of the first node with this address. */
    method ReportFailure(ip: string, port: int)
      requires Valid()
      modifies this, optimalRelays
      ensures Valid() && Report(failureThreshold, old(View()), ip, port, View())
      ensures (forall x :: x in old(View()) ==> x.ip != ip || x.port != port) ==> View() == old(View())
      ensures totalRemovedCount - old(totalRemovedCount) == |old(View())| - |View()|
    {
      hide Valid, Sorted, Failed, Values, FirstMatch;
      var idx := FindNode(ip, port);
      if idx != -1 {
        ghost var before := View();
        CountFailure(idx);
        assert View()[idx] == Failed(before[idx]);
        FailedFails(before[idx]);
        if optimalRelays[idx].failCount >= failureThreshold {
          RemoveNode(idx);
        } else {
          ghost var counted := View();
          ResortByScore();
          PermutedSize(counted, View());
        }
      }
    }
  }

  lemma FailedFails(r: Relay)
    ensures Failed(r).fails == r.fails + 1
  {
  }

  lemma FirstMatchIs(s: seq<Relay>, ip: string, port: int, i: int)
    requires -1 <= i < |s| && (i >= 0 ==> Matches(s[i], ip, port))
    requires forall j :: 0 <= j < (if i < 0 then |s| else i) ==> !Matches(s[j], ip, port)
    ensures FirstMatch(s, ip, port) == i
  {
    var k := FirstMatch(s, ip, port);
    assert k >= 0 ==> Matches(s[k], ip, port);
  }

  /** The first i positions are sorted and none is above a later one. */
  predicate SortedBefore(v: seq<Relay>, i: nat) {
    forall a, b :: 0 <= a < i && a < b < |v| ==> v[a].score <= v[b].score
  }

  predicate LeastUpTo(v: seq<Relay>, i: nat, j: nat)
    requires i < |v|
  {
    forall b :: i < b < j && b < |v| ==> v[i].score <= v[b].score
  }

  lemma SwapImproves(v: seq<Relay>, i: nat, j: nat)
    requires i < j < |v| && v[i].score > v[j].score && SortedBefore(v, i) && LeastUpTo(v, i, j)
    ensures var w := v[i := v[j]][j := v[i]];
      SortedBefore(w, i) && LeastUpTo(w, i, j + 1) && Permuted(v, w)
  {
    Swapped(v, i, j);
  }

  lemma NothingSorted(v: seq<Relay>)
    ensures SortedBefore(v, 0)
  {
  }

  lemma NothingCompared(v: seq<Relay>, i: nat)
    requires i < |v|
    ensures LeastUpTo(v, i, i + 1)
  {
  }

  lemma AlreadyLeast(v: seq<Relay>, i: nat, j: nat)
    requires i < j < |v| && v[i].score <= v[j].score && LeastUpTo(v, i, j)
    ensures LeastUpTo(v, i, j + 1)
  {
  }

  lemma LeastIsNext(v: seq<Relay>, i: nat)
    requires i < |v| && SortedBefore(v, i) && LeastUpTo(v, i, |v|)
    ensures SortedBefore(v, i + 1)
  {
  }

  lemma LastIsSorted(v: seq<Relay>, i: nat)
    requires i >= |v| - 1 && SortedBefore(v, i)
    ensures Sorted(v)
  {
  }
}
