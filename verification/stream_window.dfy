/** The send window of a stream: additive-increase / multiplicative-decrease
    sizing, and the compare-and-swap loops that spend and shrink the credit. */
module StreamWindow {
  import opened Prelude

  const INCREASE := 8 * 1024

  /** Integer halving as the source's `/ 2` does it: truncation toward zero. */
  function Half(n: int): (r: int)
    ensures if n >= 0 then n - 1 <= 2 * r <= n else n <= 2 * r <= n + 1
  {
    if n >= 0 then n / 2 else -((-n) / 2)
  }

  function Tick(size: int, min: int, max: int, congested: bool): int {
    if congested then Max(Half(size), min) else Min(size + INCREASE, max)
  }

  /** The window size after a run of congestion-control ticks, oldest first. */
  function Ticks(size: int, min: int, max: int, congested: seq<bool>): int {
    if congested == [] then size
    else Tick(Ticks(size, min, max, congested[..|congested| - 1]), min, max, congested[|congested| - 1])
  }

  lemma {:induction false} WindowStaysWithinLimits(size: int, min: int, max: int, congested: seq<bool>)
    requires 0 <= min <= size <= max
    ensures min <= Ticks(size, min, max, congested) <= max
  {
    if congested != [] {
      WindowStaysWithinLimits(size, min, max, congested[..|congested| - 1]);
    }
  }

  lemma HalvingTwice(n: nat, k: nat)
    ensures Half(n / Pow2(k)) == n / Pow2(k + 1)
  {
    var p, q := Pow2(k), n / Pow2(k);
    assert Pow2(k + 1) == 2 * p;
    assert n == q * p + n % p;
    assert q == 2 * (q / 2) + q % 2;
    var r := (q % 2) * p + n % p;
    assert (q % 2) * p <= p;
    assert 0 <= r < 2 * p;
    assert n == (q / 2) * (2 * p) + r by {
      assert q * p == (2 * (q / 2) + q % 2) * p == (q / 2) * (2 * p) + (q % 2) * p;
    }
    QuotientUnique(n, 2 * p, q / 2, r);
  }

  lemma QuotientUnique(n: nat, d: nat, q: nat, r: nat)
    requires d > 0 && r < d && n == q * d + r
    ensures n / d == q
  {
    DivisionUnique(d, n / d, n % d, q, r);
  }

  lemma DivisionUnique(d: nat, q: int, r: nat, q': int, r': nat)
    requires r < d && r' < d && q * d + r == q' * d + r'
    ensures q == q'
  {
    assert (q - q') * d == r' - r;
    if q - q' >= 1 {
      AtLeastOnce(q - q', d);
    } else if q' - q >= 1 {
      AtLeastOnce(q' - q, d);
    }
  }

  lemma AtLeastOnce(k: int, d: nat)
    requires k >= 1
    ensures k * d >= d
  {
  }

  /** k consecutive congested ticks halve k times, never going below the minimum. */
  lemma {:induction false} CongestedRun(size: nat, min: nat, max: int, k: nat)
    requires k > 0 || min <= size
    ensures Ticks(size, min, max, seq(k, _ => true)) == Max(min, size / Pow2(k))
    decreases k
  {
    var run := seq(k, _ => true);
    if k > 0 {
      assert run[..k - 1] == seq(k - 1, _ => true);
      HalvingTwice(size, k - 1);
      if k == 1 {
        assert Ticks(size, min, max, run[..0]) == size;
      } else {
        CongestedRun(size, min, max, k - 1);
      }
    }
  }

  /** k consecutive clear ticks add 8 KiB each, never going above the maximum. */
  lemma {:induction false} ClearRun(size: int, min: int, max: int, k: nat)
    requires k > 0 || size <= max
    ensures Ticks(size, min, max, seq(k, _ => false)) == Min(max, size + 8192 * k)
    decreases k
  {
    var run := seq(k, _ => false);
    if k > 0 {
      assert run[..k - 1] == seq(k - 1, _ => false);
      if k == 1 {
        assert Ticks(size, min, max, run[..0]) == size;
      } else {
        ClearRun(size, min, max, k - 1);
      }
    }
  }

  // ------------------------------------------------- the credit, step by step

  /** One atomic operation on `sendWindow`. `Grant` and `Cut` are the
      compare-and-swaps of a sender and of the congestion controller; `seen` is
      the value that thread loaded earlier, which may be out of date by now. */
  datatype Op =
    | Refill(n: int)
    | Grant(seen: int, n: int)
    | Cut(seen: int, target: int)

  /** What a thread has checked before it issues the operation. */
  ghost predicate Issued(op: Op) {
    match op
    case Refill(n) => n > 0
    case Grant(seen, n) => 0 < n <= seen
    case Cut(seen, target) => 0 <= target < seen
  }

  function Apply(send: int, op: Op): int {
    match op
    case Refill(n) => send + n
    case Grant(seen, n) => if send == seen then send - n else send
    case Cut(seen, target) => if send == seen then target else send
  }

  function ApplyAll(send: int, ops: seq<Op>): int {
    if ops == [] then send
    else Apply(ApplyAll(send, ops[..|ops| - 1]), ops[|ops| - 1])
  }

  /** Bytes put back by refills. */
  function Refilled(ops: seq<Op>): int {
    if ops == [] then 0
    else Refilled(ops[..|ops| - 1]) + match ops[|ops| - 1] case Refill(n) => n case _ => 0
  }

  /** Bytes handed to senders by the compare-and-swaps that succeeded. */
  function Granted(send: int, ops: seq<Op>): int {
    if ops == [] then 0
    else
      var before := ops[..|ops| - 1];
      Granted(send, before) +
      match ops[|ops| - 1]
      case Grant(seen, n) => if ApplyAll(send, before) == seen then n else 0
      case _ => 0
  }

  /** Bytes taken away by congestion cuts that succeeded. */
  function Removed(send: int, ops: seq<Op>): int {
    if ops == [] then 0
    else
      var before := ops[..|ops| - 1];
      Removed(send, before) +
      match ops[|ops| - 1]
      case Cut(seen, target) => if ApplyAll(send, before) == seen then seen - target else 0
      case _ => 0
  }

  /** Under every interleaving of senders, refills and cuts the credit is never
      negative, and every byte is accounted for: senders never get more than the
      initial credit plus the refills. */
  lemma {:induction false} CreditConservation(send: nat, ops: seq<Op>)
    requires forall op :: op in ops ==> Issued(op)
    ensures ApplyAll(send, ops) >= 0
    ensures ApplyAll(send, ops) == send + Refilled(ops) - Granted(send, ops) - Removed(send, ops)
    ensures Granted(send, ops) >= 0 && Removed(send, ops) >= 0
    ensures Granted(send, ops) <= send + Refilled(ops)
  {
    if ops != [] {
      assert ops[|ops| - 1] in ops;
      CreditConservation(send, ops[..|ops| - 1]);
    }
  }

  lemma {:induction false} ApplyAllConcat(send: int, a: seq<Op>, b: seq<Op>)
    ensures ApplyAll(send, a + b) == ApplyAll(ApplyAll(send, a), b)
  {
    if b == [] {
      assert a + b == a;
    } else {
      assert (a + b)[..|a + b| - 1] == a + b[..|b| - 1];
      ApplyAllConcat(send, a, b[..|b| - 1]);
    }
  }

  ghost function Flatten(turns: seq<seq<Op>>): seq<Op> {
    if turns == [] then [] else Flatten(turns[..|turns| - 1]) + turns[|turns| - 1]
  }

  lemma FlattenNext(turns: seq<seq<Op>>, i: nat)
    requires i < |turns|
    ensures Flatten(turns[..i + 1]) == Flatten(turns[..i]) + turns[i]
  {
    assert turns[..i + 1][..i] == turns[..i];
  }

  // ------------------------------------------------------------ the stream

  /** A stream's identity and window fields. */
  class Stream {
    const id: int
    const targetAddr: string
    const minWindowSize: int
    const maxWindowSize: int
    var sendWindow: int
    var recvWindow: int
    var windowSize: int

    constructor (id: int, targetAddr: string, initial: int, min: int, max: int)
      ensures this.id == id && this.targetAddr == targetAddr
      ensures sendWindow == recvWindow == windowSize == initial
      ensures minWindowSize == min && maxWindowSize == max
    {
      this.id, this.targetAddr := id, targetAddr;
      sendWindow, recvWindow, windowSize := initial, initial, initial;
      minWindowSize, maxWindowSize := min, max;
    }

    /** What the other threads do while this one is between two instructions. */
    method Interfere(ops: seq<Op>)
      modifies `sendWindow
      ensures sendWindow == ApplyAll(old(sendWindow), ops)
    {
      var i := 0;
      while i < |ops|
        invariant 0 <= i <= |ops|
        invariant sendWindow == ApplyAll(old(sendWindow), ops[..i])
      {
        sendWindow := Apply(sendWindow, ops[i]);
        i := i + 1;
        assert ops[..i][..i - 1] == ops[..i - 1];
      }
      assert ops[..i] == ops;
    }

    /** Waits until `n` bytes of credit can be taken. `turns[i]` is what other
        threads do to the window during the i-th round; when the turns run out
        the deadline has passed. `log` is the interleaving that took place and
        `rounds` the number of turns it used. */
    method WaitForSendWindow(n: int, turns: seq<seq<Op>>)
      returns (ok: bool, ghost log: seq<Op>, ghost rounds: nat)
      modifies `sendWindow
      ensures sendWindow == ApplyAll(old(sendWindow), log)
      ensures n <= 0 ==> ok && log == []
      ensures rounds <= |turns|
      ensures n > 0 && ok ==> exists seen ::
        && n <= seen == ApplyAll(old(sendWindow), Flatten(turns[..rounds]))
        && log == Flatten(turns[..rounds]) + [Grant(seen, n)] && sendWindow == seen - n
      ensures !ok ==> log == Flatten(turns) && sendWindow < n
    {
      log, rounds := [], 0;
      if n <= 0 {
        return true, log, rounds;
      }
      var round := 0;
      while true
        invariant 0 <= round <= |turns|
        invariant log == Flatten(turns[..round])
        invariant sendWindow == ApplyAll(old(sendWindow), log)
        decreases |turns| - round
      {
        var window := sendWindow;
        if window < n && round == |turns| {
          assert turns[..round] == turns;
          return false, log, round;
        }
        if round < |turns| {
          Interfere(turns[round]);
          ApplyAllConcat(old(sendWindow), log, turns[round]);
          FlattenNext(turns, round);
          log := log + turns[round];
          round := round + 1;
        }
        if window >= n && sendWindow == window {
          rounds := round;
          ghost var before := log;
          log := log + [Grant(window, n)];
          assert log[..|log| - 1] == before;
          sendWindow := window - n;
          return true, log, rounds;
        }
      }
    }

    method RefillSendWindow(n: int)
      modifies `sendWindow
      ensures sendWindow == old(sendWindow) + Max(n, 0)
      ensures n > 0 ==> sendWindow == Apply(old(sendWindow), Refill(n))
    {
      if n > 0 {
        sendWindow := sendWindow + n;
      }
    }

    /** One congestion-control tick; `congested` is what the detector reported. */
    method AdjustWindowSize(congested: bool, turns: seq<seq<Op>>)
      returns (ghost log: seq<Op>, ghost rounds: nat)
      modifies `windowSize, `sendWindow
      ensures windowSize == Tick(old(windowSize), minWindowSize, maxWindowSize, congested)
      ensures sendWindow == ApplyAll(old(sendWindow), log)
      ensures !congested ==> log == []
      ensures rounds <= |turns|
      ensures congested ==>
        || (log == Flatten(turns[..rounds]) && sendWindow <= windowSize)
        || exists seen ::
            && windowSize < seen == ApplyAll(old(sendWindow), Flatten(turns[..rounds]))
            && log == Flatten(turns[..rounds]) + [Cut(seen, windowSize)] && sendWindow == windowSize
    {
      log, rounds := [], 0;
      if congested {
        var newSize := Half(windowSize);
        if newSize < minWindowSize {
          newSize := minWindowSize;
        }
        windowSize := newSize;
        var round := 0;
        while true
          invariant 0 <= round <= |turns|
          invariant windowSize == newSize
          invariant log == Flatten(turns[..round])
          invariant sendWindow == ApplyAll(old(sendWindow), log)
          decreases |turns| - round
        {
          var oldWindow := sendWindow;
          rounds := round;
          if oldWindow <= newSize {
            return;
          }
          if round < |turns| {
            Interfere(turns[round]);
            ApplyAllConcat(old(sendWindow), log, turns[round]);
            FlattenNext(turns, round);
            log := log + turns[round];
            round := round + 1;
          }
          if sendWindow == oldWindow {
            rounds := round;
            ghost var before := log;
            log := log + [Cut(oldWindow, newSize)];
            assert log[..|log| - 1] == before;
            sendWindow := newSize;
            return;
          }
        }
      } else {
        var newSize := windowSize + INCREASE;
        if newSize > maxWindowSize {
          newSize := maxWindowSize;
        }
        windowSize := newSize;
      }
    }
  }
}
