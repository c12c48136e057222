/** The allocation state of one connection's stream manager, as a value: which
    stream IDs are taken (and for which target) and where the cursor stands. */
module StreamIds {
  import opened Prelude
  import opened Bitmap

  datatype ManagerState = ManagerState(streams: map<StreamId, string>, hint: StreamId)

  const FRESH := ManagerState(map[], 0)

  /** The ID reached from `hint` after `offset` steps around the 256-ID circle. */
  function Around(hint: StreamId, offset: nat): StreamId { (hint + offset) % 256 }

  /** Steps needed to go from one ID forward to another. */
  function Distance(from: StreamId, to: StreamId): (d: nat)
    ensures d < 256 && Around(from, d) == to
    ensures forall o: nat :: o < d ==> Around(from, o) != to
  {
    if to >= from then to - from else to - from + 256
  }

  /** Moving the origin of the circle past `g`. */
  lemma DistanceFromNext(from: StreamId, g: StreamId, to: StreamId)
    requires Distance(from, g) < Distance(from, to)
    ensures Distance(Around(g, 1), to) == Distance(from, to) - Distance(from, g) - 1
  {
  }

  function Scan(used: set<StreamId>, hint: StreamId, offset: nat): Option<StreamId>
    requires offset <= 256
    decreases 256 - offset
  {
    if offset == 256 then None
    else if Around(hint, offset) !in used then Some(Around(hint, offset))
    else Scan(used, hint, offset + 1)
  }

  function FirstFree(used: set<StreamId>, hint: StreamId): Option<StreamId> {
    Scan(used, hint, 0)
  }

  lemma {:induction false} ScanFinds(used: set<StreamId>, hint: StreamId, offset: nat)
    requires offset <= 256
    requires forall o: nat :: o < offset ==> Around(hint, o) in used
    ensures match Scan(used, hint, offset)
      case None => forall id: StreamId :: id in used
      case Some(id) =>
        && id !in used
        && forall o: nat :: o < Distance(hint, id) ==> Around(hint, o) in used
    decreases 256 - offset
  {
    if offset == 256 {
      forall id: StreamId ensures id in used {
        assert Around(hint, Distance(hint, id)) == id;
      }
    } else if Around(hint, offset) !in used {
      var id := Around(hint, offset);
      if Distance(hint, id) > offset { assert false; }
    } else {
      ScanFinds(used, hint, offset + 1);
    }
  }

  /** The search returns the cyclically first free ID, and fails only when all
      256 IDs are taken. */
  lemma FirstFreeIsFirst(used: set<StreamId>, hint: StreamId)
    ensures match FirstFree(used, hint)
      case None => |used| == 256
      case Some(id) =>
        && id !in used && |used| < 256
        && forall o: nat :: o < Distance(hint, id) ==> Around(hint, o) in used
  {
    ScanFinds(used, hint, 0);
    var ints: set<int> := used;
    SubsetSize(ints, Below(256));
    if FirstFree(used, hint) == None {
      SubsetSize(Below(256), ints);
    }
  }

  function Allocate(m: ManagerState, max: int, target: string): (ManagerState, Option<StreamId>) {
    if |m.streams| >= max then (m, None)
    else
      match FirstFree(m.streams.Keys, m.hint)
      case None => (m, None)
      case Some(id) => (ManagerState(m.streams[id := target], Around(id, 1)), Some(id))
  }

  /** Room for one more stream. */
  predicate HasRoom(m: ManagerState, max: int) { |m.streams| < max && |m.streams| < 256 }

  /** Allocation succeeds exactly when there is room; it then adds one fresh ID,
      the first free one from the cursor on, and leaves the others alone. For a
      limit of at most 256 the bitmap search itself never fails. */
  lemma AllocateIsComplete(m: ManagerState, max: int, target: string)
    ensures var (m', r) := Allocate(m, max, target);
      && (r.Some? <==> HasRoom(m, max))
      && (max <= 256 ==> (r.Some? <==> |m.streams| < max))
      && (r.None? ==> m' == m)
      && (r.Some? ==>
        && r.value !in m.streams
        && m'.streams == m.streams[r.value := target]
        && |m'.streams| == |m.streams| + 1
        && m'.hint == Around(r.value, 1)
        && forall o: nat :: o < Distance(m.hint, r.value) ==> Around(m.hint, o) in m.streams)
  {
    FirstFreeIsFirst(m.streams.Keys, m.hint);
    var (m', r) := Allocate(m, max, target);
    if r.Some? {
      assert m'.streams.Keys == m.streams.Keys + {r.value};
    }
  }

  function Release(m: ManagerState, id: StreamId): ManagerState {
    m.(streams := m.streams - {id})
  }

  /** Releasing an ID frees it, keeps every other one with its target, and does not move the
      cursor; a full manager has room again. */
  lemma ReleaseFrees(m: ManagerState, id: StreamId)
    ensures var m' := Release(m, id);
      && id !in m'.streams
      && (forall d :: d in m'.streams <==> d in m.streams && d != id)
      && (forall d :: d in m'.streams ==> m'.streams[d] == m.streams[d])
      && m'.hint == m.hint
      && |m'.streams| == (if id in m.streams then |m.streams| - 1 else |m.streams|)
  {
    MapRemoveSize(m.streams, id);
  }

  // ------------------------------------------------------- fairness of reuse

  datatype IdOp = Grant(target: string) | Free(id: StreamId)

  /** A run of one manager between two connection closes. */
  ghost predicate IsIdRun(max: int, states: seq<ManagerState>, ops: seq<IdOp>) {
    && |states| == |ops| + 1
    && forall i {:trigger ops[i]} :: 0 <= i < |ops| ==>
        states[i + 1] == (match ops[i]
          case Grant(target) => Allocate(states[i], max, target).0
          case Free(id) => Release(states[i], id))
  }

  /** Step i granted `id`. */
  ghost predicate Grants(max: int, states: seq<ManagerState>, ops: seq<IdOp>, i: int, id: StreamId)
    requires IsIdRun(max, states, ops)
  {
    0 <= i < |ops| && ops[i].Grant? && Allocate(states[i], max, ops[i].target).1 == Some(id)
  }

  /** The cursor has left `a` behind and has not reached `b` yet. */
  ghost predicate CursorBefore(hint: StreamId, a: StreamId, b: StreamId) {
    Distance(hint, b) < Distance(hint, a)
  }

  lemma CursorStep(m: ManagerState, max: int, target: string, a: StreamId, b: StreamId)
    requires a != b && CursorBefore(m.hint, a, b) && b !in m.streams
    ensures var (m', r) := Allocate(m, max, target);
      && r != Some(a)
      && (b !in m'.streams ==> CursorBefore(m'.hint, a, b))
  {
    AllocateIsComplete(m, max, target);
    var (m', r) := Allocate(m, max, target);
    if r.Some? {
      var g := r.value;
      assert Around(m.hint, Distance(m.hint, b)) == b;
      assert Distance(m.hint, g) <= Distance(m.hint, b);
      if Distance(m.hint, g) < Distance(m.hint, b) {
        DistanceFromNext(m.hint, g, b);
        DistanceFromNext(m.hint, g, a);
      }
    }
  }

  lemma {:induction false} CursorTravels(
      max: int, states: seq<ManagerState>, ops: seq<IdOp>, i: nat, j: nat, a: StreamId, b: StreamId)
    requires IsIdRun(max, states, ops) && i < j <= |ops| && a != b
    requires Grants(max, states, ops, i, a)
    requires forall k :: i < k <= j ==> b !in states[k].streams
    ensures CursorBefore(states[j].hint, a, b)
    decreases j
  {
    if j == i + 1 {
      AllocateIsComplete(states[i], max, ops[i].target);
    } else {
      CursorTravels(max, states, ops, i, j - 1, a, b);
      match ops[j - 1]
      case Grant(target) => CursorStep(states[j - 1], max, target, a, b);
      case Free(id) =>
    }
  }

  /** Reuse is fair: between two grants of the same ID every other ID is in use
      at some moment, however streams come and go. */
  lemma ReuseIsFair(
      max: int, states: seq<ManagerState>, ops: seq<IdOp>, i: nat, j: nat, a: StreamId, b: StreamId)
    requires IsIdRun(max, states, ops) && i < j && a != b
    requires Grants(max, states, ops, i, a) && Grants(max, states, ops, j, a)
    ensures exists k :: i < k <= j && b in states[k].streams
  {
    if forall k :: i < k <= j ==> b !in states[k].streams {
      CursorTravels(max, states, ops, i, j, a, b);
      CursorStep(states[j], max, ops[j].target, a, b);
      assert false;
    }
  }
}
