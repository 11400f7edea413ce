/** `RaycastManager`: a bounded cache of ground heights under the points the
    painter asks about, filled by a worker that raycasts queued points and
    trimmed every frame to the entries nearest the player. The two
    `Task.Run` bodies are separate methods here (`UpdateTask`,
    `RaycastTask`): the methods that launch them only test and set the
    running flag, and the environment runs each body later, atomically. */
module Raycast {
  import opened Wrappers
  import opened Vectors
  import opened GridKeys
  import opened SortedHeights

  const MaxDistance: int := 80
  /** `compacity`: the number of entries the cache keeps after a trim. */
  const Capacity: int := MaxDistance * MaxDistance * 400

  function Max(a: real, b: real): real { if a >= b then a else b }
  function Min(a: real, b: real): real { if a <= b then a else b }

  /** `Math.Min(Math.Max(v, lo), hi)`: `v` limited to `[lo, hi]`; when the
      interval is empty the upper end wins. */
  function Clamp(v: real, lo: real, hi: real): (r: real)
    ensures lo <= hi ==> lo <= r <= hi
    ensures lo <= v <= hi ==> r == v
    ensures hi < lo ==> r == hi
    ensures v < lo <= hi ==> r == lo
    ensures lo <= hi < v ==> r == hi
  {
    Min(Max(v, lo), hi)
  }

  /** What `Raycast` answers once `GetHeight` has answered `lookup`: the
      caller's point with its height replaced by the cached one, kept
      within `height` of the point's own height. A miss falls back to the
      point's own height and succeeds; only a stored NaN fails. */
  function Resolve(lookup: (bool, Height), point: Vector3, height: real): (r: (bool, Vector3))
    ensures r.1.x == point.x && r.1.z == point.z
    ensures !r.0 <==> lookup == (true, Unknown)
    ensures !r.0 ==> r.1 == point
    ensures !lookup.0 && 0.0 <= height ==> r == (true, point)
    ensures r.0 && 0.0 <= height ==> point.y - height <= r.1.y <= point.y + height
    ensures lookup.0 && lookup.1.Known? && point.y - height <= lookup.1.y <= point.y + height
      ==> r == (true, point.(y := lookup.1.y))
  {
    var h := if lookup.0 then lookup.1 else Known(point.y);
    match h
    case Unknown => (false, point)
    case Known(y) => (true, point.(y := Clamp(y, point.y - height, point.y + height)))
  }

  /** On a miss with a negative `height` the clamp still runs, and the point
      comes back lowered by `-height`. */
  lemma ResolveMissNegativeHeight(point: Vector3, height: real)
    requires height < 0.0
    ensures Resolve((false, Known(0.0)), point, height) == (true, point.(y := point.y + height))
  {
  }

  /** A cached height answers with that height, limited to the band. */
  lemma ResolveHit(point: Vector3, h: real, height: real)
    ensures Resolve((true, Known(h)), point, height) == (true, point.(y := Clamp(h, point.y - height, point.y + height)))
  {
  }

  /** The failing arm of `Raycast`: the height it goes on with is NaN. */
  lemma ResolveUnknown(lookup: (bool, Height), point: Vector3, height: real)
    requires (if lookup.0 then lookup.1 else Known(point.y)) == Unknown
    ensures Resolve(lookup, point, height) == (false, point)
  {
  }

  /** The succeeding arm of `Raycast`: the height it goes on with is `y`,
      which the two assignments clamp into the band. */
  lemma ResolveKnown(lookup: (bool, Height), point: Vector3, height: real, y: real)
    requires (if lookup.0 then lookup.1 else Known(point.y)) == Known(y)
    ensures Resolve(lookup, point, height) == (true, point.(y := Min(Max(y, point.y - height), point.y + height)))
  {
  }

  /** The cache after the worker has written `cast(p)` under `GetKey(p)` for
      each point `p` of `ps`, first to last. */
  function WriteAll(m: map<Key, Height>, ps: seq<Vector3>, cast: Vector3 -> Height): map<Key, Height>
    decreases |ps|
  {
    if |ps| == 0 then m else WriteAll(m[GetKey(ps[0]) := cast(ps[0])], ps[1..], cast)
  }

  /** Draining a queue whose head is `p` writes `p`'s entry first. */
  lemma WriteAllHead(m: map<Key, Height>, p: Vector3, rest: seq<Vector3>, cast: Vector3 -> Height)
    ensures WriteAll(m, [p] + rest, cast) == WriteAll(m[GetKey(p) := cast(p)], rest, cast)
  {
    assert ([p] + rest)[1..] == rest;
  }

  /** The drain adds exactly the keys of the points it raycasts. */
  lemma {:induction false} WriteAllKeys(m: map<Key, Height>, ps: seq<Vector3>, cast: Vector3 -> Height, k: Key)
    ensures k in WriteAll(m, ps, cast) <==> k in m || exists i :: 0 <= i < |ps| && GetKey(ps[i]) == k
    decreases |ps|
  {
    if |ps| > 0 {
      WriteAllKeys(m[GetKey(ps[0]) := cast(ps[0])], ps[1..], cast, k);
      if k != GetKey(ps[0]) && exists i :: 0 <= i < |ps| && GetKey(ps[i]) == k {
        var i :| 0 <= i < |ps| && GetKey(ps[i]) == k;
        assert GetKey(ps[1..][i - 1]) == k;
      }
      if exists i :: 0 <= i < |ps[1..]| && GetKey(ps[1..][i]) == k {
        var i :| 0 <= i < |ps[1..]| && GetKey(ps[1..][i]) == k;
        assert GetKey(ps[i + 1]) == k;
      }
    }
  }

  /** A key no queued point rounds to keeps its old entry. */
  lemma {:induction false} WriteAllUntouched(m: map<Key, Height>, ps: seq<Vector3>, cast: Vector3 -> Height, k: Key)
    requires forall i :: 0 <= i < |ps| ==> GetKey(ps[i]) != k
    requires k in m
    ensures k in WriteAll(m, ps, cast) && WriteAll(m, ps, cast)[k] == m[k]
    decreases |ps|
  {
    if |ps| > 0 {
      assert GetKey(ps[0]) != k;
      WriteAllUntouched(m[GetKey(ps[0]) := cast(ps[0])], ps[1..], cast, k);
    }
  }

  /** When several queued points round to the same key, the last one's
      raycast is what the cache keeps. */
  lemma {:induction false} WriteAllLastWins(m: map<Key, Height>, ps: seq<Vector3>, cast: Vector3 -> Height, i: nat)
    requires i < |ps|
    requires forall j :: i < j < |ps| ==> GetKey(ps[j]) != GetKey(ps[i])
    ensures GetKey(ps[i]) in WriteAll(m, ps, cast)
    ensures WriteAll(m, ps, cast)[GetKey(ps[i])] == cast(ps[i])
    decreases |ps|
  {
    var m' := m[GetKey(ps[0]) := cast(ps[0])];
    if i == 0 {
      forall j | 0 <= j < |ps[1..]|
        ensures GetKey(ps[1..][j]) != GetKey(ps[0])
      {
        assert ps[1..][j] == ps[j + 1];
      }
      WriteAllUntouched(m', ps[1..], cast, GetKey(ps[0]));
    } else {
      forall j | i - 1 < j < |ps[1..]|
        ensures GetKey(ps[1..][j]) != GetKey(ps[1..][i - 1])
      {
        assert ps[1..][j] == ps[j + 1];
      }
      WriteAllLastWins(m', ps[1..], cast, i - 1);
    }
  }

  /** Every entry of `after` is an entry of `before`, with the same value. */
  predicate Retains(before: map<Key, Height>, after: map<Key, Height>) {
    forall k :: k in after ==> k in before && after[k] == before[k]
  }

  /** No entry dropped between `before` and `after` is nearer to `anchor`
      than an entry kept. */
  predicate DropsFarthest(before: map<Key, Height>, after: map<Key, Height>, anchor: Key) {
    forall r, s :: r in before && r !in after && s in after ==> Dist2(s, anchor) <= Dist2(r, anchor)
  }

  /** Removing the farthest entry of `before` keeps both eviction
      invariants relative to `orig`. */
  lemma DropStep(orig: map<Key, Height>, before: map<Key, Height>, after: map<Key, Height>, far: Key, anchor: Key)
    requires Retains(orig, before) && DropsFarthest(orig, before, anchor)
    requires far in before && forall s :: s in before ==> Dist2(s, anchor) <= Dist2(far, anchor)
    requires after == before - {far}
    ensures Retains(orig, after) && DropsFarthest(orig, after, anchor)
  {
  }

  /** The key `Farthest` picks is as far from `anchor` as any stored key. */
  lemma FarthestStored(keys: seq<Key>, values: seq<Height>, f: nat, anchor: Key)
    requires |keys| == |values| && StrictlySorted(keys) && f < |keys|
    requires forall j :: 0 <= j < |keys| ==> Dist2(keys[j], anchor) <= Dist2(keys[f], anchor)
    ensures Distinct(keys) && keys[f] in MapOf(keys, values)
    ensures forall s :: s in MapOf(keys, values) ==> Dist2(s, anchor) <= Dist2(keys[f], anchor)
  {
    SortedIsDistinct(keys);
    forall s | s in MapOf(keys, values)
      ensures Dist2(s, anchor) <= Dist2(keys[f], anchor)
    {
      var j := IndexOf(keys, s);
    }
  }

  /** The manager's static state: the sorted list `_rayRelay` as its key and
      value arrays, the queue `_calculatingPts`, and the four flags. */
  class RaycastManager {
    var keys: seq<Key>
    var values: seq<Height>
    var pending: seq<Vector3>
    var canAdd: bool
    var lastCanAdd: bool
    var isUpdateRun: bool
    var isRaycastRun: bool

    /** `SortedList`'s invariant: parallel arrays, keys strictly ascending
        under the comparer. */
    predicate Valid()
      reads this
    {
      |keys| == |values| && StrictlySorted(keys)
    }

    /** The dictionary the sorted list stands for. */
    ghost function Contents(): map<Key, Height>
      reads this
      requires Valid()
    {
      SortedIsDistinct(keys);
      MapOf(keys, values)
    }

    /** The static initialisers: an empty cache and queue, every flag off. */
    constructor ()
      ensures Valid() && keys == [] && values == [] && Contents() == map[] && pending == []
      ensures !canAdd && !lastCanAdd && !isUpdateRun && !isRaycastRun
    {
      keys, values, pending := [], [], [];
      canAdd, lastCanAdd, isUpdateRun, isRaycastRun := false, false, false, false;
    }

    /** `GetHeight(xy, out height)`: the binary search over the key array,
        the probe at the insertion point modulo `Count`, and the three-unit
        acceptance test. */
    method GetHeight(xy: Key) returns (found: bool, height: Height)
      requires Valid()
      ensures (found, height) == Lookup(keys, values, xy)
      ensures xy in Contents() ==> found && height == Contents()[xy]
    {
      LookupContents(keys, values, xy);
      found, height := false, Known(0.0);
      if |keys| > 0 {
        var index := BinarySearch(keys, xy);
        if index < 0 {
          index := -1 - index;
        }
        ProbeIndex(index, |keys|);
        index := index % |keys|;
        if Dist2(keys[index], xy) > MaxProbeDist2 {
          return false, height;
        }
        return true, values[index];
      }
    }

    /** `_rayRelay[key] = value`: overwrite the value of a stored key, or
        insert the key at its insertion point. */
    method SetHeight(key: Key, value: Height)
      modifies this`keys, this`values
      requires Valid()
      ensures Valid()
      ensures Contents() == old(Contents())[key := value]
      ensures |keys| == |old(keys)| + (if key in old(keys) then 0 else 1)
    {
      var index := BinarySearch(keys, key);
      if index >= 0 {
        StoreOverwrite(keys, values, index, value);
        values := values[index := value];
      } else {
        var p := -1 - index;
        var keys', values' := keys[..p] + [key] + keys[p..], values[..p] + [value] + values[p..];
        StoreInsert(keys, values, key, value, keys', values');
        keys, values := keys', values';
      }
    }

    /** `_rayRelay.Remove(key)`: drop the entry of `key` if there is one. */
    method Remove(key: Key) returns (removed: bool)
      modifies this`keys, this`values
      requires Valid()
      ensures Valid()
      ensures removed == (key in old(Contents()))
      ensures Contents() == old(Contents()) - {key}
      ensures |keys| == |old(keys)| - (if removed then 1 else 0)
    {
      SortedIsDistinct(keys);
      var index := BinarySearch(keys, key);
      if index < 0 {
        return false;
      }
      var keys', values' := keys[..index] + keys[index + 1..], values[..index] + values[index + 1..];
      StoreRemove(keys, values, index, keys', values');
      keys, values := keys', values';
      return true;
    }

    /** The trim loop of the update task: while the cache holds more than
        `Capacity` entries, remove the one farthest from `anchor`. */
    method Evict(anchor: Key)
      modifies this`keys, this`values
      requires Valid()
      ensures Valid()
      ensures |keys| <= Capacity
      ensures |old(keys)| <= Capacity ==> keys == old(keys) && values == old(values)
      ensures |old(keys)| > Capacity ==> |keys| == Capacity
      ensures Retains(old(Contents()), Contents())
      ensures DropsFarthest(old(Contents()), Contents(), anchor)
    {
      while |keys| > Capacity
        invariant Valid()
        invariant |old(keys)| <= Capacity ==> keys == old(keys) && values == old(values)
        invariant |old(keys)| > Capacity ==> |keys| >= Capacity
        invariant Retains(old(Contents()), Contents())
        invariant DropsFarthest(old(Contents()), Contents(), anchor)
        decreases |keys|
      {
        var f := Farthest(keys, anchor);
        var far := keys[f];
        ghost var before := Contents();
        FarthestStored(keys, values, f, anchor);
        var removed := Remove(far);
        DropStep(old(Contents()), before, Contents(), far, anchor);
      }
    }

    /** The update task: trim the cache around the player when there is one,
        then run the two-tick gate: adding is allowed when the queue is
        empty, and `addPts` holds when it was also allowed on the previous
        tick. */
    method UpdateTask(player: Option<Vector3>) returns (addPts: bool)
      modifies this`keys, this`values, this`canAdd, this`lastCanAdd, this`isUpdateRun
      requires Valid()
      ensures Valid()
      ensures player.None? ==> keys == old(keys) && values == old(values)
      ensures player.Some? ==> |keys| <= Capacity
      ensures player.Some? && |old(keys)| > Capacity ==> |keys| == Capacity
      ensures |old(keys)| <= Capacity ==> keys == old(keys) && values == old(values)
      ensures Retains(old(Contents()), Contents())
      ensures player.Some? ==> DropsFarthest(old(Contents()), Contents(), GetKey(player.value))
      ensures canAdd == (|pending| == 0)
      ensures addPts == (canAdd && old(lastCanAdd))
      ensures lastCanAdd == canAdd
      ensures !isUpdateRun
    {
      if player.Some? {
        Evict(GetKey(player.value));
      }
      canAdd := |pending| == 0;
      addPts := canAdd && lastCanAdd;
      lastCanAdd := canAdd;
      isUpdateRun := false;
    }

    /** The framework's per-frame `Update` handler: start the update task
        unless one is still running. */
    method Update() returns (started: bool)
      modifies this`isUpdateRun
      ensures started == !old(isUpdateRun)
      ensures isUpdateRun
    {
      if isUpdateRun {
        return false;
      }
      isUpdateRun := true;
      return true;
    }

    /** `Dequeue(out vector)`: `TryDequeue` on the queue, yielding
        `default(Vector3)` when it is empty. */
    method Dequeue() returns (ok: bool, p: Vector3)
      modifies this`pending
      ensures ok == (|old(pending)| > 0)
      ensures ok ==> p == old(pending)[0] && pending == old(pending)[1..]
      ensures !ok ==> p == Zero3 && pending == old(pending)
    {
      if |pending| == 0 {
        return false, Zero3;
      }
      p := pending[0];
      pending := pending[1..];
      return true, p;
    }

    /** `RunRaycast`: start the raycast task unless one is still running. */
    method RunRaycast() returns (started: bool)
      modifies this`isRaycastRun
      ensures started == !old(isRaycastRun)
      ensures isRaycastRun
    {
      if isRaycastRun {
        return false;
      }
      isRaycastRun := true;
      return true;
    }

    /** The raycast task: drain the queue in FIFO order, storing the height
        `cast` finds under each point's key, then clear the running flag. */
    method RaycastTask(cast: Vector3 -> Height)
      modifies this`keys, this`values, this`pending, this`isRaycastRun
      requires Valid()
      ensures Valid()
      ensures Contents() == WriteAll(old(Contents()), old(pending), cast)
      ensures pending == [] && !isRaycastRun
    {
      var ok, p := Dequeue();
      while ok
        invariant Valid()
        invariant ok ==> WriteAll(Contents(), [p] + pending, cast) == WriteAll(old(Contents()), old(pending), cast)
        invariant !ok ==> pending == [] && Contents() == WriteAll(old(Contents()), old(pending), cast)
        decreases |pending| + (if ok then 1 else 0)
      {
        ghost var rest := pending;
        WriteAllHead(Contents(), p, rest, cast);
        SetHeight(GetKey(p), cast(p));
        ok, p := Dequeue();
        if ok {
          assert rest == [p] + pending;
        }
      }
      isRaycastRun := false;
    }

    /** `Raycast(point, height, out territoryPt)`: queue the point for the
        worker when adding is allowed, then answer from the cache as it is. */
    method Raycast(point: Vector3, height: real) returns (ok: bool, territoryPt: Vector3)
      modifies this`pending, this`isRaycastRun
      requires Valid()
      ensures (ok, territoryPt) == Resolve(Lookup(keys, values, GetKey(point)), point, height)
      ensures pending == if old(canAdd) then old(pending) + [point] else old(pending)
      ensures isRaycastRun == (old(isRaycastRun) || old(canAdd))
    {
      var xy := GetKey(point);
      territoryPt := point;
      if canAdd {
        pending := pending + [point];
        var started := RunRaycast();
      }
      var found, h := GetHeight(xy);
      ghost var lookup := (found, h);
      if !found {
        h := Known(territoryPt.y);
      }
      match h
      case Unknown =>
        ResolveUnknown(lookup, point, height);
        return false, territoryPt;
      case Known(y) =>
        territoryPt := territoryPt.(y := y);
        territoryPt := territoryPt.(y := Max(territoryPt.y, point.y - height));
        territoryPt := territoryPt.(y := Min(territoryPt.y, point.y + height));
        ResolveKnown(lookup, point, height, y);
        return true, territoryPt;
    }
  }

  /** A first query at a fresh point misses and, once a tick has opened the
      gate, queues the point; after the worker has drained the queue, the
      same query answers with the raycast height, clamped. */
  method EndToEnd(point: Vector3, h: real, height: real) returns (first: (bool, Vector3), second: (bool, Vector3))
    requires 0.0 <= height
    ensures first == (true, point)
    ensures second == (true, point.(y := Clamp(h, point.y - height, point.y + height)))
  {
    var cache := new RaycastManager();
    var started := cache.Update();
    var addPts := cache.UpdateTask(None);
    assert cache.keys == [] && cache.values == [] && cache.pending == [] && cache.canAdd;
    var ok, pt := cache.Raycast(point, height);
    first := (ok, pt);
    assert cache.pending == [point];
    cache.RaycastTask(p => Known(h));
    ghost var k := GetKey(point);
    assert cache.Contents() == map[k := Known(h)] by {
      assert WriteAll(map[], [point], p => Known(h)) == WriteAll(map[k := Known(h)], [], p => Known(h));
    }
    LookupContents(cache.keys, cache.values, k);
    ghost var look := Lookup(cache.keys, cache.values, k);
    assert look == (true, Known(h));
    ResolveHit(point, h, height);
    ok, pt := cache.Raycast(point, height);
    second := (ok, pt);
  }
}
