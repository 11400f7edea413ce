/** The ground-height store: a `SortedList<Vector2, float>` ordered by the
    key comparer, modelled as its two parallel arrays of keys and values,
    together with the searches the manager runs over them. */
module SortedHeights {
  import opened GridKeys

  /** A stored height: a ground height, or the NaN the raycast stores when
      it hits nothing. */
  datatype Height = Known(y: real) | Unknown

  /** The invariant of `SortedList`'s key array: strictly increasing, hence
      free of duplicates. */
  predicate StrictlySorted(ks: seq<Key>) {
    forall i, j :: 0 <= i < j < |ks| ==> LessAt(ks, i, j)
  }

  /** The key at `i` is below the key at `j`. Sortedness is stated through
      this predicate so that its quantifier is instantiated only where a
      proof names a pair of indices. */
  predicate LessAt(ks: seq<Key>, i: nat, j: nat)
    requires i < |ks| && j < |ks|
  {
    Less(ks[i], ks[j])
  }

  /** The insertion point of `k`: the number of leading keys below it. */
  function Position(ks: seq<Key>, k: Key): (p: nat)
    ensures p <= |ks|
    ensures forall j :: 0 <= j < p ==> Less(ks[j], k)
    ensures p < |ks| ==> !Less(ks[p], k)
  {
    if |ks| == 0 || !Less(ks[0], k) then 0 else 1 + Position(ks[1..], k)
  }

  /** The insertion point is the only index with the two properties above. */
  lemma PositionUnique(ks: seq<Key>, k: Key, p: nat)
    requires p <= |ks|
    requires forall j :: 0 <= j < p ==> Less(ks[j], k)
    requires p < |ks| ==> !Less(ks[p], k)
    ensures Position(ks, k) == p
  {
  }

  /** In a sorted key array every key from the insertion point on is at
      least `k`. */
  lemma {:induction false} PositionSplitsSorted(ks: seq<Key>, k: Key)
    requires StrictlySorted(ks)
    ensures forall j :: Position(ks, k) <= j < |ks| ==> !Less(ks[j], k)
  {
    var p := Position(ks, k);
    forall j | p < j < |ks|
      ensures !Less(ks[j], k)
    {
      assert LessAt(ks, p, j);
      CompareIsStrictTotalOrder(ks[p], ks[j], k);
    }
  }

  /** `Array.BinarySearch(keys, 0, Count, k, comparer)`: the index of `k`
      when it is stored, otherwise the complement (`-1 - i`) of its
      insertion point `i`. */
  method BinarySearch(ks: seq<Key>, k: Key) returns (index: int)
    requires StrictlySorted(ks)
    ensures 0 <= index ==> index < |ks| && ks[index] == k
    ensures index < 0 <==> k !in ks
    ensures index == if k in ks then Position(ks, k) else -1 - Position(ks, k)
  {
    var lo, hi := 0, |ks| - 1;
    while lo <= hi
      invariant 0 <= lo <= hi + 1 <= |ks|
      invariant forall j :: 0 <= j < lo ==> Less(ks[j], k)
      invariant forall j :: hi < j < |ks| ==> Less(k, ks[j])
    {
      var i := lo + (hi - lo) / 2;
      var order := Compare(ks[i], k);
      if order == 0 {
        forall j | lo <= j < i
          ensures Less(ks[j], k)
        {
          assert LessAt(ks, j, i);
        }
        PositionUnique(ks, k, i);
        return i;
      }
      if order < 0 {
        forall j | lo <= j <= i
          ensures Less(ks[j], k)
        {
          if j < i { assert LessAt(ks, j, i); }
          CompareIsStrictTotalOrder(ks[j], ks[i], k);
        }
        lo := i + 1;
      } else {
        forall j | i <= j <= hi
          ensures Less(k, ks[j])
        {
          if i < j { assert LessAt(ks, i, j); }
          CompareIsStrictTotalOrder(k, ks[i], ks[j]);
        }
        hi := i - 1;
      }
    }
    forall j | 0 <= j < |ks|
      ensures ks[j] != k
    {
      CompareIsStrictTotalOrder(ks[j], k, k);
    }
    PositionUnique(ks, k, lo);
    return -1 - lo;
  }

  /** No key occurs twice. */
  predicate Distinct(ks: seq<Key>) {
    forall i, j :: 0 <= i < j < |ks| ==> ks[i] != ks[j]
  }

  lemma SortedIsDistinct(ks: seq<Key>)
    requires StrictlySorted(ks)
    ensures Distinct(ks)
  {
    forall i, j | 0 <= i < j < |ks|
      ensures ks[i] != ks[j]
    {
      assert LessAt(ks, i, j);
      CompareIsStrictTotalOrder(ks[i], ks[j], ks[j]);
    }
  }

  /** The index of the first occurrence of a stored key. */
  function IndexOf(ks: seq<Key>, k: Key): (i: nat)
    requires k in ks
    ensures i < |ks| && ks[i] == k
    ensures forall j :: 0 <= j < i ==> ks[j] != k
  {
    if ks[0] == k then 0 else 1 + IndexOf(ks[1..], k)
  }

  /** The dictionary a key array without duplicates and its value array
      stand for. */
  function MapOf(ks: seq<Key>, vs: seq<Height>): (m: map<Key, Height>)
    requires |ks| == |vs| && Distinct(ks)
    ensures forall i :: 0 <= i < |ks| ==> ks[i] in m && m[ks[i]] == vs[i]
    ensures forall k :: k in m <==> k in ks
  {
    map k | k in ks :: vs[IndexOf(ks, k)]
  }

  /** `s'` is `s` with the element at `i` taken out. */
  predicate RemovedAt<T(==)>(s: seq<T>, i: nat, s': seq<T>) {
    && i < |s| && |s'| == |s| - 1
    && (forall j :: 0 <= j < i ==> s'[j] == s[j])
    && (forall j :: i <= j < |s'| ==> s'[j] == s[j + 1])
  }

  /** `s'` is `s` with `x` put in at index `p`. */
  predicate InsertedAt<T(==)>(s: seq<T>, p: nat, x: T, s': seq<T>) {
    && p <= |s| && |s'| == |s| + 1 && s'[p] == x
    && (forall j :: 0 <= j < p ==> s'[j] == s[j])
    && (forall j :: p < j < |s'| ==> s'[j] == s[j - 1])
  }

  lemma RemovedAtSlices<T>(s: seq<T>, i: nat)
    requires i < |s|
    ensures RemovedAt(s, i, s[..i] + s[i + 1..])
  {
  }

  lemma InsertedAtSlices<T>(s: seq<T>, p: nat, x: T)
    requires p <= |s|
    ensures InsertedAt(s, p, x, s[..p] + [x] + s[p..])
  {
  }

  lemma MapExtensionality(a: map<Key, Height>, b: map<Key, Height>)
    requires forall key :: key in a ==> key in b && a[key] == b[key]
    requires forall key :: key in b ==> key in a
    ensures a == b
  {
  }

  /** Overwriting the value at a stored key (the `SortedList` indexer when
      the key is found) changes that entry and no other. */
  lemma MapOfUpdate(ks: seq<Key>, vs: seq<Height>, p: nat, v: Height)
    requires |ks| == |vs| && Distinct(ks) && p < |ks|
    ensures MapOf(ks, vs[p := v]) == MapOf(ks, vs)[ks[p] := v]
  {
    var a, b := MapOf(ks, vs[p := v]), MapOf(ks, vs)[ks[p] := v];
    forall key | key in a
      ensures key in b && a[key] == b[key]
    {
      var j := IndexOf(ks, key);
    }
    MapExtensionality(a, b);
  }

  /** Inserting a new key at its insertion point keeps the keys sorted. */
  lemma InsertKeepsSorted(ks: seq<Key>, k: Key, ks': seq<Key>)
    requires StrictlySorted(ks) && k !in ks && InsertedAt(ks, Position(ks, k), k, ks')
    ensures StrictlySorted(ks')
  {
    var p := Position(ks, k);
    PositionSplitsSorted(ks, k);
    forall i, j | 0 <= i < j < |ks'|
      ensures LessAt(ks', i, j)
    {
      if j < p {
        assert LessAt(ks, i, j);
      } else if i > p {
        assert LessAt(ks, i - 1, j - 1);
      } else if i == p {
        assert ks'[j] == ks[j - 1];
        CompareIsStrictTotalOrder(k, ks[j - 1], k);
      } else if j == p {
        assert ks'[i] == ks[i];
      } else {
        assert ks'[i] == ks[i] && ks'[j] == ks[j - 1];
        assert LessAt(ks, i, j - 1);
      }
    }
  }

  lemma DistinctInserted(ks: seq<Key>, p: nat, k: Key, ks': seq<Key>)
    requires Distinct(ks) && k !in ks && InsertedAt(ks, p, k, ks')
    ensures Distinct(ks')
  {
    forall x, y | 0 <= x < y < |ks'|
      ensures ks'[x] != ks'[y]
    {
      if x != p && y != p {
        assert ks'[x] == ks[if x < p then x else x - 1];
        assert ks'[y] == ks[if y < p then y else y - 1];
      } else if x == p {
        assert ks'[y] == ks[y - 1];
      } else {
        assert ks'[x] == ks[x];
      }
    }
  }

  /** Inserting a new key (the `SortedList` indexer when the key is absent)
      adds exactly that entry. */
  lemma MapOfInsert(ks: seq<Key>, vs: seq<Height>, p: nat, k: Key, v: Height, ks': seq<Key>, vs': seq<Height>)
    requires |ks| == |vs| && Distinct(ks) && k !in ks
    requires InsertedAt(ks, p, k, ks') && InsertedAt(vs, p, v, vs')
    ensures Distinct(ks')
    ensures MapOf(ks', vs') == MapOf(ks, vs)[k := v]
  {
    DistinctInserted(ks, p, k, ks');
    InsertedEntriesKept(ks, vs, p, k, v, ks', vs');
    InsertedKeysPresent(ks, vs, p, k, v, ks', vs');
    MapExtensionality(MapOf(ks', vs'), MapOf(ks, vs)[k := v]);
  }

  lemma InsertedEntriesKept(ks: seq<Key>, vs: seq<Height>, p: nat, k: Key, v: Height, ks': seq<Key>, vs': seq<Height>)
    requires |ks| == |vs| && Distinct(ks) && Distinct(ks') && k !in ks
    requires InsertedAt(ks, p, k, ks') && InsertedAt(vs, p, v, vs')
    ensures forall key :: key in MapOf(ks', vs') ==> key in MapOf(ks, vs)[k := v] && MapOf(ks', vs')[key] == MapOf(ks, vs)[k := v][key]
  {
    var a, b := MapOf(ks', vs'), MapOf(ks, vs)[k := v];
    forall key | key in a
      ensures key in b && a[key] == b[key]
    {
      var j := IndexOf(ks', key);
      if j < p {
        assert ks'[j] == ks[j] && vs'[j] == vs[j];
      } else if j > p {
        assert ks'[j] == ks[j - 1] && vs'[j] == vs[j - 1];
      }
    }
  }

  lemma InsertedKeysPresent(ks: seq<Key>, vs: seq<Height>, p: nat, k: Key, v: Height, ks': seq<Key>, vs': seq<Height>)
    requires |ks| == |vs| && Distinct(ks) && Distinct(ks') && k !in ks
    requires InsertedAt(ks, p, k, ks') && InsertedAt(vs, p, v, vs')
    ensures forall key :: key in MapOf(ks, vs)[k := v] ==> key in MapOf(ks', vs')
  {
    forall key | key in MapOf(ks, vs)[k := v]
      ensures key in MapOf(ks', vs')
    {
      if key != k {
        var j := IndexOf(ks, key);
        if j < p {
          assert ks'[j] == key;
        } else {
          assert ks'[j + 1] == key;
        }
      }
    }
  }

  /** Removing an entry keeps the keys sorted. */
  lemma RemoveKeepsSorted(ks: seq<Key>, i: nat, ks': seq<Key>)
    requires StrictlySorted(ks) && RemovedAt(ks, i, ks')
    ensures StrictlySorted(ks')
  {
    forall a, b | 0 <= a < b < |ks'|
      ensures LessAt(ks', a, b)
    {
      var a0, b0 := if a < i then a else a + 1, if b < i then b else b + 1;
      assert ks'[a] == ks[a0] && ks'[b] == ks[b0];
      assert LessAt(ks, a0, b0);
    }
  }

  lemma DistinctRemoved(ks: seq<Key>, i: nat, ks': seq<Key>)
    requires Distinct(ks) && RemovedAt(ks, i, ks')
    ensures Distinct(ks')
  {
    forall x, y | 0 <= x < y < |ks'|
      ensures ks'[x] != ks'[y]
    {
      assert ks'[x] == ks[if x < i then x else x + 1];
      assert ks'[y] == ks[if y < i then y else y + 1];
    }
  }

  /** Removing the entry at index `i` (`SortedList.RemoveAt`) drops exactly
      that key. */
  lemma MapOfRemove(ks: seq<Key>, vs: seq<Height>, i: nat, ks': seq<Key>, vs': seq<Height>)
    requires |ks| == |vs| && Distinct(ks) && RemovedAt(ks, i, ks') && RemovedAt(vs, i, vs')
    ensures Distinct(ks')
    ensures MapOf(ks', vs') == MapOf(ks, vs) - {ks[i]}
  {
    DistinctRemoved(ks, i, ks');
    var a, b := MapOf(ks', vs'), MapOf(ks, vs) - {ks[i]};
    forall key | key in a
      ensures key in b && a[key] == b[key]
    {
      var j := IndexOf(ks', key);
      if j < i {
        assert ks'[j] == ks[j] && vs'[j] == vs[j];
      } else {
        assert ks'[j] == ks[j + 1] && vs'[j] == vs[j + 1];
      }
    }
    forall key | key in b
      ensures key in a
    {
      var j := IndexOf(ks, key);
      if j < i {
        assert ks'[j] == key;
      } else {
        assert j != i;
        assert ks'[j - 1] == key;
      }
    }
    MapExtensionality(a, b);
  }

  /** The `SortedList` indexer on a stored key, on the two arrays. */
  lemma StoreOverwrite(ks: seq<Key>, vs: seq<Height>, i: nat, v: Height)
    requires |ks| == |vs| && StrictlySorted(ks) && i < |ks|
    ensures Distinct(ks)
    ensures MapOf(ks, vs[i := v]) == MapOf(ks, vs)[ks[i] := v]
  {
    SortedIsDistinct(ks);
    MapOfUpdate(ks, vs, i, v);
  }

  /** The `SortedList` indexer on a new key: both arrays opened at the
      insertion point. */
  lemma StoreInsert(ks: seq<Key>, vs: seq<Height>, k: Key, v: Height, ks': seq<Key>, vs': seq<Height>)
    requires |ks| == |vs| && StrictlySorted(ks) && k !in ks
    requires ks' == ks[..Position(ks, k)] + [k] + ks[Position(ks, k)..]
    requires vs' == vs[..Position(ks, k)] + [v] + vs[Position(ks, k)..]
    ensures |ks'| == |vs'| && StrictlySorted(ks')
    ensures Distinct(ks) && Distinct(ks')
    ensures MapOf(ks', vs') == MapOf(ks, vs)[k := v]
  {
    var p := Position(ks, k);
    SortedIsDistinct(ks);
    InsertedAtSlices(ks, p, k);
    InsertedAtSlices(vs, p, v);
    InsertKeepsSorted(ks, k, ks');
    MapOfInsert(ks, vs, p, k, v, ks', vs');
  }

  /** `SortedList.RemoveAt`: both arrays closed over index `i`. */
  lemma StoreRemove(ks: seq<Key>, vs: seq<Height>, i: nat, ks': seq<Key>, vs': seq<Height>)
    requires |ks| == |vs| && StrictlySorted(ks) && i < |ks|
    requires ks' == ks[..i] + ks[i + 1..] && vs' == vs[..i] + vs[i + 1..]
    ensures |ks'| == |vs'| && StrictlySorted(ks')
    ensures Distinct(ks) && Distinct(ks')
    ensures MapOf(ks', vs') == MapOf(ks, vs) - {ks[i]}
  {
    SortedIsDistinct(ks);
    RemovedAtSlices(ks, i);
    RemovedAtSlices(vs, i);
    RemoveKeepsSorted(ks, i, ks');
    MapOfRemove(ks, vs, i, ks', vs');
  }

  /** The probe index of `GetHeight`: an insertion point taken modulo
      `Count`. */
  lemma ProbeIndex(p: nat, n: nat)
    requires p <= n && 0 < n
    ensures p % n == if p == n then 0 else p
  {
  }

  /** `GetHeight(xy, out height)` on the key and value arrays: on an empty
      cache, `false` with height 0; otherwise the one key at the insertion
      point of `k`, taken modulo `Count` (so past the last key the probe
      wraps to the first), is accepted when it lies within three units. */
  function Lookup(ks: seq<Key>, vs: seq<Height>, k: Key): (r: (bool, Height))
    requires |ks| == |vs|
    ensures !r.0 ==> r.1 == Known(0.0)
    ensures r.0 ==> exists i :: 0 <= i < |ks| && Dist2(ks[i], k) <= MaxProbeDist2 && vs[i] == r.1
    ensures |ks| == 0 ==> !r.0
  {
    if |ks| == 0 then (false, Known(0.0))
    else
      var i := Position(ks, k) % |ks|;
      if Dist2(ks[i], k) > MaxProbeDist2 then (false, Known(0.0)) else (true, vs[i])
  }

  /** In a sorted key array a stored key's insertion point is its index. */
  lemma PositionOfStored(ks: seq<Key>, j: nat)
    requires StrictlySorted(ks) && j < |ks|
    ensures Position(ks, ks[j]) == j
  {
    var k := ks[j];
    CompareIsStrictTotalOrder(k, k, k);
    forall i | 0 <= i < j
      ensures Less(ks[i], k)
    {
      assert LessAt(ks, i, j);
    }
    PositionUnique(ks, k, j);
  }

  /** When the insertion point lies inside the array, the lookup probes
      exactly the key there. */
  lemma LookupProbesPosition(ks: seq<Key>, vs: seq<Height>, k: Key)
    requires |ks| == |vs| && Position(ks, k) < |ks|
    ensures var p := Position(ks, k);
      Lookup(ks, vs, k) == if Dist2(ks[p], k) > MaxProbeDist2 then (false, Known(0.0)) else (true, vs[p])
  {
    ModOfSmaller(Position(ks, k), |ks|);
  }

  lemma ModOfSmaller(p: nat, n: nat)
    requires p < n
    ensures p % n == p
  {
  }

  /** A key that is stored is found, with its own value. */
  lemma LookupStored(ks: seq<Key>, vs: seq<Height>, j: nat)
    requires |ks| == |vs| && StrictlySorted(ks) && j < |ks|
    ensures Lookup(ks, vs, ks[j]) == (true, vs[j])
  {
    PositionOfStored(ks, j);
    LookupProbesPosition(ks, vs, ks[j]);
    assert Dist2(ks[j], ks[j]) == 0;
  }

  /** The lookup agrees with the dictionary view on every stored key. */
  lemma LookupContents(ks: seq<Key>, vs: seq<Height>, k: Key)
    requires |ks| == |vs| && StrictlySorted(ks)
    ensures Distinct(ks)
    ensures k in MapOf(ks, vs) ==> Lookup(ks, vs, k) == (true, MapOf(ks, vs)[k])
  {
    SortedIsDistinct(ks);
    if k in MapOf(ks, vs) {
      LookupStored(ks, vs, IndexOf(ks, k));
    }
  }

  /** A key above every stored key probes the first stored key. */
  lemma LookupWrapsAround(ks: seq<Key>, vs: seq<Height>, k: Key)
    requires |ks| == |vs| && 0 < |ks|
    requires forall i :: 0 <= i < |ks| ==> Less(ks[i], k)
    ensures Lookup(ks, vs, k) == if Dist2(ks[0], k) > MaxProbeDist2 then (false, Known(0.0)) else (true, vs[0])
  {
    PositionUnique(ks, k, |ks|);
  }

  /** With no stored key within three units the lookup misses. */
  lemma LookupFarMisses(ks: seq<Key>, vs: seq<Height>, k: Key)
    requires |ks| == |vs|
    requires forall i :: 0 <= i < |ks| ==> Dist2(ks[i], k) > MaxProbeDist2
    ensures Lookup(ks, vs, k) == (false, Known(0.0))
  {
  }

  /** The lookup is approximate: it inspects one neighbour in the sort order
      only, so it can miss a key that lies within three units. */
  lemma LookupCanMissNearKey()
    ensures StrictlySorted([Key(0, 0), Key(1000, 1000)])
    ensures Dist2(Key(0, 0), Key(25, 0)) <= MaxProbeDist2
    ensures Lookup([Key(0, 0), Key(1000, 1000)], [Known(1.0), Known(2.0)], Key(25, 0)) == (false, Known(0.0))
  {
    PositionUnique([Key(0, 0), Key(1000, 1000)], Key(25, 0), 1);
  }

  /** `Enumerable.MaxBy(p => Vector2.Distance(p.Key, anchor))`: the first
      entry at the greatest distance from `anchor`. */
  method Farthest(ks: seq<Key>, anchor: Key) returns (f: nat)
    requires |ks| > 0
    ensures f < |ks|
    ensures forall j :: 0 <= j < |ks| ==> Dist2(ks[j], anchor) <= Dist2(ks[f], anchor)
    ensures forall j :: 0 <= j < f ==> Dist2(ks[j], anchor) < Dist2(ks[f], anchor)
  {
    f := 0;
    var best := Dist2(ks[0], anchor);
    var i := 1;
    while i < |ks|
      invariant 1 <= i <= |ks| && f < i
      invariant best == Dist2(ks[f], anchor)
      invariant forall j :: 0 <= j < i ==> Dist2(ks[j], anchor) <= best
      invariant forall j :: 0 <= j < f ==> Dist2(ks[j], anchor) < best
    {
      var d := Dist2(ks[i], anchor);
      if d > best {
        f, best := i, d;
      }
      i := i + 1;
    }
  }
}
