/**
 * The mutable collections that the Python and Java implementations pass by reference:
 * a set of tiles (Python `set`) and a map keyed by tile (Python `dict`, Java `HashMap`).
 * Their mutations are visible to the caller, which is the point of the destructive
 * neighbour search.
 */
module Containers {
  import opened Wrappers
  import opened Grid

  class TileSet {
    var elems: set<Tile>

    constructor (elems: set<Tile>)
      ensures this.elems == elems
    {
      this.elems := elems;
    }

    /** `set.pop()`: removes and returns an unspecified element. */
    method Pop() returns (t: Tile)
      requires elems != {}
      modifies this
      ensures t in old(elems)
      ensures elems == old(elems) - {t}
    {
      t :| t in elems;
      elems := elems - {t};
    }

    /** `set.remove(t)` on a present element. */
    method Remove(t: Tile)
      requires t in elems
      modifies this
      ensures elems == old(elems) - {t}
    {
      elems := elems - {t};
    }
  }

  class TileMap<V> {
    var entries: map<Tile, V>

    constructor (entries: map<Tile, V>)
      ensures this.entries == entries
    {
      this.entries := entries;
    }

    /** `dict.popitem()` or an iterator's `remove()` on the first entry: takes out an unspecified entry. */
    method PopItem() returns (k: Tile, v: V)
      requires entries != map[]
      modifies this
      ensures k in old(entries) && v == old(entries)[k]
      ensures entries == old(entries) - {k}
    {
      k :| k in entries;
      v := entries[k];
      entries := entries - {k};
    }

    /** Java's `Map.remove(k)`: takes the key out and returns its old value, or `null` when absent. */
    method Remove(k: Tile) returns (previous: Option<V>)
      modifies this
      ensures k in old(entries) ==> previous == Some(old(entries)[k])
      ensures k !in old(entries) ==> previous == None
      ensures entries == old(entries) - {k}
    {
      previous := if k in entries then Some(entries[k]) else None;
      entries := entries - {k};
    }

    /** `del m[k]` or `remove(k)` on a present key. */
    method Delete(k: Tile)
      requires k in entries
      modifies this
      ensures entries == old(entries) - {k}
    {
      entries := entries - {k};
    }
  }

  /** The entries of `m` whose value `drop` does not reject. */
  ghost function Kept<V>(m: map<Tile, V>, drop: V -> bool): map<Tile, V>
  {
    map t | t in m && !drop(m[t]) :: m[t]
  }

  /** The map while `removeIf` is under way: the keys in `done` have been looked at. */
  ghost function KeptAmong<V>(m: map<Tile, V>, drop: V -> bool, done: set<Tile>): (r: map<Tile, V>)
    ensures done == {} ==> r == m
    ensures done == m.Keys ==> r == Kept(m, drop)
  {
    map t | t in m && (t !in done || !drop(m[t])) :: m[t]
  }

  lemma KeptAmongStep<V>(m: map<Tile, V>, drop: V -> bool, items: set<Tile>, k: Tile)
    requires k in items && items <= m.Keys
    ensures KeptAmong(m, drop, m.Keys - (items - {k}))
         == if drop(m[k]) then KeptAmong(m, drop, m.Keys - items) - {k} else KeptAmong(m, drop, m.Keys - items)
  {
    assert m.Keys - (items - {k}) == (m.Keys - items) + {k};
  }

  /**
   * Java's `m.values().removeIf(drop)` on a map the caller owns: every entry whose value
   * `drop` accepts is taken out, in the map's own (unspecified) order.
   */
  method RemoveIf<V>(m: map<Tile, V>, drop: V -> bool) returns (r: map<Tile, V>)
    ensures r == Kept(m, drop)
  {
    r := m;
    var items := m.Keys;
    while items != {}
      invariant items <= m.Keys
      invariant r == KeptAmong(m, drop, m.Keys - items)
      decreases |items|
    {
      var k :| k in items;
      KeptAmongStep(m, drop, items, k);
      if drop(r[k]) {
        r := r - {k};
      }
      items := items - {k};
    }
    assert m.Keys - items == m.Keys;
  }
}
