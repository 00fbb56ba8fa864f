/** The slot arena the network keeps its tensors and ops in, seen only
    through what the network relies on: `insert` hands back a handle that
    names no live entry, `get` and `remove` fail on a handle that does.
    Handles are `nat`; the arena never hands out the same handle twice,
    as a generational index does. */
module Arenas {
  import opened Results

  datatype Arena<T> = Arena(entries: map<nat, T>, next: nat)

  function EmptyArena<T>(): (a: Arena<T>)
    ensures a.entries == map[] && Valid(a)
  {
    Arena(map[], 0)
  }

  /** Every live handle is below the next one to be handed out. */
  ghost predicate Valid<T>(a: Arena<T>)
  {
    forall h :: h in a.entries ==> h < a.next
  }

  /** Stores `x` under a handle no live entry uses. */
  function Insert<T>(a: Arena<T>, x: T): (r: (Arena<T>, nat))
    requires Valid(a)
    ensures r.1 !in a.entries
    ensures r.0.entries == a.entries[r.1 := x]
    ensures Valid(r.0)
  {
    (Arena(a.entries[a.next := x], a.next + 1), a.next)
  }

  function Get<T>(a: Arena<T>, h: nat): (r: Option<T>)
    ensures r.Some? <==> h in a.entries
    ensures r.Some? ==> r.value == a.entries[h]
  {
    if h in a.entries then Some(a.entries[h]) else None
  }

  /** Takes the entry out; fails on a handle with no live entry. */
  function Remove<T>(a: Arena<T>, h: nat): (r: (Arena<T>, Option<T>))
    ensures r.1.Some? <==> h in a.entries
    ensures r.1.Some? ==> r.1.value == a.entries[h]
    ensures r.0.entries == a.entries - {h}
  {
    if h in a.entries then (a.(entries := a.entries - {h}), Some(a.entries[h]))
    else (a, None)
  }

  lemma RemoveValid<T>(a: Arena<T>, h: nat)
    requires Valid(a)
    ensures Valid(Remove(a, h).0)
  {
  }

  /** What was inserted can be read back under its handle, and the other
      entries read as before. */
  lemma GetInsert<T>(a: Arena<T>, x: T, h: nat)
    requires Valid(a)
    ensures var (b, k) := Insert(a, x);
      Get(b, h) == if h == k then Some(x) else Get(a, h)
  {
  }

  /** Removing what was just inserted gives it back and leaves the live
      entries as they were. */
  lemma RemoveInsert<T>(a: Arena<T>, x: T)
    requires Valid(a)
    ensures var (b, k) := Insert(a, x);
      Remove(b, k).1 == Some(x) && Remove(b, k).0.entries == a.entries
  {
    var (b, k) := Insert(a, x);
    assert b.entries - {k} == a.entries;
  }

  /** A removed handle is never handed out again: a later insert picks a
      different one. */
  lemma InsertAfterRemove<T>(a: Arena<T>, x: T, h: nat)
    requires Valid(a) && h in a.entries
    ensures Insert(Remove(a, h).0, x).1 != h
  {
  }
}
