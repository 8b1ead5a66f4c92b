/** Results that may be missing, and results that may be refused. */
module Wrappers {
  datatype Option<+T> = None | Some(value: T) {
    function GetOr(default: T): T {
      match this
      case Some(v) => v
      case None => default
    }
  }

  datatype Result<+T, +E> = Ok(value: T) | Err(error: E)

  /** The value stored under `k`, or None. */
  function Lookup<K, V>(m: map<K, V>, k: K): Option<V> {
    if k in m then Some(m[k]) else None
  }

  lemma SameLookups<K(!new), V>(a: map<K, V>, b: map<K, V>)
    requires forall k :: Lookup(a, k) == Lookup(b, k)
    ensures a == b
  {
    assert forall k :: k in a <==> Lookup(a, k).Some?;
    assert forall k :: k in b <==> Lookup(b, k).Some?;
    assert forall k :: k in a ==> Lookup(a, k) == Some(a[k]) == Lookup(b, k) == Some(b[k]);
  }

  lemma LookupUpdated<K, V>(m: map<K, V>, k: K, v: V, other: K)
    ensures Lookup(m[k := v], other) == if other == k then Some(v) else Lookup(m, other)
  {
  }

  /** How many of `s` a loop has passed when `todo` is still ahead. */
  ghost function Count<T>(s: set<T>, todo: set<T>): nat {
    |s - todo|
  }

  lemma CountStep<T>(s: set<T>, todo: set<T>, name: T)
    requires name in todo
    ensures Count(s, todo - {name}) == Count(s, todo) + if name in s then 1 else 0
  {
    assert s - (todo - {name}) == (s - todo) + if name in s then {name} else {};
  }

  lemma CountEnds<T>(s: set<T>, todo: set<T>)
    requires s <= todo
    ensures Count(s, todo) == 0 && Count(s, {}) == |s|
  {
    assert s - todo == {} && s - {} == s;
  }

  lemma TakeDrop<T>(s: seq<T>, j: nat)
    requires j <= |s|
    ensures s[..j] + s[j..] == s
  {
  }

  lemma Associate<T>(a: seq<T>, b: seq<T>, c: seq<T>)
    ensures (a + b) + c == a + (b + c)
  {
  }
}
