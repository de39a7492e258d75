/** A JavaScript Map: one value a key, listed in the order keys were first set. */
module OrderedMaps {
  import opened Outcomes

  type Entries<K, V> = seq<(K, V)>

  function Get<K(==), V>(m: Entries<K, V>, k: K): Option<V> {
    if m == [] then None else if m[0].0 == k then Some(m[0].1) else Get(m[1..], k)
  }

  /** A key that is already there keeps its place. */
  function Put<K(==), V>(m: Entries<K, V>, k: K, v: V): Entries<K, V> {
    if m == [] then [(k, v)]
    else if m[0].0 == k then [(k, v)] + m[1..]
    else [m[0]] + Put(m[1..], k, v)
  }

  function Drop<K(==), V>(m: Entries<K, V>, k: K): Entries<K, V> {
    if m == [] then [] else (if m[0].0 == k then [] else [m[0]]) + Drop(m[1..], k)
  }

  function MapValues<K, V, W>(f: V -> W, m: Entries<K, V>): (n: Entries<K, W>)
    ensures |n| == |m| && forall i :: 0 <= i < |m| ==> n[i] == (m[i].0, f(m[i].1))
  {
    seq(|m|, i requires 0 <= i < |m| => (m[i].0, f(m[i].1)))
  }

  ghost predicate Unique<K, V>(m: Entries<K, V>) {
    forall i, j :: 0 <= i < j < |m| ==> m[i].0 != m[j].0
  }

  predicate Has<K(==), V>(m: Entries<K, V>, k: K) {
    Get(m, k).Some?
  }

  // ---- Reading back ------------------------------------------------------------------

  lemma {:induction false} GetPut<K, V>(m: Entries<K, V>, k: K, v: V, other: K)
    ensures Get(Put(m, k, v), other) == if other == k then Some(v) else Get(m, other)
  {
    if m != [] && m[0].0 != k {
      GetPut(m[1..], k, v, other);
    }
  }

  lemma {:induction false} GetDrop<K, V>(m: Entries<K, V>, k: K, other: K)
    ensures Get(Drop(m, k), other) == if other == k then None else Get(m, other)
  {
    if m != [] {
      GetDrop(m[1..], k, other);
      assert m[0].0 == k ==> Drop(m, k) == Drop(m[1..], k);
    }
  }

  lemma {:induction false} PutTwice<K, V>(m: Entries<K, V>, k: K, v: V, w: V)
    ensures Put(Put(m, k, v), k, w) == Put(m, k, w)
  {
    if m != [] && m[0].0 != k {
      PutTwice(m[1..], k, v, w);
    }
  }

  lemma {:induction false} DropPut<K, V>(m: Entries<K, V>, k: K, v: V)
    ensures Drop(Put(m, k, v), k) == Drop(m, k)
  {
    if m != [] && m[0].0 != k {
      DropPut(m[1..], k, v);
    }
  }

  lemma {:induction false} GetMember<K, V>(m: Entries<K, V>, k: K)
    ensures forall i :: 0 <= i < |m| && m[i].0 == k ==> Get(m, k).Some?
    ensures Get(m, k).Some? ==> (k, Get(m, k).value) in m
  {
    if m != [] && m[0].0 != k {
      GetMember(m[1..], k);
      assert forall i :: 1 <= i < |m| ==> m[i] == m[1..][i - 1];
    }
  }

  /** With unique keys every entry is found. */
  lemma {:induction false} GetAt<K, V>(m: Entries<K, V>, i: nat)
    requires Unique(m) && i < |m|
    ensures Get(m, m[i].0) == Some(m[i].1)
  {
    if i != 0 {
      assert m[0].0 != m[i].0;
      UniqueTail(m);
      GetAt(m[1..], i - 1);
    }
  }

  // ---- Unique keys -------------------------------------------------------------------

  lemma UniqueTail<K, V>(m: Entries<K, V>)
    requires Unique(m) && m != []
    ensures Unique(m[1..])
  {
  }

  lemma {:induction false} PutMembers<K, V>(m: Entries<K, V>, k: K, v: V)
    ensures forall e :: e in Put(m, k, v) ==> e == (k, v) || e in m
  {
    if m != [] && m[0].0 != k {
      PutMembers(m[1..], k, v);
    }
  }

  lemma {:induction false} DropMembers<K, V>(m: Entries<K, V>, k: K)
    ensures forall e :: e in Drop(m, k) ==> e in m && e.0 != k
  {
    if m != [] {
      DropMembers(m[1..], k);
    }
  }

  lemma UniqueCons<K, V>(e: (K, V), m: Entries<K, V>)
    requires Unique(m) && forall d :: d in m ==> d.0 != e.0
    ensures Unique([e] + m)
  {
  }

  lemma HeadIsAlone<K, V>(m: Entries<K, V>)
    requires Unique(m) && m != []
    ensures Unique(m[1..]) && forall d :: d in m[1..] ==> d.0 != m[0].0
  {
  }

  lemma {:induction false} PutStaysUnique<K, V>(m: Entries<K, V>, k: K, v: V)
    requires Unique(m)
    ensures Unique(Put(m, k, v))
  {
    if m != [] {
      HeadIsAlone(m);
      if m[0].0 == k {
        UniqueCons((k, v), m[1..]);
      } else {
        PutStaysUnique(m[1..], k, v);
        PutMembers(m[1..], k, v);
        UniqueCons(m[0], Put(m[1..], k, v));
      }
    }
  }

  lemma {:induction false} DropStaysUnique<K, V>(m: Entries<K, V>, k: K)
    requires Unique(m)
    ensures Unique(Drop(m, k))
  {
    if m != [] {
      HeadIsAlone(m);
      DropStaysUnique(m[1..], k);
      DropMembers(m[1..], k);
      if m[0].0 == k {
        assert Drop(m, k) == Drop(m[1..], k);
      } else {
        UniqueCons(m[0], Drop(m[1..], k));
      }
    }
  }

  lemma {:induction false} DropAbsent<K, V>(m: Entries<K, V>, k: K)
    requires forall d :: d in m ==> d.0 != k
    ensures Drop(m, k) == m
  {
    if m != [] {
      DropAbsent(m[1..], k);
    }
  }

  lemma {:induction false} DropConcat<K, V>(a: Entries<K, V>, b: Entries<K, V>, k: K)
    ensures Drop(a + b, k) == Drop(a, k) + Drop(b, k)
  {
    if a == [] {
      assert a + b == b;
    } else {
      assert (a + b)[1..] == a[1..] + b;
      DropConcat(a[1..], b, k);
    }
  }

  // ---- Values seen through a function --------------------------------------------------

  lemma {:induction false} GetMapped<K, V, W>(f: V -> W, m: Entries<K, V>, k: K)
    ensures Get(MapValues(f, m), k) == match Get(m, k) { case None => None case Some(v) => Some(f(v)) }
  {
    if m != [] {
      MapTail(f, m);
      GetMapped(f, m[1..], k);
    }
  }

  lemma MapTail<K, V, W>(f: V -> W, m: Entries<K, V>)
    requires m != []
    ensures MapValues(f, m) == [(m[0].0, f(m[0].1))] + MapValues(f, m[1..])
    ensures MapValues(f, m)[1..] == MapValues(f, m[1..])
  {
  }

  lemma {:induction false} PutMapped<K, V, W>(f: V -> W, m: Entries<K, V>, k: K, v: V)
    ensures Put(MapValues(f, m), k, f(v)) == MapValues(f, Put(m, k, v))
  {
    if m != [] {
      MapTail(f, m);
      MapTail(f, Put(m, k, v));
      PutMapped(f, m[1..], k, v);
    }
  }

  lemma {:induction false} DropMapped<K, V, W>(f: V -> W, m: Entries<K, V>, k: K)
    ensures Drop(MapValues(f, m), k) == MapValues(f, Drop(m, k))
  {
    if m != [] {
      MapTail(f, m);
      DropMapped(f, m[1..], k);
      if m[0].0 != k {
        MapTail(f, Drop(m, k));
        assert Drop(m, k)[1..] == Drop(m[1..], k);
      } else {
        assert Drop(m, k) == Drop(m[1..], k);
      }
    }
  }
}
