/** Enumerations of finite sets and maps, in an order the model does not fix
    (the reply order of a server, the order of a directory listing). */
module Collections {

  ghost predicate Distinct<T>(xs: seq<T>) {
    forall i, j :: 0 <= i < j < |xs| ==> xs[i] != xs[j]
  }

  /** `xs` lists every element of `s` exactly once. */
  ghost predicate Enumerates<T(!new)>(xs: seq<T>, s: set<T>) {
    Distinct(xs) && (forall x :: x in xs <==> x in s)
  }

  /** The values of `m` read in the order `keys`. */
  function ValuesAt<K, V>(m: map<K, V>, keys: seq<K>): (vs: seq<V>)
    requires forall k :: k in keys ==> k in m
    ensures |vs| == |keys|
    ensures forall j :: 0 <= j < |keys| ==> vs[j] == m[keys[j]]
  {
    if keys == [] then [] else [m[keys[0]]] + ValuesAt(m, keys[1..])
  }

  /** Reading one more key appends its value. */
  lemma ValuesAtSnoc<K, V>(m: map<K, V>, keys: seq<K>, k: K)
    requires forall x :: x in keys ==> x in m
    requires k in m
    ensures ValuesAt(m, keys + [k]) == ValuesAt(m, keys) + [m[k]]
  {
  }

  /** The values read after one more key of `keys`. */
  lemma ValuesAtPrefix<K, V>(m: map<K, V>, keys: seq<K>, n: nat)
    requires n < |keys| && forall x :: x in keys ==> x in m
    ensures ValuesAt(m, keys[..n + 1]) == ValuesAt(m, keys[..n]) + [m[keys[n]]]
  {
    assert keys[..n + 1] == keys[..n] + [keys[n]];
    ValuesAtSnoc(m, keys[..n], keys[n]);
  }

  /** Two maps with the same keys and the same values are equal. */
  lemma SameEntries<K, V>(a: map<K, V>, b: map<K, V>)
    requires forall k :: k in a <==> k in b
    requires forall k | k in a :: a[k] == b[k]
    ensures a == b
  {
  }

  /** Lists a finite set in some order. */
  method Enumerate<T(==,!new)>(s: set<T>) returns (xs: seq<T>)
    ensures Enumerates(xs, s)
    ensures |xs| == |s|
  {
    xs := [];
    var rest := s;
    while rest != {}
      invariant rest <= s
      invariant Distinct(xs)
      invariant forall x :: x in xs <==> x in s && x !in rest
      invariant |xs| + |rest| == |s|
      decreases |rest|
    {
      var x :| x in rest;
      xs := xs + [x];
      rest := rest - {x};
    }
  }

  /** Moving one element from one part of a partition to the other. */
  lemma MoveOne<T>(done: set<T>, todo: set<T>, all: set<T>, x: T)
    requires done + todo == all && done !! todo && x in todo
    ensures (done + {x}) + (todo - {x}) == all && (done + {x}) !! (todo - {x})
  {
  }

  /** An element other than d is in a exactly when it is in b, when b is a
      minus at most d. */
  lemma KeptMember<T>(a: set<T>, b: set<T>, d: T, x: T)
    requires b <= a && a - b <= {d} && x != d
    ensures x in a <==> x in b
  {
    assert x !in a - b;
  }

  /** A key outside `keys` does not change the values read at `keys`. */
  lemma ValuesAtFresh<K, V>(m: map<K, V>, keys: seq<K>, k: K, v: V)
    requires forall x :: x in keys ==> x in m
    requires k !in keys
    ensures ValuesAt(m[k := v], keys) == ValuesAt(m, keys)
  {
  }

  lemma Regroup3<T>(a: seq<T>, b: seq<T>, c: seq<T>, d: seq<T>)
    ensures a + b + c + d == a + (b + c + d)
  {
  }
}
