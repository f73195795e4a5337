/** Cardinality facts about finite sets used by the counting operations. */
module Sets {

  lemma {:induction false} SubsetCard<T>(a: set<T>, b: set<T>)
    requires a <= b
    ensures |a| <= |b|
  {
    if a != {} {
      var x :| x in a;
      SubsetCard(a - {x}, b - {x});
    }
  }

  /** The values a map takes at the given keys. */
  function Image<K, V>(m: map<K, V>, keys: set<K>): (vs: set<V>)
    requires keys <= m.Keys
    ensures forall k | k in keys :: m[k] in vs
    ensures forall v | v in vs :: exists k | k in keys :: m[k] == v
  {
    set k | k in keys :: m[k]
  }

  /** The values of a map at keys where it is one-to-one are as many as the keys. */
  lemma {:induction false} InjectiveImageCard<K, V>(m: map<K, V>, keys: set<K>)
    requires keys <= m.Keys
    requires forall k, k' | k in keys && k' in keys && m[k] == m[k'] :: k == k'
    ensures |Image(m, keys)| == |keys|
  {
    if keys != {} {
      var x :| x in keys;
      var rest := keys - {x};
      InjectiveImageCard(m, rest);
      assert Image(m, keys) == Image(m, rest) + {m[x]};
      assert m[x] !in Image(m, rest);
    }
  }

  /** The results of a function over a set. */
  function Mapped<T, U>(s: set<T>, f: T -> U): (r: set<U>)
    ensures forall x | x in s :: f(x) in r
    ensures forall y | y in r :: exists x | x in s :: f(x) == y
  {
    set x | x in s :: f(x)
  }

  /** A function one-to-one on a set maps it onto a set of the same size. */
  lemma {:induction false} InjectiveMappedCard<T, U>(s: set<T>, f: T -> U)
    requires forall x, y | x in s && y in s && f(x) == f(y) :: x == y
    ensures |Mapped(s, f)| == |s|
  {
    if s != {} {
      var x :| x in s;
      var rest := s - {x};
      InjectiveMappedCard(rest, f);
      assert Mapped(s, f) == Mapped(rest, f) + {f(x)};
      assert f(x) !in Mapped(rest, f);
    }
  }
}
