/** Small notions that several modules share. */
module Common {
  datatype Option<+T> = None | Some(value: T)

  ghost predicate Injective<K, V>(m: map<K, V>) {
    forall a, b :: a in m && b in m && m[a] == m[b] ==> a == b
  }

  lemma {:induction false} SubsetIsSmaller<T>(a: set<T>, b: set<T>)
    requires a <= b
    ensures |a| <= |b|
    ensures |a| == |b| ==> a == b
  {
    if a != {} {
      var x :| x in a;
      SubsetIsSmaller(a - {x}, b - {x});
      if |a| == |b| {
        assert a == a - {x} + {x} && b == b - {x} + {x};
      }
    }
  }

  /** The numbers 1..n. */
  function Range(n: nat): (r: set<nat>)
    ensures |r| == n && forall k: nat :: k in r <==> 1 <= k <= n
  {
    if n == 0 then {} else Range(n - 1) + {n}
  }

  /** A map is one-to-one exactly when it has as many values as keys. */
  lemma {:induction false} InjectiveIffAsManyValues<K, V>(m: map<K, V>)
    ensures |m.Values| <= |m|
    ensures Injective(m) <==> |m.Values| == |m|
    decreases |m|
  {
    if m.Keys == {} {
      assert m.Values == {};
    } else {
      var k :| k in m;
      var rest := m - {k};
      InjectiveIffAsManyValues(rest);
      assert m.Keys == rest.Keys + {k};
      ValuesWithout(m, k);
    }
  }

  lemma ValuesWithout<K, V>(m: map<K, V>, k: K)
    requires k in m
    ensures m.Values == (m - {k}).Values + {m[k]}
    ensures Injective(m) <==> Injective(m - {k}) && m[k] !in (m - {k}).Values
  {
    var rest := m - {k};
    forall v | v in m.Values ensures v in rest.Values + {m[k]} {
      var a :| a in m && m[a] == v;
      assert a == k || (a in rest && rest[a] == v);
    }
    forall v | v in rest.Values ensures v in m.Values {
      var a :| a in rest && rest[a] == v;
      assert m[a] == v;
    }
    if m[k] in rest.Values {
      var a :| a in rest && rest[a] == m[k];
      assert a in m && a != k;
    } else {
      assert forall a :: a in rest ==> rest[a] in rest.Values;
      assert forall a :: a in m && a != k ==> a in rest && rest[a] == m[a];
    }
  }
}
