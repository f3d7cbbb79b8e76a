// Python's ordering of str values and sorted() over the keys of a dict:
// the health table, the display and the alert sweep all visit device names
// in this order.
module Order {

  /** a < b for Python strings: code-point lexicographic order, where a
      proper prefix comes first. */
  predicate LexLess(a: string, b: string)
    decreases |a|
  {
    if a == [] then b != []
    else if b == [] then false
    else if a[0] != b[0] then a[0] < b[0]
    else LexLess(a[1..], b[1..])
  }

  lemma {:induction false} LexIrreflexive(a: string)
    ensures !LexLess(a, a)
    decreases |a|
  {
    if a != [] {
      LexIrreflexive(a[1..]);
    }
  }

  lemma {:induction false} LexAsymmetric(a: string, b: string)
    requires LexLess(a, b)
    ensures !LexLess(b, a)
    decreases |a|
  {
    if a != [] && b != [] && a[0] == b[0] {
      LexAsymmetric(a[1..], b[1..]);
    }
  }

  lemma {:induction false} LexTransitive(a: string, b: string, c: string)
    requires LexLess(a, b) && LexLess(b, c)
    ensures LexLess(a, c)
    decreases |a|
  {
    if a != [] && a[0] == b[0] && b[0] == c[0] {
      LexTransitive(a[1..], b[1..], c[1..]);
    }
  }

  lemma {:induction false} LexTotal(a: string, b: string)
    requires a != b
    ensures LexLess(a, b) || LexLess(b, a)
    decreases |a|
  {
    if a != [] && b != [] && a[0] == b[0] {
      assert a == [a[0]] + a[1..] && b == [b[0]] + b[1..];
      LexTotal(a[1..], b[1..]);
    }
  }

  /** Every name comes before every later name: ascending and without repeats. */
  predicate StrictlySorted(s: seq<string>) {
    forall i, j :: 0 <= i < j < |s| ==> LexLess(s[i], s[j])
  }

  /** k is the smallest element of keys. */
  predicate IsLeast(k: string, keys: set<string>) {
    k in keys && forall j :: j in keys && j != k ==> LexLess(k, j)
  }

  lemma {:induction false} LeastExists(keys: set<string>)
    requires keys != {}
    ensures exists k :: IsLeast(k, keys)
    decreases |keys|
  {
    var x :| x in keys;
    var rest := keys - {x};
    if rest == {} {
      assert keys == {x};
      assert IsLeast(x, keys);
    } else {
      LeastExists(rest);
      var y :| IsLeast(y, rest);
      if LexLess(x, y) {
        forall j | j in keys && j != x ensures LexLess(x, j) {
          if j != y {
            LexTransitive(x, y, j);
          }
        }
        assert IsLeast(x, keys);
      } else {
        LexTotal(x, y);
        assert IsLeast(y, keys);
      }
    }
  }

  /** The names of keys in ascending order: what sorted() returns. */
  ghost function SortedOf(keys: set<string>): (r: seq<string>)
    ensures StrictlySorted(r)
    ensures forall k :: k in r <==> k in keys
    decreases |keys|
  {
    if keys == {} then []
    else
      LeastExists(keys);
      var k :| IsLeast(k, keys);
      var tail := SortedOf(keys - {k});
      assert forall j :: j in tail ==> LexLess(k, j);
      assert forall i :: 0 < i < |[k] + tail| ==> ([k] + tail)[i] == tail[i - 1];
      [k] + tail
  }

  /** There is only one ascending listing of a set of names, so sorted() does
      not depend on the order in which a dict holds its keys. */
  lemma {:induction false} SortedUnique(a: seq<string>, b: seq<string>)
    requires StrictlySorted(a) && StrictlySorted(b)
    requires forall k :: k in a <==> k in b
    ensures a == b
    decreases |a|
  {
    assert b == [] || b[0] in b;
    if a != [] {
      assert a[0] in b;
      assert b != [];
      assert b[0] in a;
      if a[0] != b[0] {
        var i :| 0 <= i < |a| && a[i] == b[0];
        var j :| 0 <= j < |b| && b[j] == a[0];
        assert i > 0 && j > 0;
        LexAsymmetric(a[0], a[i]);
      }
      forall k ensures k in a[1..] <==> k in b[1..] {
        if k in a[1..] {
          var i :| 1 <= i < |a| && a[i] == k;
          if k == b[0] {
            LexIrreflexive(a[0]);
          }
          assert k in b;
        }
        if k in b[1..] {
          var j :| 1 <= j < |b| && b[j] == k;
          if k == a[0] {
            LexIrreflexive(b[0]);
          }
          assert k in a;
        }
      }
      SortedUnique(a[1..], b[1..]);
      assert a == [a[0]] + a[1..] && b == [b[0]] + b[1..];
    }
  }

  /** sorted(d): the keys of a dict in ascending order, by repeatedly taking
      the smallest name not yet listed. */
  method SortedNames<V>(m: map<string, V>) returns (names: seq<string>)
    ensures names == SortedOf(m.Keys)
  {
    var rest := m.Keys;
    names := [];
    while rest != {}
      invariant rest <= m.Keys
      invariant StrictlySorted(names)
      invariant forall k :: k in names <==> k in m.Keys && k !in rest
      invariant forall a, b :: a in names && b in rest ==> LexLess(a, b)
      decreases |rest|
    {
      LeastExists(rest);
      var k :| IsLeast(k, rest);
      names := names + [k];
      rest := rest - {k};
    }
    SortedUnique(names, SortedOf(m.Keys));
  }
}
