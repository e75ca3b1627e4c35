/** The ordering of strings that serde_json's default object map (a Rust
    `BTreeMap<String, Value>`) keeps its keys in: lexicographic by code point,
    which for UTF-8 text is the same as lexicographic by byte, with a proper
    prefix before every longer string. */
module StringOrder {

  /** `a` comes strictly before `b`. */
  predicate Below(a: string, b: string)
  {
    |b| > 0 && (|a| == 0 || a[0] < b[0] || (a[0] == b[0] && Below(a[1..], b[1..])))
  }

  lemma {:induction false} BelowAsymmetric(a: string, b: string)
    requires Below(a, b)
    ensures !Below(b, a)
  {
    if |a| > 0 && a[0] == b[0] {
      BelowAsymmetric(a[1..], b[1..]);
    }
  }

  lemma {:induction false} BelowTransitive(a: string, b: string, c: string)
    requires Below(a, b) && Below(b, c)
    ensures Below(a, c)
  {
    if |a| > 0 && a[0] == b[0] && b[0] == c[0] {
      BelowTransitive(a[1..], b[1..], c[1..]);
    }
  }

  lemma {:induction false} BelowTotal(a: string, b: string)
    requires a != b
    ensures Below(a, b) || Below(b, a)
  {
    if |a| > 0 && |b| > 0 && a[0] == b[0] {
      assert a == [a[0]] + a[1..] && b == [b[0]] + b[1..];
      BelowTotal(a[1..], b[1..]);
    }
  }

  /** `m` is the first of `keys` in the order. */
  predicate IsLeast(m: string, keys: set<string>)
  {
    m in keys && forall k :: k in keys && k != m ==> Below(m, k)
  }

  lemma {:induction false} LeastExists(keys: set<string>)
    requires keys != {}
    ensures exists m :: IsLeast(m, keys)
    decreases |keys|
  {
    var x :| x in keys;
    if keys == {x} {
      assert IsLeast(x, keys);
    } else {
      var others := keys - {x};
      assert others != {} && |others| < |keys|;
      LeastExists(others);
      var y :| IsLeast(y, others);
      assert y in keys && y != x;
      if Below(x, y) {
        forall k | k in keys && k != x
          ensures Below(x, k)
        {
          if k != y {
            assert k in others;
            BelowTransitive(x, y, k);
          }
        }
        assert IsLeast(x, keys);
      } else {
        BelowTotal(x, y);
        forall k | k in keys && k != y
          ensures Below(y, k)
        {
          if k != x {
            assert k in others;
          }
        }
        assert IsLeast(y, keys);
      }
    }
  }

  lemma LeastUnique(m: string, n: string, keys: set<string>)
    requires IsLeast(m, keys) && IsLeast(n, keys)
    ensures m == n
  {
    if m != n {
      BelowAsymmetric(m, n);
    }
  }

  /** The first key of a non-empty set. */
  function Least(keys: set<string>): (m: string)
    requires keys != {}
    ensures IsLeast(m, keys)
  {
    LeastExists(keys);
    forall m, n | IsLeast(m, keys) && IsLeast(n, keys)
      ensures m == n
    {
      LeastUnique(m, n, keys);
    }
    var m :| IsLeast(m, keys); m
  }

  /** The keys of a set in ascending order, each exactly once. */
  function SortedKeys(keys: set<string>): (r: seq<string>)
    ensures |r| == |keys|
    ensures forall k :: k in keys <==> k in r
    ensures forall i, j :: 0 <= i < j < |r| ==> Below(r[i], r[j])
    decreases |keys|
  {
    if keys == {} then []
    else
      var m := Least(keys);
      [m] + SortedKeys(keys - {m})
  }
}
