/** The lexicographic order of sequences, a proper prefix coming first. */
module Lexicographic {
  /** `a` and `b` agree up to `k`, and there `a` ends or has the smaller element. */
  ghost predicate Differs<T(!new)>(a: seq<T>, b: seq<T>, less: (T, T) -> bool, k: nat) {
    && k <= |a| && k < |b| && a[..k] == b[..k]
    && (k == |a| || less(a[k], b[k]))
  }

  ghost predicate Precedes<T(!new)>(a: seq<T>, b: seq<T>, less: (T, T) -> bool) {
    exists k :: Differs(a, b, less, k)
  }

  ghost predicate StrictTotal<T(!new)>(less: (T, T) -> bool) {
    && (forall x :: !less(x, x))
    && (forall x, y :: less(x, y) || less(y, x) || x == y)
    && (forall x, y, z :: less(x, y) && less(y, z) ==> less(x, z))
  }

  /** Never both ways round, and never between equal sequences. */
  lemma Asymmetric<T(!new)>(a: seq<T>, b: seq<T>, less: (T, T) -> bool)
    requires StrictTotal(less) && Precedes(a, b, less)
    ensures !Precedes(b, a, less) && a != b
  {
    var k: nat :| Differs(a, b, less, k);
    forall j: nat ensures !Differs(b, a, less, j) {
      if j <= |b| && j < |a| && a[..j] == b[..j] {
        if j < k {
          assert a[j] == a[..k][j] == b[..k][j] == b[j];
        }
      }
    }
  }

  lemma Cons<T(!new)>(x: T, a: seq<T>, b: seq<T>, less: (T, T) -> bool)
    requires Precedes(a, b, less)
    ensures Precedes([x] + a, [x] + b, less)
  {
    var k: nat :| Differs(a, b, less, k);
    assert ([x] + a)[..k + 1] == [x] + a[..k] && ([x] + b)[..k + 1] == [x] + b[..k];
    assert Differs([x] + a, [x] + b, less, k + 1);
  }

  /** Of two different sequences one precedes the other. */
  lemma {:induction false} Total<T(!new)>(a: seq<T>, b: seq<T>, less: (T, T) -> bool)
    requires StrictTotal(less)
    ensures a == b || Precedes(a, b, less) || Precedes(b, a, less)
  {
    if a == [] || b == [] {
      assert a == [] && b != [] ==> Differs(a, b, less, 0);
      assert b == [] && a != [] ==> Differs(b, a, less, 0);
    } else if a[0] != b[0] {
      assert less(a[0], b[0]) ==> Differs(a, b, less, 0);
      assert less(b[0], a[0]) ==> Differs(b, a, less, 0);
    } else {
      assert a == [a[0]] + a[1..] && b == [a[0]] + b[1..];
      Total(a[1..], b[1..], less);
      if Precedes(a[1..], b[1..], less) {
        Cons(a[0], a[1..], b[1..], less);
      } else if Precedes(b[1..], a[1..], less) {
        Cons(a[0], b[1..], a[1..], less);
      }
    }
  }

  lemma Transitive<T(!new)>(a: seq<T>, b: seq<T>, c: seq<T>, less: (T, T) -> bool)
    requires StrictTotal(less) && Precedes(a, b, less) && Precedes(b, c, less)
    ensures Precedes(a, c, less)
  {
    var j: nat :| Differs(a, b, less, j);
    var k: nat :| Differs(b, c, less, k);
    var first := if j <= k then j else k;
    assert a[..first] == a[..j][..first] == b[..j][..first] == b[..first];
    assert b[..first] == b[..k][..first] == c[..k][..first] == c[..first];
    if j < k {
      assert b[j] == b[..k][j] == c[..k][j] == c[j];
    } else if k < j {
      assert a[k] == a[..j][k] == b[..j][k] == b[k];
    }
    assert Differs(a, c, less, first);
  }

  /** Behind a common beginning the rest decides. */
  lemma CommonBeginning<T(!new)>(a: seq<T>, b: seq<T>, less: (T, T) -> bool, k: nat)
    requires StrictTotal(less) && k <= |a| && k <= |b| && a[..k] == b[..k]
    ensures Precedes(a, b, less) <==> Precedes(a[k..], b[k..], less)
  {
    forall i | 0 <= i < k ensures a[i] == b[i] {
      assert a[i] == a[..k][i] == b[..k][i] == b[i];
    }
    if Precedes(a, b, less) {
      var j: nat :| Differs(a, b, less, j);
      assert j >= k;
      assert a[k..][..j - k] == a[..j][k..] == b[..j][k..] == b[k..][..j - k];
      assert Differs(a[k..], b[k..], less, j - k);
    }
    if Precedes(a[k..], b[k..], less) {
      var j: nat :| Differs(a[k..], b[k..], less, j);
      assert a[..k + j] == a[..k] + a[k..][..j] == b[..k] + b[k..][..j] == b[..k + j];
      assert Differs(a, b, less, k + j);
    }
  }

  /** The first difference decides. */
  lemma FirstDifference<T(!new)>(a: seq<T>, b: seq<T>, less: (T, T) -> bool, k: nat)
    requires StrictTotal(less) && k <= |a| && k <= |b| && a[..k] == b[..k]
    ensures k < |a| && k < |b| && a[k] != b[k] ==> (Precedes(a, b, less) <==> less(a[k], b[k]))
    ensures k == |a| < |b| ==> Precedes(a, b, less) && !Precedes(b, a, less)
  {
    if k == |a| < |b| {
      assert Differs(a, b, less, k);
      Asymmetric(a, b, less);
    } else if k < |a| && k < |b| && a[k] != b[k] {
      assert less(a[k], b[k]) || less(b[k], a[k]);
      if less(a[k], b[k]) {
        assert Differs(a, b, less, k);
      } else {
        assert Differs(b, a, less, k);
        Asymmetric(b, a, less);
      }
    }
  }
}
