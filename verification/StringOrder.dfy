/** The order of sort.Strings and of Go's < on strings. */
module StringOrder {
  import opened StableSort

  /** Byte-wise string order. */
  predicate Before(a: string, b: string) {
    b != "" && (a == "" || a[0] < b[0] || (a[0] == b[0] && Before(a[1..], b[1..])))
  }

  function BeforeFn(): (string, string) -> bool { (a: string, b: string) => Before(a, b) }

  /** The first n characters agree, and then a ends or has the smaller character. */
  ghost predicate DiffersAt(a: string, b: string, n: nat) {
    && n <= |a| && n < |b| && a[..n] == b[..n]
    && (n == |a| || a[n] < b[n])
  }

  /** Before is the lexicographic order. */
  lemma {:induction false} BeforeIsLexicographic(a: string, b: string)
    ensures Before(a, b) <==> exists n: nat :: DiffersAt(a, b, n)
  {
    if a != "" && b != "" && a[0] == b[0] {
      BeforeIsLexicographic(a[1..], b[1..]);
      if n: nat :| DiffersAt(a[1..], b[1..], n) {
        assert a[..n + 1] == [a[0]] + a[1..][..n] && b[..n + 1] == [b[0]] + b[1..][..n];
        assert DiffersAt(a, b, n + 1);
      }
      if n: nat :| DiffersAt(a, b, n) {
        assert n > 0;
        assert a[1..][..n - 1] == a[..n][1..] && b[1..][..n - 1] == b[..n][1..];
        assert DiffersAt(a[1..], b[1..], n - 1);
      }
    } else if Before(a, b) {
      assert DiffersAt(a, b, 0);
    } else {
      forall n: nat
        ensures !DiffersAt(a, b, n)
      {
        if 0 < n <= |a| && n < |b| {
          assert a[..n][0] == a[0] && b[..n][0] == b[0];
        }
      }
    }
  }

  lemma {:induction false} BeforeAsymmetric(a: string, b: string)
    requires Before(a, b)
    ensures !Before(b, a)
  {
    if a != "" && a[0] == b[0] {
      BeforeAsymmetric(a[1..], b[1..]);
    }
  }

  lemma {:induction false} NotBeforeTransitive(a: string, b: string, c: string)
    requires !Before(a, b) && !Before(b, c)
    ensures !Before(a, c)
  {
    if a != "" && b != "" && c != "" && a[0] == b[0] == c[0] {
      NotBeforeTransitive(a[1..], b[1..], c[1..]);
    }
  }

  lemma {:induction false} TiesAreOne(a: string, b: string)
    requires !Before(a, b) && !Before(b, a)
    ensures a == b
  {
    if a != "" && b != "" {
      TiesAreOne(a[1..], b[1..]);
      assert a == [a[0]] + a[1..] && b == [b[0]] + b[1..];
    }
  }

  lemma BeforeIsWeakOrder()
    ensures WeakOrder(BeforeFn())
    ensures forall xs :: TiesAreEqual(xs, BeforeFn())
  {
    forall a, b | Before(a, b)
      ensures !Before(b, a)
    {
      BeforeAsymmetric(a, b);
    }
    forall a, b, c | !Before(a, b) && !Before(b, c)
      ensures !Before(a, c)
    {
      NotBeforeTransitive(a, b, c);
    }
    forall a, b | !Before(a, b) && !Before(b, a)
      ensures a == b
    {
      TiesAreOne(a, b);
    }
  }
}
