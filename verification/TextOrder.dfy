/** The order of strings by code points, a prefix before its extensions. */
module TextOrder {

  predicate Leq(a: string, b: string) {
    a == [] || (b != [] && (a[0] < b[0] || (a[0] == b[0] && Leq(a[1..], b[1..]))))
  }

  lemma {:induction false} Total(a: string, b: string)
    ensures Leq(a, b) || Leq(b, a)
  {
    if a != [] && b != [] && a[0] == b[0] {
      Total(a[1..], b[1..]);
    }
  }

  lemma {:induction false} Antisymmetric(a: string, b: string)
    requires Leq(a, b) && Leq(b, a)
    ensures a == b
  {
    if a != [] {
      Antisymmetric(a[1..], b[1..]);
      assert a == [a[0]] + a[1..] && b == [b[0]] + b[1..];
    }
  }

  lemma {:induction false} Transitive(a: string, b: string, c: string)
    requires Leq(a, b) && Leq(b, c)
    ensures Leq(a, c)
  {
    if a != [] && a[0] == b[0] == c[0] {
      Transitive(a[1..], b[1..], c[1..]);
    }
  }

  /** The text goes before the other up to `k` alike and then by its next character, or by its end. */
  ghost predicate GoesBeforeAt(a: string, b: string, k: nat) {
    k <= |a| && k <= |b| && a[..k] == b[..k] && (k == |a| || (k < |b| && a[k] < b[k]))
  }

  lemma GoesBeforeLater(a: string, b: string, k: nat)
    requires a != [] && b != []
    ensures GoesBeforeAt(a, b, k + 1) <==> a[0] == b[0] && GoesBeforeAt(a[1..], b[1..], k)
  {
    if k + 1 <= |a| && k + 1 <= |b| {
      assert a[..k + 1] == [a[0]] + a[1..][..k] && b[..k + 1] == [b[0]] + b[1..][..k];
      assert a[..k + 1][0] == a[0] && b[..k + 1][0] == b[0];
      assert a[..k + 1][1..] == a[1..][..k] && b[..k + 1][1..] == b[1..][..k];
    }
  }

  lemma {:induction false} LeqIff(a: string, b: string)
    ensures Leq(a, b) <==> exists k: nat :: GoesBeforeAt(a, b, k)
  {
    assert GoesBeforeAt(a, b, 0) <==> a == [] || (b != [] && a[0] < b[0]);
    if a != [] && b != [] {
      LeqIff(a[1..], b[1..]);
      hide GoesBeforeAt;
      if a[0] == b[0] && Leq(a, b) {
        var k: nat :| GoesBeforeAt(a[1..], b[1..], k);
        GoesBeforeLater(a, b, k);
      }
      forall k: nat | GoesBeforeAt(a, b, k) ensures Leq(a, b) {
        if k > 0 {
          GoesBeforeLater(a, b, k - 1);
        }
      }
    }
  }
}
