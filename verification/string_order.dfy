/**
 * The order Python uses when it compares two `str` values: at the first
 * position where they differ the smaller code point sorts first, and when
 * one is a prefix of the other the shorter sorts first. Creation timestamps
 * are compared only in this way.
 */
module StringOrder {

  /** `a` and `b` agree before position `i` and differ at it. */
  ghost predicate DifferFirstAt(a: string, b: string, i: nat)
  {
    i < |a| && i < |b| && a[..i] == b[..i] && a[i] != b[i]
  }

  /** `a <= b` on Python strings. */
  predicate AtMost(a: string, b: string)
    ensures a == [] ==> AtMost(a, b)
    ensures b == [] ==> (AtMost(a, b) <==> a == [])
  {
    a <= b || exists i :: 0 <= i < |a| && i < |b| && a[..i] == b[..i] && a[i] < b[i]
  }

  /** Two strings neither of which is a prefix of the other differ first at some position. */
  lemma FirstDifference(a: string, b: string) returns (i: nat)
    requires !(a <= b) && !(b <= a)
    ensures DifferFirstAt(a, b, i)
  {
    i := 0;
    while i < |a| && i < |b| && a[i] == b[i]
      invariant i <= |a| && i <= |b| && a[..i] == b[..i]
    {
      assert a[..i + 1] == a[..i] + [a[i]] && b[..i + 1] == b[..i] + [b[i]];
      i := i + 1;
    }
  }

  /** Where two strings first differ, their code points there decide the order. */
  lemma AtMostAtFirstDifference(a: string, b: string, i: nat)
    requires DifferFirstAt(a, b, i)
    ensures AtMost(a, b) <==> a[i] < b[i]
  {
    assert !(a <= b) by {
      assert a[i] != b[i];
    }
    if AtMost(a, b) {
      var j :| 0 <= j < |a| && j < |b| && a[..j] == b[..j] && a[j] < b[j];
    }
  }

  lemma AtMostReflexive(a: string)
    ensures AtMost(a, a)
  {
  }

  /** Any two strings are comparable. */
  lemma AtMostTotal(a: string, b: string)
    ensures AtMost(a, b) || AtMost(b, a)
  {
    if !(a <= b) && !(b <= a) {
      var i := FirstDifference(a, b);
      if a[i] < b[i] {
        assert AtMost(a, b);
      } else {
        assert AtMost(b, a);
      }
    }
  }

  lemma AtMostTransitive(a: string, b: string, c: string)
    requires AtMost(a, b) && AtMost(b, c)
    ensures AtMost(a, c)
  {
    if a <= b && b <= c {
      assert a == c[..|a|];
    } else if a <= b {
      var j :| 0 <= j < |b| && j < |c| && b[..j] == c[..j] && b[j] < c[j];
      if j < |a| {
        assert a[..j] == b[..j] && a[j] == b[j];
        assert AtMost(a, c);
      } else {
        assert a == b[..j][..|a|];
      }
    } else if b <= c {
      var i :| 0 <= i < |a| && i < |b| && a[..i] == b[..i] && a[i] < b[i];
      assert c[..i] == b[..i] && c[i] == b[i];
      assert AtMost(a, c);
    } else {
      var i :| 0 <= i < |a| && i < |b| && a[..i] == b[..i] && a[i] < b[i];
      var j :| 0 <= j < |b| && j < |c| && b[..j] == c[..j] && b[j] < c[j];
      if i < j {
        assert c[..i] == b[..j][..i] && c[i] == b[i];
        assert AtMost(a, c);
      } else if j < i {
        assert a[..j] == b[..i][..j] && a[j] == b[j];
        assert AtMost(a, c);
      } else {
        assert AtMost(a, c);
      }
    }
  }

  lemma AtMostAntisymmetric(a: string, b: string)
    requires AtMost(a, b) && AtMost(b, a)
    ensures a == b
  {
  }
}
