/** The `k` greatest elements of a finite set under a strict total order. */
module TopK {
  import opened Common

  ghost predicate StrictTotal<T(!new)>(less: (T, T) -> bool) {
    && (forall a :: !less(a, a))
    && (forall a, b, c :: less(a, b) && less(b, c) ==> less(a, c))
    && (forall a, b :: a == b || less(a, b) || less(b, a))
  }

  ghost function Above<T>(less: (T, T) -> bool, s: set<T>, t: T): set<T> {
    set u | u in s && less(t, u)
  }

  /** Kept are the elements with fewer than `k` elements above them. */
  ghost function Top<T>(less: (T, T) -> bool, s: set<T>, k: nat): set<T> {
    set t | t in s && |Above(less, s, t)| < k
  }

  ghost predicate Least<T>(less: (T, T) -> bool, s: set<T>, t: T) {
    t in s && forall u :: u in s && u != t ==> less(t, u)
  }

  lemma SubsetSize<T>(a: set<T>, b: set<T>)
    requires a <= b
    ensures |a| <= |b|
    ensures a != b ==> |a| < |b|
  {
    assert b == a + (b - a);
  }

  lemma Pick<T>(s: set<T>) returns (x: T)
    requires s != {}
    ensures x in s
  {
    x :| x in s;
  }

  lemma {:induction false} LeastExists<T(!new)>(less: (T, T) -> bool, s: set<T>) returns (t: T)
    requires s != {} && StrictTotal(less)
    ensures Least(less, s, t)
    decreases |s|
  {
    t :| t in s;
    if s != {t} {
      var rest := s - {t};
      var u := LeastExists(less, rest);
      if less(u, t) {
        t := u;
      }
    }
  }

  /** A set of at most `k` elements is kept whole. */
  lemma TopAll<T(!new)>(less: (T, T) -> bool, s: set<T>, k: nat)
    requires StrictTotal(less) && |s| <= k
    ensures Top(less, s, k) == s
  {
    forall t | t in s ensures |Above(less, s, t)| < k {
      SubsetSize(Above(less, s, t), s);
    }
  }

  /** Dropping the least of more than `k` elements does not change the `k` greatest. */
  lemma DropLeast<T(!new)>(less: (T, T) -> bool, s: set<T>, t: T, k: nat)
    requires StrictTotal(less) && Least(less, s, t) && |s| > k
    ensures Top(less, s - {t}, k) == Top(less, s, k)
  {
    var rest := s - {t};
    assert Above(less, s, t) == rest && |rest| == |s| - 1;
    forall u | u in rest ensures Above(less, rest, u) == Above(less, s, u) {
    }
  }

  lemma {:induction false} TopSize<T(!new)>(less: (T, T) -> bool, s: set<T>, k: nat)
    requires StrictTotal(less)
    ensures |Top(less, s, k)| == Min(k, |s|)
    decreases |s|
  {
    if |s| <= k {
      TopAll(less, s, k);
    } else {
      var t := LeastExists(less, s);
      assert s == (s - {t}) + {t};
      DropLeast(less, s, t, k);
      TopSize(less, s - {t}, k);
    }
  }

  lemma TopUpwardClosed<T(!new)>(less: (T, T) -> bool, s: set<T>, k: nat, t: T)
    requires StrictTotal(less) && t in Top(less, s, k)
    ensures Above(less, s, t) <= Top(less, s, k)
  {
    forall u | u in Above(less, s, t) ensures |Above(less, s, u)| < k {
      SubsetSize(Above(less, s, u), Above(less, s, t));
    }
  }

  /** A new element competes with the kept ones exactly as with all of them. */
  lemma NewElementCompetes<T(!new)>(less: (T, T) -> bool, s: set<T>, k: nat, t: T)
    requires StrictTotal(less)
    ensures |Above(less, s, t)| < k <==> |Above(less, Top(less, s, k), t)| < k
  {
    var top := Top(less, s, k);
    var above := Above(less, s, t);
    SubsetSize(Above(less, top, t), above);
    if |above| < k {
      assert Above(less, top, t) <= above;
    } else {
      SubsetSize(above, s);
      TopSize(less, s, k);
      forall u | u in top ensures less(t, u) {
        if !less(t, u) {
          SubsetSize(above, Above(less, s, u));
        }
      }
      assert Above(less, top, t) == top;
    }
  }

  /** Keeping only the top before adding an element loses nothing. */
  lemma TopOfTop<T(!new)>(less: (T, T) -> bool, s: set<T>, k: nat, t: T)
    requires StrictTotal(less)
    ensures Top(less, s + {t}, k) == Top(less, Top(less, s, k) + {t}, k)
  {
    var top := Top(less, s, k);
    NewElementCompetes(less, s, k, t);
    assert Above(less, s + {t}, t) == Above(less, s, t);
    assert Above(less, top + {t}, t) == Above(less, top, t);
    forall u | u in s && u != t ensures u in Top(less, s + {t}, k) <==> u in Top(less, top + {t}, k) {
      if u in top {
        TopUpwardClosed(less, s, k, u);
        assert Above(less, s + {t}, u) == Above(less, top + {t}, u);
      } else {
        SubsetSize(Above(less, s, u), Above(less, s + {t}, u));
      }
    }
  }
}
