/** Sorting keys: strings in code point order. */
module Order {
  predicate Below(a: string, b: string) {
    b != "" && (a == "" || a[0] < b[0] || (a[0] == b[0] && Below(a[1..], b[1..])))
  }

  lemma {:induction false} BelowTotal(a: string, b: string)
    ensures a == b || Below(a, b) || Below(b, a)
  {
    if a != "" && b != "" && a[0] == b[0] {
      BelowTotal(a[1..], b[1..]);
      assert a == [a[0]] + a[1..] && b == [b[0]] + b[1..];
    }
  }

  lemma {:induction false} BelowAsymmetric(a: string, b: string)
    ensures !(Below(a, b) && Below(b, a))
  {
    if a != "" && b != "" { BelowAsymmetric(a[1..], b[1..]); }
  }

  lemma {:induction false} BelowTransitive(a: string, b: string, c: string)
    requires Below(a, b) && Below(b, c)
    ensures Below(a, c)
  {
    if a != "" && a[0] == b[0] && b[0] == c[0] { BelowTransitive(a[1..], b[1..], c[1..]); }
  }

  ghost predicate IsLeast(m: string, s: set<string>) {
    m in s && forall x <- s :: x == m || Below(m, x)
  }

  lemma {:induction false} LeastExists(s: set<string>)
    requires s != {}
    ensures exists m :: IsLeast(m, s)
  {
    var x :| x in s;
    var rest := s - {x};
    if rest == {} {
      assert s == rest + {x};
      assert IsLeast(x, s);
    } else {
      LeastExists(rest);
      var m :| IsLeast(m, rest);
      BelowTotal(x, m);
      if Below(x, m) {
        forall y <- s ensures y == x || Below(x, y) {
          if y != x && y != m { BelowTransitive(x, m, y); }
        }
        assert IsLeast(x, s);
      } else {
        assert IsLeast(m, s);
      }
    }
  }

  lemma LeastUnique(s: set<string>, m: string, n: string)
    requires IsLeast(m, s) && IsLeast(n, s)
    ensures m == n
  {
    BelowAsymmetric(m, n);
  }

  ghost function Least(s: set<string>): (m: string)
    requires s != {}
    ensures IsLeast(m, s)
  {
    LeastExists(s);
    var m :| IsLeast(m, s);
    m
  }

  /** The keys of a map as sort.Strings orders them. */
  ghost function Sorted(s: set<string>): (keys: seq<string>)
    ensures |keys| == |s|
    ensures forall k :: k in keys <==> k in s
  {
    if s == {} then []
    else
      var m := Least(s);
      [m] + Sorted(s - {m})
  }

  /** The keys come out strictly ascending, so each comes out once. */
  lemma {:induction false} SortedAscends(s: set<string>, i: nat, j: nat)
    requires i < j < |s|
    ensures Below(Sorted(s)[i], Sorted(s)[j])
  {
    var m := Least(s);
    var t := Sorted(s - {m});
    assert Sorted(s) == [m] + t;
    if i == 0 {
      assert t[j - 1] in t;
    } else {
      SortedAscends(s - {m}, i - 1, j - 1);
    }
  }

  lemma SortedDistinct(s: set<string>, i: nat, j: nat)
    requires i < j < |s|
    ensures Sorted(s)[i] != Sorted(s)[j]
  {
    SortedAscends(s, i, j);
    BelowAsymmetric(Sorted(s)[i], Sorted(s)[j]);
  }

  lemma SortedUnfolds(s: set<string>)
    ensures Sorted(s) == if s == {} then [] else [Least(s)] + Sorted(s - {Least(s)})
  {}

  lemma SortedAllDistinct(s: set<string>)
    ensures forall i, j | 0 <= i < j < |s| :: Sorted(s)[i] != Sorted(s)[j]
  {
    forall i, j | 0 <= i < j < |s| ensures Sorted(s)[i] != Sorted(s)[j] { SortedDistinct(s, i, j); }
  }

  method SortKeys(s: set<string>) returns (keys: seq<string>)
    ensures keys == Sorted(s)
  {
    hide Sorted;
    SortedUnfolds({});
    keys := [];
    var rest := s;
    while rest != {}
      invariant Sorted(s) == keys + Sorted(rest)
      decreases rest
    {
      LeastExists(rest);
      assert exists m <- rest :: forall x <- rest :: x == m || Below(m, x) by {
        var m :| IsLeast(m, rest);
      }
      var m :| m in rest && forall x <- rest :: x == m || Below(m, x);
      LeastUnique(rest, m, Least(rest));
      SortedUnfolds(rest);
      keys, rest := keys + [m], rest - {m};
    }
  }
}
