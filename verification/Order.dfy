/** The order of strings by code points, and the sorted list of a finite set of strings. */
module Order {

  predicate Leq(a: string, b: string) {
    a == [] || (b != [] && (a[0] < b[0] || (a[0] == b[0] && Leq(a[1..], b[1..]))))
  }

  lemma Total(a: string, b: string)
    ensures Leq(a, b) || Leq(b, a)
    ensures Leq(a, b) && Leq(b, a) ==> a == b
  {
    if a != [] && b != [] && a[0] == b[0] {
      Total(a[1..], b[1..]);
      assert a == [a[0]] + a[1..] && b == [b[0]] + b[1..];
    }
  }

  lemma Transitive(a: string, b: string, c: string)
    requires Leq(a, b) && Leq(b, c)
    ensures Leq(a, c)
  {
    if a != [] && a[0] == b[0] && b[0] == c[0] {
      Transitive(a[1..], b[1..], c[1..]);
    }
  }

  ghost predicate IsLeast(m: string, s: set<string>) {
    m in s && forall x <- s :: Leq(m, x)
  }

  lemma {:induction false} HasLeast(s: set<string>)
    requires s != {}
    ensures exists m :: IsLeast(m, s)
  {
    var x :| x in s;
    Total(x, x);
    if s == {x} {
      assert IsLeast(x, s);
    } else {
      var rest := s - {x};
      HasLeast(rest);
      var n :| IsLeast(n, rest);
      Total(x, n);
      if Leq(x, n) {
        forall y <- rest ensures Leq(x, y) { Transitive(x, n, y); }
        assert IsLeast(x, s);
      } else {
        assert IsLeast(n, s);
      }
    }
  }

  function Least(s: set<string>): (m: string)
    requires s != {}
    ensures m in s
  {
    HasLeast(s);
    assert exists m :: m in s && forall x <- s :: Leq(m, x) by {
      var m :| IsLeast(m, s);
    }
    assert forall x <- s, y <- s :: Leq(x, y) && Leq(y, x) ==> x == y by {
      forall x <- s, y <- s ensures Leq(x, y) && Leq(y, x) ==> x == y { Total(x, y); }
    }
    var m :| m in s && forall x <- s :: Leq(m, x);
    m
  }

  lemma LeastIsLeast(s: set<string>)
    requires s != {}
    ensures IsLeast(Least(s), s)
  {
    HasLeast(s);
    var m :| IsLeast(m, s);
    assert m in s && forall x <- s :: Leq(m, x);
  }

  function Sorted(s: set<string>): seq<string> {
    if s == {} then []
    else
      var m := Least(s);
      [m] + Sorted(s - {m})
  }

  /** `Sorted` lists every member once, in order. */
  lemma {:induction false} SortedFacts(s: set<string>)
    ensures |Sorted(s)| == |s| && forall x :: x in Sorted(s) <==> x in s
    ensures forall i, j :: 0 <= i < j < |Sorted(s)| ==> Sorted(s)[i] != Sorted(s)[j] && Leq(Sorted(s)[i], Sorted(s)[j])
  {
    if s != {} {
      LeastIsLeast(s);
      SortedFacts(s - {Least(s)});
    }
  }
}
