/** Sums over finite sets. */
module Finite {
  ghost function Sum<T>(s: set<T>, f: T -> int): int {
    if s == {} then 0
    else
      var x :| x in s;
      f(x) + Sum(s - {x}, f)
  }

  lemma {:induction false} SumRemove<T>(s: set<T>, x: T, f: T -> int)
    requires x in s
    ensures Sum(s, f) == f(x) + Sum(s - {x}, f)
    decreases |s|
  {
    var y :| y in s && Sum(s, f) == f(y) + Sum(s - {y}, f);
    if y != x {
      SumRemove(s - {y}, x, f);
      SumRemove(s - {x}, y, f);
      assert s - {y} - {x} == s - {x} - {y};
    }
  }

  lemma {:induction false} SumSame<T>(s: set<T>, f: T -> int, g: T -> int)
    requires forall x :: x in s ==> f(x) == g(x)
    ensures Sum(s, f) == Sum(s, g)
    decreases |s|
  {
    if s == {} {
    } else {
      var x :| x in s;
      SumRemove(s, x, f);
      SumRemove(s, x, g);
      SumSame(s - {x}, f, g);
    }
  }

  /** Changing the summand at one point changes the sum by the difference. */
  lemma SumChange<T>(s: set<T>, x: T, f: T -> int, g: T -> int)
    requires x in s && forall y :: y in s && y != x ==> f(y) == g(y)
    ensures Sum(s, g) == Sum(s, f) + g(x) - f(x)
  {
    SumRemove(s, x, f);
    SumRemove(s, x, g);
    SumSame(s - {x}, f, g);
  }

  lemma {:induction false} SumPlus<T>(s: set<T>, f: T -> int, g: T -> int, sum: T -> int)
    requires forall x :: x in s ==> sum(x) == f(x) + g(x)
    ensures Sum(s, sum) == Sum(s, f) + Sum(s, g)
    decreases |s|
  {
    if s == {} {
    } else {
      var x :| x in s;
      SumRemove(s, x, f);
      SumRemove(s, x, g);
      SumRemove(s, x, sum);
      SumPlus(s - {x}, f, g, sum);
    }
  }

  /** Summing over the image of a set under an injection. */
  lemma {:induction false} SumImage<S, T>(s: set<S>, image: set<T>, k: map<S, T>, f: S -> int, g: T -> int)
    requires forall x :: x in s ==> x in k && k[x] in image && g(k[x]) == f(x)
    requires forall x, y :: x in s && y in s && k[x] == k[y] ==> x == y
    requires forall t :: t in image ==> exists x :: x in s && k[x] == t
    ensures Sum(image, g) == Sum(s, f)
    decreases |s|
  {
    if s == {} {
      assert image == {};
    } else {
      var x :| x in s;
      SumRemove(s, x, f);
      SumRemove(image, k[x], g);
      SumImage(s - {x}, image - {k[x]}, k, f, g);
    }
  }

  /** An injection cannot lead into a smaller set. */
  lemma {:induction false} InjectionFits<S, T>(s: set<S>, image: set<T>, k: map<S, T>)
    requires forall x :: x in s ==> x in k && k[x] in image
    requires forall x, y :: x in s && y in s && k[x] == k[y] ==> x == y
    ensures |s| <= |image|
    decreases |s|
  {
    if s == {} {
    } else {
      var x :| x in s;
      InjectionFits(s - {x}, image - {k[x]}, k);
    }
  }
}
