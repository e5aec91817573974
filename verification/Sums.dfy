/** Sums of the first entries of a vector. */
module Sums {

  type Entries = int -> real

  function Sum(f: Entries, n: nat): real {
    if n == 0 then 0.0 else Sum(f, n - 1) + f(n - 1)
  }

  lemma SumLast(f: Entries, n: nat)
    ensures Sum(f, n + 1) == Sum(f, n) + f(n)
  {
  }

  lemma {:induction false} SumExt(f: Entries, g: Entries, n: nat)
    requires forall j :: 0 <= j < n ==> f(j) == g(j)
    ensures Sum(f, n) == Sum(g, n)
  {
    if n > 0 {
      SumExt(f, g, n - 1);
    }
  }

  lemma {:induction false} SumTail(f: Entries, m: nat, n: nat)
    requires m <= n && forall j :: m <= j < n ==> f(j) == 0.0
    ensures Sum(f, n) == Sum(f, m)
  {
    if m < n {
      SumTail(f, m, n - 1);
    }
  }

  lemma {:induction false} SumMonotone(f: Entries, g: Entries, n: nat)
    requires forall j :: 0 <= j < n ==> f(j) <= g(j)
    ensures Sum(f, n) <= Sum(g, n)
  {
    if n > 0 {
      SumMonotone(f, g, n - 1);
    }
  }

  lemma {:induction false} SumAdds(f: Entries, g: Entries, h: Entries, n: nat)
    requires forall j :: 0 <= j < n ==> h(j) == f(j) + g(j)
    ensures Sum(h, n) == Sum(f, n) + Sum(g, n)
  {
    if n > 0 {
      SumAdds(f, g, h, n - 1);
    }
  }

  lemma {:induction false} SumScaled(f: Entries, c: real, h: Entries, n: nat)
    requires forall j :: 0 <= j < n ==> h(j) == f(j) * c
    ensures Sum(h, n) == Sum(f, n) * c
  {
    if n > 0 {
      SumScaled(f, c, h, n - 1);
      assert (Sum(f, n - 1) + f(n - 1)) * c == Sum(f, n - 1) * c + f(n - 1) * c;
    }
  }
}
