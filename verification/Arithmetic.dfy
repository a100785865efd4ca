/** Products and quotients of naturals, with the few laws the size proofs use. */
module Arithmetic {

  function Times(a: nat, b: nat): nat {
    a * b
  }

  function Quot(a: nat, g: nat): nat
    requires g > 0
  {
    a / g
  }

  function Rem(a: nat, g: nat): (r: nat)
    requires g > 0
    ensures r < g
  {
    a % g
  }

  lemma Comm(a: nat, b: nat)
    ensures Times(a, b) == Times(b, a)
  {
  }

  lemma Assoc(a: nat, b: nat, c: nat)
    ensures Times(Times(a, b), c) == Times(a, Times(b, c))
  {
  }

  lemma Distrib(a: nat, b: nat, c: nat)
    ensures Times(a, b + c) == Times(a, b) + Times(a, c)
  {
  }

  lemma Small(a: nat)
    ensures Times(a, 0) == 0 && Times(0, a) == 0 && Times(a, 1) == a && Times(1, a) == a
  {
  }

  lemma Mono(a: nat, b: nat, c: nat)
    requires b <= c
    ensures Times(a, b) <= Times(a, c) && Times(b, a) <= Times(c, a)
  {
    hide Times;
    Distrib(a, b, c - b);
    Comm(a, b);
    Comm(a, c);
  }

  lemma Grows(a: nat, b: nat)
    requires b >= 1
    ensures a <= Times(a, b)
  {
    hide Times;
    Mono(a, 1, b);
    Small(a);
  }

  lemma Cancel(a: nat, b: nat, e: nat)
    requires e > 0
    ensures Times(a, e) == Times(b, e) <==> a == b
  {
    hide Times;
    var low, high := if a <= b then a else b, if a <= b then b else a;
    Distrib(e, low, high - low);
    Comm(e, low);
    Comm(e, high);
    if low < high {
      Grows(high - low, e);
      Comm(high - low, e);
    }
  }

  lemma QuotRem(x: nat, g: nat)
    requires g > 0
    ensures x == Times(g, Quot(x, g)) + Rem(x, g)
  {
  }

  /** Division is the only way to write `x` as a multiple of `g` and a smaller remainder. */
  lemma UniqueQuotient(x: nat, g: nat, m: nat, r: nat)
    requires g > 0 && x == Times(g, m) + r
    ensures Quot(x, g) == m <==> r < g
  {
    hide Times, Quot, Rem;
    var q := Quot(x, g);
    QuotRem(x, g);
    if q < m {
      Distrib(g, q + 1, m - q - 1);
      Distrib(g, q, 1);
      Small(g);
    }
    if m < q {
      Distrib(g, m + 1, q - m - 1);
      Distrib(g, m, 1);
      Small(g);
    }
  }

  lemma DivSplit(n: nat, d: nat, g: nat)
    requires g > 0
    ensures Times(n, d) == Times(g, Times(n, Quot(d, g))) + Times(n, Rem(d, g))
  {
    hide Times, Quot, Rem;
    QuotRem(d, g);
    Distrib(n, Times(g, Quot(d, g)), Rem(d, g));
    Assoc(n, g, Quot(d, g));
    Comm(n, g);
    Assoc(g, n, Quot(d, g));
  }

  lemma ExactDivision(n: nat, d: nat, g: nat)
    requires g > 0 && Rem(d, g) == 0
    ensures Quot(Times(n, d), g) == Times(n, Quot(d, g))
  {
    hide Times, Quot, Rem;
    DivSplit(n, d, g);
    Small(n);
    UniqueQuotient(Times(n, d), g, Times(n, Quot(d, g)), 0);
  }

  /** `n` pieces of `size` bytes, added up one at a time. */
  ghost function Repeat(n: nat, size: nat): nat {
    if n == 0 then 0 else size + Repeat(n - 1, size)
  }

  lemma {:induction false} RepeatIsProduct(n: nat, size: nat)
    ensures Repeat(n, size) == Times(n, size)
  {
    hide Times;
    Small(size);
    if n > 0 {
      RepeatIsProduct(n - 1, size);
      Comm(n, size);
      Comm(n - 1, size);
      Distrib(size, n - 1, 1);
    }
  }
}
