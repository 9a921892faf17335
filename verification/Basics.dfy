/** Types and facts that several modules use: options, bytes, and division and remainder by a variable. */
module Basics {

  datatype Option<T> = None | Some(value: T)

  type Byte = x: int | 0 <= x < 256

  const NUL: char := '\0'

  function Min(a: int, b: int): int {
    if a <= b then a else b
  }

  lemma {:induction false} Assoc<T>(a: seq<T>, b: seq<T>, c: seq<T>)
    ensures a + b + c == a + (b + c)
  {
  }

  lemma {:induction false} MulGap(d: nat, e: nat, m: nat)
    requires d < e
    ensures e * m >= d * m + m
    decreases e
  {
    assert e * m == (e - 1) * m + m;
    if d + 1 < e {
      MulGap(d, e - 1, m);
    }
  }

  lemma {:induction false} DivUnique(d: nat, e: nat, x: nat, y: nat, m: nat)
    requires x < m && y < m && d * m + x == e * m + y
    ensures d == e && x == y
  {
    if d < e {
      MulGap(d, e, m);
      assert false;
    } else if e < d {
      MulGap(e, d, m);
      assert false;
    }
  }

  lemma {:induction false} ModOf(n: nat, d: nat, x: nat, m: nat)
    requires x < m && n == d * m + x
    ensures n % m == x && n / m == d
  {
    DivUnique(d, n / m, x, n % m, m);
  }

  lemma {:induction false} NextMod(p: nat, m: nat)
    requires m > 0
    ensures (p + 1) % m == if p % m + 1 == m then 0 else p % m + 1
  {
    var x, d := p % m, p / m;
    assert p == d * m + x;
    if x + 1 == m {
      assert p + 1 == (d + 1) * m;
      ModOf(p + 1, d + 1, 0, m);
    } else {
      ModOf(p + 1, d, x + 1, m);
    }
  }

  /** Positions less than m apart have different remainders. */
  lemma {:induction false} ModApart(p: nat, q: nat, m: nat)
    requires p < q < p + m
    ensures p % m != q % m
  {
    if p % m == q % m {
      var d, e := p / m, q / m;
      assert p == d * m + p % m && q == e * m + q % m;
      if d < e {
        MulGap(d, e, m);
      } else if e < d {
        MulGap(e, d, m);
      }
      assert false;
    }
  }

  /** More items than there are values for them: two are equal. */
  lemma {:induction false} Pigeons(f: seq<int>, n: nat) returns (i: nat, j: nat)
    requires |f| > n && forall k :: 0 <= k < |f| ==> 0 <= f[k] < n
    ensures i < j < |f| && f[i] == f[j]
    decreases n
  {
    assert 0 <= f[0] < n;
    if k: nat :| k < |f| && f[k] == n - 1 {
      if m: nat :| m < |f| && m != k && f[m] == n - 1 {
        i, j := if k < m then k else m, if k < m then m else k;
      } else {
        var g := f[..k] + f[k + 1..];
        i, j := Pigeons(g, n - 1);
        i, j := if i < k then i else i + 1, if j < k then j else j + 1;
      }
    } else {
      i, j := Pigeons(f[1..], n - 1);
      i, j := i + 1, j + 1;
    }
  }
}
