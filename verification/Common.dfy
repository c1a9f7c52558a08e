/** What several components share. */
module Common {
  datatype Option<+T> = None | Some(value: T)

  function Least(a: nat, b: nat): nat {
    if a <= b then a else b
  }

  predicate NoRepeats(s: seq<nat>) {
    forall a, b :: 0 <= a < b < |s| ==> s[a] != s[b]
  }

  /** Numbers below n without repeats are at most n. */
  lemma NoRepeatsBound(s: seq<nat>, n: nat)
    requires NoRepeats(s) && forall k :: 0 <= k < |s| ==> s[k] < n
    ensures |s| <= n
  {
    if s != [] {
      assert s[0] < n;
      if n - 1 in s {
        var at :| 0 <= at < |s| && s[at] == n - 1;
        NoRepeatsBound(s[..at] + s[at + 1..], n - 1);
      } else {
        NoRepeatsBound(s, n - 1);
      }
    }
  }

  lemma MulAtLeast(k: int, b: nat)
    requires k >= 1
    ensures k * b >= b
  {
    assert k * b == (k - 1) * b + b;
  }

  /** A quotient and remainder that fit are the quotient and the remainder. */
  lemma UniqueQuotient(x: nat, b: nat, q: nat, r: nat)
    requires b > 0 && x == q * b + r && r < b
    ensures x / b == q && x % b == r
  {
    var q1, r1 := x / b, x % b;
    var k := q - q1;
    assert q * b == q1 * b + k * b && (-k) * b == -(k * b);
    if k >= 1 { MulAtLeast(k, b); }
    if k <= -1 { MulAtLeast(-k, b); }
  }
}
