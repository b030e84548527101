/**
 * Decimal formatting of natural numbers, the `fmt.Sprint(n)` with which
 * every backend turns its numeric counter into a short id.
 */
module Decimal {

  function Digit(d: nat): (c: char)
    requires d < 10
    ensures '0' <= c <= '9'
  {
    (48 + d) as char
  }

  ghost predicate IsDigits(s: string)
  {
    forall i :: 0 <= i < |s| ==> '0' <= s[i] <= '9'
  }

  /** `fmt.Sprint(n)`: the shortest decimal numeral of `n`. */
  function Sprint(n: nat): (s: string)
    ensures 1 <= |s| && IsDigits(s)
    ensures (|s| == 1) == (n < 10)
    decreases n
  {
    if n < 10 then [Digit(n)] else Sprint(n / 10) + [Digit(n % 10)]
  }

  /** Distinct counters give distinct ids. */
  lemma {:induction false} SprintInjective(a: nat, b: nat)
    ensures Sprint(a) == Sprint(b) ==> a == b
    decreases a
  {
    if Sprint(a) == Sprint(b) && 10 <= a && 10 <= b {
      var sa, sb := Sprint(a), Sprint(b);
      assert sa[|sa| - 1] == Digit(a % 10) && sb[|sb| - 1] == Digit(b % 10);
      assert Sprint(a / 10) == sa[..|sa| - 1] == sb[..|sb| - 1] == Sprint(b / 10);
      SprintInjective(a / 10, b / 10);
    }
  }

  /** Only zero is written with a leading '0', so an id such as "01" is never produced. */
  lemma {:induction false} SprintNoLeadingZero(n: nat)
    ensures Sprint(n)[0] == '0' ==> n == 0
    decreases n
  {
    if 10 <= n {
      SprintNoLeadingZero(n / 10);
      assert Sprint(n)[0] == Sprint(n / 10)[0];
    }
  }

  /** The ids `Sprint(first)`, `Sprint(first + 1)`, ..., `count` of them. */
  function IdRange(first: nat, count: nat): (r: seq<string>)
    ensures |r| == count && forall j :: 0 <= j < count ==> r[j] == Sprint(first + j)
    decreases count
  {
    if count == 0 then [] else IdRange(first, count - 1) + [Sprint(first + count - 1)]
  }

  /** An id with a leading '0' (such as "01") or "0" itself is the id of no line. */
  lemma NotAnId(id: string)
    requires id != [] && id[0] == '0'
    ensures forall k: nat :: 1 <= k ==> Sprint(k) != id
  {
    forall k: nat | 1 <= k
      ensures Sprint(k) != id
    {
      SprintNoLeadingZero(k);
    }
  }
}
