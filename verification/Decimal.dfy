/** Decimal suffixes (strconv.Itoa) and the identifiers built from them. */
module Decimal {

  function Digit(d: nat): char
    requires d < 10
  {
    ('0' as int + d) as char
  }

  function Itoa(n: nat): (s: string)
    ensures s != [] && forall i :: 0 <= i < |s| ==> '0' <= s[i] <= '9'
  {
    if n < 10 then [Digit(n)] else Itoa(n / 10) + [Digit(n % 10)]
  }

  function Atoi(s: string): nat
    requires forall i :: 0 <= i < |s| ==> '0' <= s[i] <= '9'
  {
    if s == [] then 0 else 10 * Atoi(s[..|s| - 1]) + (s[|s| - 1] as int - '0' as int)
  }

  /** The digits themselves. */
  lemma ItoaDigits(n: nat, d: nat)
    requires d < 10
    ensures Itoa(d) == ["0123456789"[d]]
    ensures n > 0 ==> Itoa(10 * n + d) == Itoa(n) + ["0123456789"[d]]
  {
    assert Digit(d) == "0123456789"[d];
    assert n > 0 ==> (10 * n + d) / 10 == n && (10 * n + d) % 10 == d;
  }

  lemma {:induction false} AtoiItoa(n: nat)
    ensures Atoi(Itoa(n)) == n
  {
    var s := Itoa(n);
    if n < 10 {
      assert s[..0] == [];
    } else {
      AtoiItoa(n / 10);
      assert s[..|s| - 1] == Itoa(n / 10);
    }
  }

  // ----- numbered identifiers -----

  function LastDash(s: string): (i: int)
    ensures -1 <= i < |s|
  {
    if s == [] then -1 else if s[|s| - 1] == '-' then |s| - 1 else LastDash(s[..|s| - 1])
  }

  lemma {:induction false} LastDashOf(prefix: string, digits: string)
    requires '-' !in digits
    ensures LastDash(prefix + "-" + digits) == |prefix|
  {
    var s := prefix + "-" + digits;
    if digits == [] {
      assert s == prefix + "-";
    } else {
      LastDashOf(prefix, digits[..|digits| - 1]);
      assert s[..|s| - 1] == prefix + "-" + digits[..|digits| - 1];
    }
  }

  /** `id` ends in the number `n`, whatever stands before the last dash. */
  ghost predicate Numbered(id: string, n: nat) {
    exists prefix :: id == prefix + "-" + Itoa(n)
  }

  /** Equal identifiers carry equal numbers, so the text before the number can never make two of them collide. */
  lemma NumbersTellApart(id: string, m: nat, n: nat)
    requires Numbered(id, m) && Numbered(id, n)
    ensures m == n
  {
    var a :| id == a + "-" + Itoa(m);
    var b :| id == b + "-" + Itoa(n);
    LastDashOf(a, Itoa(m));
    LastDashOf(b, Itoa(n));
    assert id[|a| + 1..] == Itoa(m) && id[|b| + 1..] == Itoa(n);
    AtoiItoa(m);
    AtoiItoa(n);
  }

  predicate Distinct<T(==)>(s: seq<T>) {
    forall i, j :: 0 <= i < j < |s| ==> s[i] != s[j]
  }

  /** Every identifier of the list has a number of at most `top`. */
  ghost predicate NumberedUpTo(ids: seq<string>, top: nat) {
    forall id :: id in ids ==> exists n: nat :: n <= top && Numbered(id, n)
  }

  lemma NextIsNew(ids: seq<string>, top: nat, id: string)
    requires NumberedUpTo(ids, top) && Distinct(ids) && Numbered(id, top + 1)
    ensures id !in ids && Distinct(ids + [id]) && NumberedUpTo(ids + [id], top + 1)
  {
    if id in ids {
      var n: nat :| n <= top && Numbered(id, n);
      NumbersTellApart(id, n, top + 1);
      assert false;
    }
    forall earlier | earlier in ids
      ensures exists n: nat :: n <= top + 1 && Numbered(earlier, n)
    {
      var n: nat :| n <= top && Numbered(earlier, n);
    }
  }
}
