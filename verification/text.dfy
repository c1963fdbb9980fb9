/** Character and string helpers used by the name generator and the search
    filter: ASCII case mapping, substring containment and decimal rendering
    of counters. */
module Text {

  predicate IsUpper(c: char) { 'A' <= c <= 'Z' }

  predicate IsLower(c: char) { 'a' <= c <= 'z' }

  predicate IsDigit(c: char) { '0' <= c <= '9' }

  /** ASCII `lowercased()` of one character. */
  function LowerChar(c: char): char
  {
    if IsUpper(c) then (c as int + 32) as char else c
  }

  /** ASCII `lowercased()` of a string: position by position. */
  function Lower(s: string): (r: string)
    ensures |r| == |s|
    ensures forall i :: 0 <= i < |s| ==> r[i] == LowerChar(s[i])
  {
    seq(|s|, i requires 0 <= i < |s| => LowerChar(s[i]))
  }

  /** Lowering twice is lowering once, so a query and its lowered form
      select the same records. */
  lemma LowerIdempotent(s: string)
    ensures Lower(Lower(s)) == Lower(s)
  {
  }

  /** A capitalised word: one upper-case letter followed by lower-case ones. */
  predicate Capitalised(w: string)
  {
    && |w| > 0
    && IsUpper(w[0])
    && forall j :: 1 <= j < |w| ==> IsLower(w[j])
  }

  /** Lowering loses no information on capitalised words. */
  lemma LowerInjectiveOnCapitalised(w: string, v: string)
    requires Capitalised(w) && Capitalised(v)
    requires Lower(w) == Lower(v)
    ensures w == v
  {
    assert |w| == |v|;
    forall j | 0 <= j < |w|
      ensures w[j] == v[j]
    {
      assert Lower(w)[j] == Lower(v)[j];
    }
  }

  /** The lowered form of a capitalised word consists of lower-case letters. */
  lemma LowerOfCapitalised(w: string)
    requires Capitalised(w)
    ensures |Lower(w)| > 0
    ensures forall j :: 0 <= j < |w| ==> IsLower(Lower(w)[j])
  {
  }

  // ---------------------------------------------------------------------------
  // Substring containment (Foundation's `String.contains(_:)`)

  /** `t` occurs in `s` starting at index `i`. */
  ghost predicate OccursAt(s: string, t: string, i: int)
  {
    0 <= i && i + |t| <= |s| && s[i..i + |t|] == t
  }

  predicate IsPrefix(t: string, s: string)
  {
    |t| <= |s| && s[..|t|] == t
  }

  /** Does `s` contain `t` as a contiguous substring? */
  function Contains(s: string, t: string): bool
    decreases |s|
  {
    IsPrefix(t, s) || (|s| > 0 && Contains(s[1..], t))
  }

  /** `Contains` agrees with the positional definition, in both directions. */
  lemma {:induction false} ContainsIff(s: string, t: string)
    ensures Contains(s, t) <==> exists i :: OccursAt(s, t, i)
    decreases |s|
  {
    if IsPrefix(t, s) {
      assert OccursAt(s, t, 0);
    } else if |s| > 0 {
      ContainsIff(s[1..], t);
      if Contains(s[1..], t) {
        var i :| OccursAt(s[1..], t, i);
        assert s[1..][i..i + |t|] == s[i + 1..i + 1 + |t|];
        assert OccursAt(s, t, i + 1);
      } else {
        forall i | OccursAt(s, t, i)
          ensures false
        {
          assert i != 0;
          assert s[1..][i - 1..i - 1 + |t|] == s[i..i + |t|];
          assert OccursAt(s[1..], t, i - 1);
        }
      }
    }
  }

  // ---------------------------------------------------------------------------
  // Decimal rendering of counters (Swift's `"\(n)"` for a non-negative Int)

  function DigitChar(d: nat): char
    requires d < 10
  {
    ('0' as int + d) as char
  }

  function DigitValue(c: char): nat
    requires IsDigit(c)
  {
    c as int - '0' as int
  }

  predicate AllDigits(s: string)
  {
    forall i :: 0 <= i < |s| ==> IsDigit(s[i])
  }

  /** The decimal rendering of `n`: non-empty, only digits, and no leading
      zero unless `n` is zero. */
  function Decimal(n: nat): (s: string)
    ensures |s| > 0 && AllDigits(s)
    ensures n > 0 ==> s[0] != '0'
    decreases n
  {
    if n < 10 then [DigitChar(n)] else Decimal(n / 10) + [DigitChar(n % 10)]
  }

  /** Reads a string of digits back as a number. */
  function ParseDecimal(s: string): nat
    requires AllDigits(s)
    decreases |s|
  {
    if |s| == 0 then 0
    else ParseDecimal(s[..|s| - 1]) * 10 + DigitValue(s[|s| - 1])
  }

  /** Parsing a rendered counter gives the counter back. */
  lemma {:induction false} ParseDecimalRoundTrip(n: nat)
    ensures ParseDecimal(Decimal(n)) == n
    decreases n
  {
    var s := Decimal(n);
    if n < 10 {
    } else {
      ParseDecimalRoundTrip(n / 10);
      assert s[..|s| - 1] == Decimal(n / 10);
    }
  }
}
