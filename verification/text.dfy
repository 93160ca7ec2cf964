/** The few string operations of Python the API relies on: prefix and
    suffix tests, the first field of `str.split`, the decimal spelling of a
    non-negative integer, and `int()` applied to a string. */
module Text {

  import opened Results

  predicate StartsWith(s: string, prefix: string) {
    |prefix| <= |s| && s[..|prefix|] == prefix
  }

  predicate EndsWith(s: string, suffix: string) {
    |suffix| <= |s| && s[|s| - |suffix|..] == suffix
  }

  /** `sep` occurs in `s` starting at index `i`. */
  predicate OccursAt(s: string, sep: string, i: nat) {
    i + |sep| <= |s| && s[i..i + |sep|] == sep
  }

  /** `s.split(sep)[0]`: the text of `s` before the first occurrence of
      `sep`, or all of `s` when `sep` does not occur. */
  function Before(s: string, sep: string): (r: string)
    requires |sep| > 0
    ensures StartsWith(s, r)
    ensures forall i :: 0 <= i < |r| ==> !OccursAt(s, sep, i)
    ensures r == s || OccursAt(s, sep, |r|)
  {
    if OccursAt(s, sep, 0) || |s| == 0 then []
    else
      var rest := Before(s[1..], sep);
      var r := [s[0]] + rest;
      assert StartsWith(s, r) by {
        assert s[1..][..|rest|] == rest;
        assert s[..|r|] == [s[0]] + s[1..][..|rest|];
      }
      assert forall i :: 1 <= i < |r| ==> !OccursAt(s, sep, i) by {
        forall i | 1 <= i < |r| ensures !OccursAt(s, sep, i) {
          OccursShift(s, sep, i - 1);
        }
      }
      assert r == s || OccursAt(s, sep, |r|) by {
        if rest == s[1..] {
          assert s == [s[0]] + s[1..];
        } else {
          OccursShift(s, sep, |rest|);
        }
      }
      r
  }

  /** An occurrence one position into `s` is an occurrence at the start of
      its tail. */
  lemma OccursShift(s: string, sep: string, i: nat)
    requires |s| > 0
    ensures OccursAt(s, sep, i + 1) <==> OccursAt(s[1..], sep, i)
  {
    if i + 1 + |sep| <= |s| {
      var here, there := s[i + 1..i + 1 + |sep|], s[1..][i..i + |sep|];
      assert forall k :: 0 <= k < |sep| ==> here[k] == there[k];
      assert here == there;
    }
  }

  /** `s.split(sep)[1]` for a string that starts with `sep`: the text between
      the first occurrence of `sep` and the next one. */
  function SecondField(s: string, sep: string): (r: string)
    requires |sep| > 0 && StartsWith(s, sep)
    ensures StartsWith(s[|sep|..], r)
  {
    Before(s[|sep|..], sep)
  }

  /** When the first character of `sep` never appears in `a`, the first
      field of `a + sep + t` is `a` itself. */
  lemma {:induction false} BeforeSeparator(a: string, sep: string, t: string)
    requires |sep| > 0 && sep[0] !in a
    ensures Before(a + sep + t, sep) == a
  {
    var s := a + sep + t;
    if |a| == 0 {
      assert s[..|sep|] == sep;
    } else {
      assert !OccursAt(s, sep, 0) by { assert s[0] == a[0] != sep[0]; }
      assert s[1..] == a[1..] + sep + t;
      BeforeSeparator(a[1..], sep, t);
    }
  }

  /** When the first character of `sep` never appears in `s`, splitting on
      `sep` leaves `s` whole. */
  lemma {:induction false} BeforeAbsent(s: string, sep: string)
    requires |sep| > 0 && sep[0] !in s
    ensures Before(s, sep) == s
  {
    if |s| > 0 {
      assert !OccursAt(s, sep, 0) by { assert s[0] != sep[0]; }
      BeforeAbsent(s[1..], sep);
    }
  }

  predicate IsDigit(c: char) {
    '0' <= c <= '9'
  }

  function DigitValue(c: char): nat
    requires IsDigit(c)
  {
    (c as int) - ('0' as int)
  }

  function DigitChar(d: nat): (c: char)
    requires d < 10
    ensures IsDigit(c) && DigitValue(c) == d
  {
    (('0' as int) + d) as char
  }

  predicate AllDigits(s: string) {
    forall i :: 0 <= i < |s| ==> IsDigit(s[i])
  }

  /** The value of a string of decimal digits, most significant first. */
  function DigitsValue(s: string): nat
    requires AllDigits(s)
  {
    if |s| == 0 then 0 else 10 * DigitsValue(s[..|s| - 1]) + DigitValue(s[|s| - 1])
  }

  /** How Python's f-string spells a non-negative integer: decimal digits,
      no sign, no leading zero. */
  function DecimalString(n: nat): (r: string)
    ensures |r| > 0 && AllDigits(r)
    ensures |r| > 1 ==> r[0] != '0'
  {
    if n < 10 then [DigitChar(n)] else DecimalString(n / 10) + [DigitChar(n % 10)]
  }

  /** `int(s)` on a string: an optional sign followed by at least one decimal
      digit; anything else raises, which is modelled as `None`. */
  function ParseInt(s: string): (r: Option<int>)
    ensures r.Some? <==>
              (|s| > 0 && AllDigits(s)) || (|s| > 1 && (s[0] == '+' || s[0] == '-') && AllDigits(s[1..]))
    ensures r.Some? && r.value < 0 ==> s[0] == '-'
  {
    if |s| > 0 && (s[0] == '+' || s[0] == '-') then
      var body := s[1..];
      if |body| > 0 && AllDigits(body) then
        Some(if s[0] == '-' then -(DigitsValue(body) as int) else DigitsValue(body))
      else None
    else if |s| > 0 && AllDigits(s) then Some(DigitsValue(s))
    else None
  }

  /** Reading back the decimal spelling of a number gives the number. */
  lemma {:induction false} DigitsValueOfDecimal(n: nat)
    ensures DigitsValue(DecimalString(n)) == n
  {
    var s := DecimalString(n);
    if n >= 10 {
      DigitsValueOfDecimal(n / 10);
      assert s[..|s| - 1] == DecimalString(n / 10);
    }
  }

  /** A leading zero does not change the digits' value. */
  lemma {:induction false} DigitsValueLeadingZero(s: string)
    requires AllDigits(s)
    ensures AllDigits("0" + s) && DigitsValue("0" + s) == DigitsValue(s)
  {
    var z := "0" + s;
    if |s| > 0 {
      assert z[..|z| - 1] == "0" + s[..|s| - 1];
      assert z[|z| - 1] == s[|s| - 1];
      DigitsValueLeadingZero(s[..|s| - 1]);
    } else {
      assert z[..|z| - 1] == [];
    }
  }

  /** `int()` ignores leading zeros. */
  lemma ParseIntLeadingZero(s: string)
    requires |s| > 0 && AllDigits(s)
    ensures ParseInt("0" + s) == ParseInt(s)
  {
    DigitsValueLeadingZero(s);
  }

  /** `int()` ignores a leading `+` before digits. */
  lemma ParseIntPlus(s: string)
    requires AllDigits(s)
    ensures ParseInt("+" + s) == ParseInt(s)
  {
    assert ("+" + s)[1..] == s;
  }

  /** `int()` of `-` before digits is the negation of the digits' value. */
  lemma ParseIntMinus(s: string)
    requires |s| > 0 && AllDigits(s)
    ensures ParseInt(s).Some? && ParseInt("-" + s) == Some(-ParseInt(s).value)
  {
    assert ("-" + s)[1..] == s;
  }

  lemma ParseIntOfDecimal(n: nat)
    ensures ParseInt(DecimalString(n)) == Some(n)
  {
    DigitsValueOfDecimal(n);
  }
}
