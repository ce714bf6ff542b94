/**
 * Character classes and string helpers shared by both tools: ASCII decimal
 * digits as Python's `\d` and `int()` read them here, whitespace as Python's
 * `str.isspace` (which is what `\s` and `str.strip` use), decimal formatting
 * with zero padding (`f"{n:03d}"`), and the code-point order Python uses to
 * compare strings.
 */
module Text {

  predicate IsDigit(c: char)
  {
    '0' <= c <= '9'
  }

  predicate AllDigits(s: string)
  {
    forall i :: 0 <= i < |s| ==> IsDigit(s[i])
  }

  /** The characters for which Python's `str.isspace()` holds. */
  predicate IsSpace(c: char)
  {
    var n := c as int;
    || (9 <= n <= 13)
    || (28 <= n <= 32)
    || n == 0x85
    || n == 0xA0
    || n == 0x1680
    || (0x2000 <= n <= 0x200A)
    || n == 0x2028
    || n == 0x2029
    || n == 0x202F
    || n == 0x205F
    || n == 0x3000
  }

  predicate AllSpace(s: string)
  {
    forall i :: 0 <= i < |s| ==> IsSpace(s[i])
  }

  /** Length of the longest run of digits at the start of `s` (greedy `\d+`). */
  function LeadingDigits(s: string): (n: nat)
    ensures n <= |s|
    ensures AllDigits(s[..n])
    ensures n < |s| ==> !IsDigit(s[n])
  {
    if s == [] || !IsDigit(s[0]) then 0 else 1 + LeadingDigits(s[1..])
  }

  /** A run of digits ended by a non-digit is exactly what LeadingDigits measures. */
  lemma LeadingDigitsOf(s: string, k: nat)
    requires k <= |s| && AllDigits(s[..k])
    requires k < |s| ==> !IsDigit(s[k])
    ensures LeadingDigits(s) == k
  {
    var n := LeadingDigits(s);
    forall j | 0 <= j < k
      ensures IsDigit(s[j])
    {
      assert s[..k][j] == s[j];
    }
    forall j | 0 <= j < n
      ensures IsDigit(s[j])
    {
      assert s[..n][j] == s[j];
    }
  }

  /** Length of the longest run of whitespace at the start of `s` (greedy `\s*`). */
  function LeadingSpaces(s: string): (n: nat)
    ensures n <= |s|
    ensures AllSpace(s[..n])
    ensures n < |s| ==> !IsSpace(s[n])
  {
    if s == [] || !IsSpace(s[0]) then 0 else 1 + LeadingSpaces(s[1..])
  }

  lemma LeadingSpacesOf(s: string, k: nat)
    requires k <= |s| && AllSpace(s[..k])
    requires k < |s| ==> !IsSpace(s[k])
    ensures LeadingSpaces(s) == k
  {
    var n := LeadingSpaces(s);
    forall j | 0 <= j < k
      ensures IsSpace(s[j])
    {
      assert s[..k][j] == s[j];
    }
    forall j | 0 <= j < n
      ensures IsSpace(s[j])
    {
      assert s[..n][j] == s[j];
    }
  }

  /**
   * End of `s[lo..hi]` once its trailing whitespace is dropped: every
   * character from the result up to `hi` is whitespace, and the one just
   * before the result (if it is past `lo`) is not.
   */
  function TrimEnd(s: string, lo: nat, hi: nat): (e: nat)
    requires lo <= hi <= |s|
    ensures lo <= e <= hi
    decreases hi - lo
  {
    if hi == lo || !IsSpace(s[hi - 1]) then hi else TrimEnd(s, lo, hi - 1)
  }

  /**
   * Every character from TrimEnd's result up to `hi` is whitespace, and the
   * one just before the result (if it is past `lo`) is not.
   */
  lemma {:induction false} TrimEndSpaces(s: string, lo: nat, hi: nat)
    requires lo <= hi <= |s|
    ensures forall j :: TrimEnd(s, lo, hi) <= j < hi ==> IsSpace(s[j])
    ensures TrimEnd(s, lo, hi) > lo ==> !IsSpace(s[TrimEnd(s, lo, hi) - 1])
    decreases hi - lo
  {
    if hi != lo && IsSpace(s[hi - 1]) {
      TrimEndSpaces(s, lo, hi - 1);
    }
  }

  /** The properties TrimEndSpaces states pin TrimEnd's result down. */
  lemma TrimEndOf(s: string, lo: nat, hi: nat, e: nat)
    requires lo <= e <= hi <= |s|
    requires forall j :: e <= j < hi ==> IsSpace(s[j])
    requires e > lo ==> !IsSpace(s[e - 1])
    ensures TrimEnd(s, lo, hi) == e
  {
    TrimEndSpaces(s, lo, hi);
  }

  /** Python's `str.strip()`: `s` without its leading and trailing whitespace. */
  function Strip(s: string): (r: string)
    ensures |r| <= |s|
    ensures r == [] || (!IsSpace(r[0]) && !IsSpace(r[|r| - 1]))
  {
    var lead := LeadingSpaces(s);
    TrimEndSpaces(s, lead, |s|);
    s[lead..TrimEnd(s, lead, |s|)]
  }

  /**
   * What Strip gives neither starts nor ends with whitespace, and it is the
   * part of `s` left between an all-whitespace prefix and an all-whitespace
   * suffix; together these determine it.
   */
  lemma StripShape(s: string)
    ensures var r := Strip(s);
      r == [] || (!IsSpace(r[0]) && !IsSpace(r[|r| - 1]))
    ensures var r := Strip(s);
      exists i :: 0 <= i <= |s| - |r| && s[i..i + |r|] == r && AllSpace(s[..i]) && AllSpace(s[i + |r|..])
  {
    var lead := LeadingSpaces(s);
    var end := TrimEnd(s, lead, |s|);
    TrimEndSpaces(s, lead, |s|);
    assert AllSpace(s[end..]) by {
      forall j | 0 <= j < |s| - end
        ensures IsSpace(s[end..][j])
      {
        assert s[end..][j] == s[end + j];
      }
    }
    assert s[lead..lead + (end - lead)] == s[lead..end];
  }

  /** Whitespace in front of a string does not change what Strip gives. */
  lemma StripAfterSpaces(ws: string, s: string)
    requires AllSpace(ws)
    ensures Strip(ws + s) == Strip(s)
  {
    var lead := LeadingSpaces(s);
    var end := TrimEnd(s, lead, |s|);
    LeadingSpacesAfterSpaces(ws, s);
    TrimEndAfterPrefix(ws, s, lead);
    StripBetween(ws + s, |ws| + lead, |ws| + end);
    StripBetween(s, lead, end);
    SliceAfterPrefix(ws, s, lead, end);
  }

  /** Strip keeps what lies between the leading run and the trimmed end. */
  lemma StripBetween(t: string, lead: nat, end: nat)
    requires lead == LeadingSpaces(t) && lead <= |t| && end == TrimEnd(t, lead, |t|)
    ensures Strip(t) == t[lead..end]
  {
  }

  lemma SliceAfterPrefix(ws: string, s: string, i: nat, j: nat)
    requires i <= j <= |s|
    ensures (ws + s)[|ws| + i..|ws| + j] == s[i..j]
  {
  }

  lemma LeadingSpacesAfterSpaces(ws: string, s: string)
    requires AllSpace(ws)
    ensures LeadingSpaces(ws + s) == |ws| + LeadingSpaces(s)
  {
    var lead := LeadingSpaces(s);
    var t := ws + s;
    var k := |ws| + lead;
    assert AllSpace(t[..k]) by {
      forall j | 0 <= j < k
        ensures IsSpace(t[..k][j])
      {
        if j < |ws| {
          assert t[..k][j] == ws[j];
        } else {
          assert t[..k][j] == s[..lead][j - |ws|];
        }
      }
    }
    assert k < |t| ==> t[k] == s[lead];
    LeadingSpacesOf(t, k);
  }

  lemma TrimEndAfterPrefix(ws: string, s: string, lo: nat)
    requires lo <= |s|
    ensures TrimEnd(ws + s, |ws| + lo, |ws + s|) == |ws| + TrimEnd(s, lo, |s|)
  {
    var t := ws + s;
    var end := TrimEnd(s, lo, |s|);
    TrimEndSpaces(s, lo, |s|);
    forall j | |ws| + end <= j < |t|
      ensures IsSpace(t[j])
    {
      assert t[j] == s[j - |ws|];
    }
    assert |ws| + end > |ws| + lo ==> t[|ws| + end - 1] == s[end - 1];
    TrimEndOf(t, |ws| + lo, |t|, |ws| + end);
  }

  function DigitValue(c: char): nat
    requires IsDigit(c)
  {
    (c as int) - ('0' as int)
  }

  function DigitChar(d: nat): (c: char)
    requires d < 10
    ensures IsDigit(c) && DigitValue(c) == d
  {
    ('0' as int + d) as char
  }

  /** Python's `int(s)` for a string of ASCII digits; leading zeros are allowed. */
  function DecimalValue(s: string): nat
    requires AllDigits(s)
  {
    if s == [] then 0 else DecimalValue(s[..|s| - 1]) * 10 + DigitValue(s[|s| - 1])
  }

  /** A leading '0' does not change the value of a digit string. */
  lemma {:induction false} DecimalValueLeadingZero(s: string)
    requires AllDigits(s)
    ensures AllDigits(['0'] + s) && DecimalValue(['0'] + s) == DecimalValue(s)
  {
    if s != [] {
      assert (['0'] + s)[..|s|] == ['0'] + s[..|s| - 1];
      DecimalValueLeadingZero(s[..|s| - 1]);
    }
  }

  /** The shortest decimal numeral of `n`, as `str(n)` writes it. */
  function Decimal(n: nat): (r: string)
    ensures |r| > 0 && AllDigits(r)
    ensures DecimalValue(r) == n
    ensures |r| > 1 ==> r[0] != '0'
    decreases n
  {
    if n < 10 then [DigitChar(n)]
    else
      var p := Decimal(n / 10);
      var r := p + [DigitChar(n % 10)];
      assert r[..|r| - 1] == p;
      r
  }

  function Zeros(k: nat): (r: string)
    ensures |r| == k && AllDigits(r)
    ensures forall i :: 0 <= i < k ==> r[i] == '0'
  {
    if k == 0 then [] else ['0'] + Zeros(k - 1)
  }

  lemma {:induction false} DecimalValueAfterZeros(k: nat, s: string)
    requires AllDigits(s)
    ensures AllDigits(Zeros(k) + s) && DecimalValue(Zeros(k) + s) == DecimalValue(s)
  {
    if k > 0 {
      DecimalValueAfterZeros(k - 1, s);
      assert Zeros(k) + s == ['0'] + (Zeros(k - 1) + s);
      DecimalValueLeadingZero(Zeros(k - 1) + s);
    } else {
      assert Zeros(k) + s == s;
    }
  }

  /**
   * Python's `f"{n:0{width}d}"` for a natural `n`: the decimal numeral of `n`
   * padded on the left with zeros to at least `width` characters. Reading
   * it back with `int()` gives `n` again.
   */
  function ZeroPad(n: nat, width: nat): (r: string)
    ensures AllDigits(r) && DecimalValue(r) == n
    ensures |r| == if |Decimal(n)| < width then width else |Decimal(n)|
  {
    var d := Decimal(n);
    if |d| < width then
      DecimalValueAfterZeros(width - |d|, d);
      Zeros(width - |d|) + d
    else d
  }

  predicate EndsWith(s: string, suffix: string)
  {
    |suffix| <= |s| && s[|s| - |suffix|..] == suffix
  }

  /** Lower-casing of ASCII letters; every other character is left as it is. */
  function LowerChar(c: char): char
  {
    if 'A' <= c <= 'Z' then (c as int + 32) as char else c
  }

  function Lower(s: string): (r: string)
    ensures |r| == |s|
    ensures forall i :: 0 <= i < |s| ==> r[i] == LowerChar(s[i])
  {
    seq(|s|, i requires 0 <= i < |s| => LowerChar(s[i]))
  }

  /** Python's `a <= b` on strings: code point by code point, a proper prefix first. */
  predicate LexLe(a: string, b: string)
  {
    if a == [] then true
    else if b == [] then false
    else if a[0] != b[0] then a[0] < b[0]
    else LexLe(a[1..], b[1..])
  }

  lemma {:induction false} LexLeTotal(a: string, b: string)
    ensures LexLe(a, b) || LexLe(b, a)
  {
    if a != [] && b != [] && a[0] == b[0] {
      LexLeTotal(a[1..], b[1..]);
    }
  }
}
