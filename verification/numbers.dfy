/** Amounts as the tracker reads and writes them. The source relies on
    JavaScript's `Number(text)` and on a number's `toString`; here amounts
    are whole numbers, `Show` writes one in decimal and `ParseNumber`
    reads decimal digit strings with an optional sign, white space around
    them ignored, and the empty (or all-blank) text as 0. Other numerals
    `Number()` accepts, such as `5.0`, `1e2` or `0x10`, are read as not a
    number here. */
module Numbers {
  import opened Optional
  import opened Text

  predicate IsDigit(c: char) {
    '0' <= c <= '9'
  }

  predicate IsDigits(s: string) {
    |s| > 0 && forall i :: 0 <= i < |s| ==> IsDigit(s[i])
  }

  function DigitChar(d: nat): (c: char)
    requires d < 10
    ensures IsDigit(c) && c as int - '0' as int == d
  {
    ('0' as int + d) as char
  }

  /** The value of a run of decimal digits, most significant first. */
  function DigitsValue(s: string): nat
    requires forall i :: 0 <= i < |s| ==> IsDigit(s[i])
    decreases |s|
  {
    if |s| == 0 then 0
    else
      assert IsDigit(s[|s| - 1]);
      DigitsValue(s[..|s| - 1]) * 10 + (s[|s| - 1] as int - '0' as int)
  }

  function ShowNat(n: nat): (r: string)
    ensures IsDigits(r)
    decreases n
  {
    if n < 10 then [DigitChar(n)] else ShowNat(n / 10) + [DigitChar(n % 10)]
  }

  /** `String(n)`: an optional minus sign, then decimal digits. */
  function Show(n: int): (r: string)
    ensures |r| > 0
    ensures forall i :: 0 <= i < |r| ==> IsDigit(r[i]) || r[i] == '-'
  {
    if n < 0 then "-" + ShowNat(-n) else ShowNat(n)
  }

  /** A whole-number numeral: decimal digits after an optional sign. */
  predicate IsNumeral(t: string) {
    IsDigits(t) || (|t| > 0 && (t[0] == '-' || t[0] == '+') && IsDigits(t[1..]))
  }

  /** `Number(s)` restricted to whole numbers; `None` stands for `NaN`. */
  function ParseNumber(s: string): (r: Option<int>)
    ensures r.Some? <==> Trim(s) == "" || IsNumeral(Trim(s))
    ensures Trim(s) == "" ==> r == Some(0)
    ensures r.Some? && r.value < 0 ==> Trim(s)[0] == '-'
    ensures IsDigits(Trim(s)) ==> r == Some(DigitsValue(Trim(s)))
    ensures var t := Trim(s); |t| > 0 && t[0] == '+' && IsDigits(t[1..]) ==> r == Some(DigitsValue(t[1..]))
    ensures var t := Trim(s); |t| > 0 && t[0] == '-' && IsDigits(t[1..]) ==> r == Some(-(DigitsValue(t[1..]) as int))
  {
    var t := Trim(s);
    if t == "" then Some(0)
    else if t[0] == '-' && IsDigits(t[1..]) then Some(-(DigitsValue(t[1..]) as int))
    else if t[0] == '+' && IsDigits(t[1..]) then Some(DigitsValue(t[1..]))
    else if IsDigits(t) then Some(DigitsValue(t))
    else None
  }

  /** `Number(s) || 0`: text that is not a numeral reads as 0. */
  function NumberOrZero(s: string): int {
    ParseNumber(s).GetOr(0)
  }

  lemma {:induction false} ShowNatValue(n: nat)
    ensures DigitsValue(ShowNat(n)) == n
    decreases n
  {
    if n >= 10 {
      var s := ShowNat(n);
      assert s[..|s| - 1] == ShowNat(n / 10);
      ShowNatValue(n / 10);
    }
  }

  /** Digits are not white space, so a run of them is already trimmed. */
  lemma DigitsTrimmed(t: string)
    requires IsDigits(t)
    ensures IsTrimmed(t) && Trim(t) == t
  {
    assert IsDigit(t[0]) && IsDigit(t[|t| - 1]);
  }

  lemma ParseDigits(t: string)
    requires IsDigits(t)
    ensures ParseNumber(t) == Some(DigitsValue(t))
  {
    DigitsTrimmed(t);
    assert IsDigit(t[0]);
  }

  lemma ParseNegative(s: string)
    requires |s| > 0 && s[0] == '-' && IsDigits(s[1..])
    ensures ParseNumber(s) == Some(-(DigitsValue(s[1..]) as int))
  {
    assert IsDigit(s[|s| - 1]) by {
      assert s[|s| - 1] == s[1..][|s| - 2];
    }
    assert IsTrimmed(s);
  }

  /** A worked example of `ParseNumber`'s contract, kept as documentation:
      a plus sign and surrounding white space do not change the value read,
      so ` +5` reads as 5. */
  lemma PlusSignRead()
    ensures ParseNumber(" +5") == Some(5)
  {
    TrimPadded(" ", "+5", "");
    assert " " + "+5" + "" == " +5";
    assert "+5"[1..] == "5" && DigitsValue("5") == 5;
  }

  /** A negative number is written as a minus sign and the digits of its
      magnitude. */
  lemma ShowNegative(n: int)
    requires n < 0
    ensures var s := Show(n); |s| > 0 && s[0] == '-' && s[1..] == ShowNat(-n)
  {
    assert Show(n) == "-" + ShowNat(-n);
  }

  lemma ShowParseNegative(n: int)
    requires n < 0
    ensures ParseNumber(Show(n)) == Some(n)
  {
    var m: nat := -n;
    ShowNegative(n);
    ParseNegative(Show(n));
    ShowNatValue(m);
  }

  lemma ShowParseNatural(n: nat)
    ensures ParseNumber(Show(n)) == Some(n)
  {
    var t := ShowNat(n);
    assert Show(n) == t;
    ParseDigits(t);
    ShowNatValue(n);
  }

  /** Reading back what `Show` writes gives the number written. */
  lemma ShowParse(n: int)
    ensures ParseNumber(Show(n)) == Some(n)
    ensures NumberOrZero(Show(n)) == n
  {
    if n < 0 {
      ShowParseNegative(n);
    } else {
      ShowParseNatural(n);
    }
  }
}
