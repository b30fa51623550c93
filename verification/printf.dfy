/**
  The three pieces of C formatted output the clock firmware relies on:
  the `%d` conversion (used for the dotted-quad IP log line), the `%02d`
  conversion (used for the clock labels) and the truncation rule of
  `snprintf` into a fixed-size buffer. Strings are sequences of `char`;
  decimal text is parsed back by `ParseDigits`, which is the inverse the
  formatting contracts are stated against.
*/
module Printf {

  predicate IsDigit(c: char) {
    '0' <= c <= '9'
  }

  predicate AllDigits(s: string) {
    forall i :: 0 <= i < |s| ==> IsDigit(s[i])
  }

  function DigitValue(c: char): (d: nat)
    requires IsDigit(c)
    ensures d < 10
  {
    c as int - '0' as int
  }

  function DigitChar(d: nat): (c: char)
    requires d < 10
    ensures IsDigit(c) && DigitValue(c) == d
  {
    ('0' as int + d) as char
  }

  function Pow10(k: nat): (p: nat)
    ensures p >= 1
  {
    if k == 0 then 1 else 10 * Pow10(k - 1)
  }

  /** The value of a string of decimal digits, most significant first ("" is 0). */
  function ParseDigits(s: string): nat
    requires AllDigits(s)
  {
    if |s| == 0 then 0 else 10 * ParseDigits(s[..|s| - 1]) + DigitValue(s[|s| - 1])
  }

  /**
    The decimal digits of `n` with no leading zero, as `%d` prints a
    non-negative value. The length is the least `k` with `n < 10^k`.
  */
  function Digits(n: nat): (s: string)
    ensures 1 <= |s| && AllDigits(s)
    ensures ParseDigits(s) == n
    ensures n < Pow10(|s|)
    ensures |s| == 1 || Pow10(|s| - 1) <= n
    decreases n
  {
    if n < 10 then [DigitChar(n)]
    else
      var s := Digits(n / 10) + [DigitChar(n % 10)];
      assert s[..|s| - 1] == Digits(n / 10);
      s
  }

  /**
    `%d`: an optional minus sign followed by the digits of the magnitude,
    in the shortest form (no leading zero).
  */
  function FormatD(n: int): (s: string)
    ensures n >= 0 ==> AllDigits(s) && ParseDigits(s) == n
    ensures n >= 0 ==> |s| >= 1 && n < Pow10(|s|) && (|s| == 1 || Pow10(|s| - 1) <= n)
    ensures n < 0 ==> |s| >= 2 && s[0] == '-' && AllDigits(s[1..]) && ParseDigits(s[1..]) == -n
    ensures n < 0 ==> |s| >= 2 && -n < Pow10(|s| - 1) && (|s| == 2 || Pow10(|s| - 2) <= -n)
  {
    if n < 0 then "-" + Digits(-n) else Digits(n)
  }

  lemma {:induction false} LeadingZeroValue(s: string)
    requires AllDigits(s)
    ensures AllDigits("0" + s) && ParseDigits("0" + s) == ParseDigits(s)
    decreases |s|
  {
    var z := "0" + s;
    assert AllDigits(z) by {
      forall i | 0 <= i < |z|
        ensures IsDigit(z[i])
      {
        if i > 0 {
          assert z[i] == s[i - 1];
        }
      }
    }
    if |s| == 0 {
      assert z[..0] == "";
    } else {
      assert z[..|z| - 1] == "0" + s[..|s| - 1];
      LeadingZeroValue(s[..|s| - 1]);
    }
  }

  /**
    `%02d`: minimum field width 2, padded with zeros after any sign. A
    negative value already fills the width with its sign and one digit,
    so only a single-digit non-negative value is padded.
  */
  function Format02d(n: int): (s: string)
    ensures n >= 0 ==> AllDigits(s) && ParseDigits(s) == n
    ensures n >= 0 ==> |s| == (if n < 10 then 2 else |Digits(n)|)
    ensures 0 <= n < 100 ==> |s| == 2
    ensures n < 0 ==> s == FormatD(n)
    ensures |s| >= 2
  {
    if n < 0 then FormatD(n)
    else if n < 10 then
      LeadingZeroValue(Digits(n));
      "0" + Digits(n)
    else Digits(n)
  }

  /**
    What `snprintf(buf, size, ...)` leaves behind for formatted text `text`:
    the characters it stores (at most `size - 1` of the text followed by a
    NUL; nothing at all when `size` is 0) and the value it returns, which is
    the length of the complete text whether or not it fitted.
  */
  datatype Written = Written(stored: seq<char>, returned: nat) {

    /** The text the buffer now holds, up to (not including) the NUL. */
    function Text(): string {
      if |stored| == 0 then [] else stored[..|stored| - 1]
    }
  }

  /** The caller-visible truncation test of C: the return value reached the size. */
  predicate Truncated(w: Written, size: nat) {
    w.returned >= size
  }

  function Snprintf(size: nat, text: string): (w: Written)
    ensures |w.stored| <= size
    ensures w.returned == |text|
    ensures size > 0 ==> |w.stored| >= 1 && w.stored[|w.stored| - 1] == '\0'
    ensures w.Text() <= text
    ensures size > 0 ==> w.Text() == text[..if |text| < size then |text| else size - 1]
    ensures !Truncated(w, size) <==> w.stored == text + ['\0']
  {
    if size == 0 then Written([], |text|)
    else if |text| < size then Written(text + ['\0'], |text|)
    else Written(text[..size - 1] + ['\0'], |text|)
  }
}
