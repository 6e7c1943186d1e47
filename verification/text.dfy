/** The string primitives the appointment book is built from, with the meaning
    Python gives them: `str.strip()`, `str.lower()`, `str.startswith`, the `in`
    operator on strings, a word-bounded regular-expression search, `int()` on a
    decimal string and zero-padded decimal formatting (`f"{n:04d}"`). */
module Text {
  import opened Wrappers

  // ---------------------------------------------------------------------
  // Whitespace and str.strip()
  // ---------------------------------------------------------------------

  /** Python's `str.isspace()` for a single character. */
  predicate IsSpace(c: char) {
    || c == ' '
    || ('\t' <= c <= '\r')
    || ('\U{1c}' <= c <= '\U{1f}')
    || c == '\U{85}' || c == '\U{a0}' || c == '\U{1680}'
    || ('\U{2000}' <= c <= '\U{200a}')
    || c == '\U{2028}' || c == '\U{2029}' || c == '\U{202f}' || c == '\U{205f}' || c == '\U{3000}'
  }

  predicate AllSpace(s: string) {
    forall i :: 0 <= i < |s| ==> IsSpace(s[i])
  }

  /** Neither the first nor the last character is whitespace. */
  predicate NoEdgeSpace(s: string) {
    |s| == 0 || (!IsSpace(s[0]) && !IsSpace(s[|s| - 1]))
  }

  /** The number of whitespace characters at the start of `s`. */
  function LeadingSpace(s: string): (k: nat)
    ensures k <= |s| && AllSpace(s[..k])
    ensures k == |s| || !IsSpace(s[k])
  {
    if |s| == 0 || !IsSpace(s[0]) then 0
    else
      var k := LeadingSpace(s[1..]) + 1;
      assert s[..k] == [s[0]] + s[1..][..k - 1];
      k
  }

  /** The length of `s` without its trailing whitespace. */
  function EndOfText(s: string): (k: nat)
    ensures k <= |s| && AllSpace(s[k..])
    ensures k == 0 || !IsSpace(s[k - 1])
  {
    if |s| == 0 || !IsSpace(s[|s| - 1]) then |s|
    else
      var k := EndOfText(s[..|s| - 1]);
      assert s[k..] == s[..|s| - 1][k..] + [s[|s| - 1]];
      k
  }

  /** `s.strip()`: an infix of `s` with no whitespace at either end, obtained by
      dropping only whitespace from the two ends. */
  function Strip(s: string): (r: string)
    ensures NoEdgeSpace(r)
    ensures |r| <= |s|
  {
    var i := LeadingSpace(s);
    var t := s[i..];
    var j := EndOfText(t);
    t[..j]
  }

  /** What `strip()` removes is whitespace, and only from the two ends. */
  lemma StripIsInfix(s: string)
    ensures var r := Strip(s);
      exists i :: 0 <= i <= |s| - |r| && r == s[i..i + |r|] && AllSpace(s[..i]) && AllSpace(s[i + |r|..])
  {
    var i := LeadingSpace(s);
    var t := s[i..];
    var j := EndOfText(t);
    assert Strip(s) == s[i..i + j];
    assert s[i + j..] == t[j..];
  }

  /** `strip()` leaves nothing exactly when the text is all whitespace. */
  lemma StripEmptyIff(s: string)
    ensures Strip(s) == "" <==> AllSpace(s)
  {
    var i := LeadingSpace(s);
    if i < |s| {
      var t := s[i..];
      assert t[0] == s[i];
      assert EndOfText(t) > 0;
    } else {
      assert s[..i] == s;
    }
  }

  lemma StripKeepsTrimmed(s: string)
    requires NoEdgeSpace(s)
    ensures Strip(s) == s
  {
  }

  // ---------------------------------------------------------------------
  // Case
  // ---------------------------------------------------------------------

  predicate IsUpper(c: char) {
    'A' <= c <= 'Z'
  }

  function LowerChar(c: char): (r: char)
    ensures !IsUpper(r)
  {
    if IsUpper(c) then (c as int + 32) as char else c
  }

  /** `s.lower()` on ASCII letters; every other character is kept. */
  function Lower(s: string): (r: string)
    ensures |r| == |s|
    ensures forall i :: 0 <= i < |s| ==> r[i] == LowerChar(s[i])
  {
    if |s| == 0 then "" else [LowerChar(s[0])] + Lower(s[1..])
  }

  /** `s.strip().lower()`, the comparison form the program uses for names, times and departments. */
  function StripLower(s: string): string {
    Lower(Strip(s))
  }

  predicate IsLower(s: string) {
    forall i :: 0 <= i < |s| ==> !IsUpper(s[i])
  }

  lemma LowerIsLower(s: string)
    ensures IsLower(Lower(s))
  {
  }

  lemma LowerKeepsLower(s: string)
    requires IsLower(s)
    ensures Lower(s) == s
  {
  }

  lemma LowerConcat(a: string, b: string)
    ensures Lower(a + b) == Lower(a) + Lower(b)
  {
  }

  // ---------------------------------------------------------------------
  // Prefixes and substrings
  // ---------------------------------------------------------------------

  predicate StartsWith(s: string, p: string) {
    |p| <= |s| && s[..|p|] == p
  }

  /** `sub` occurs in `s` starting at index `i`. */
  predicate OccursAt(s: string, sub: string, i: int) {
    0 <= i <= |s| - |sub| && s[i..i + |sub|] == sub
  }

  /** Python's `sub in s`, computed by trying each start position in turn. */
  predicate Contains(s: string, sub: string)
    decreases |s|
  {
    StartsWith(s, sub) || (|s| > |sub| && Contains(s[1..], sub))
  }

  lemma OccursShift(s: string, sub: string, j: int)
    requires |s| > 0
    ensures OccursAt(s[1..], sub, j) <==> (j + 1 >= 1 && OccursAt(s, sub, j + 1))
  {
    if 0 <= j <= |s| - 1 - |sub| {
      assert s[1..][j..j + |sub|] == s[j + 1..j + 1 + |sub|];
    }
  }

  /** The scan finds `sub` exactly when it occurs somewhere in `s`. */
  lemma {:induction false} ContainsIff(s: string, sub: string)
    ensures Contains(s, sub) <==> exists i :: OccursAt(s, sub, i)
    decreases |s|
  {
    if StartsWith(s, sub) {
      assert OccursAt(s, sub, 0);
    } else if |s| > |sub| {
      ContainsIff(s[1..], sub);
      if Contains(s, sub) {
        var j :| OccursAt(s[1..], sub, j);
        OccursShift(s, sub, j);
      } else {
        forall i | OccursAt(s, sub, i)
          ensures false
        {
          if i != 0 {
            OccursShift(s, sub, i - 1);
          }
        }
      }
    }
  }

  lemma ContainsAt(s: string, sub: string, i: int)
    requires OccursAt(s, sub, i)
    ensures Contains(s, sub)
  {
    ContainsIff(s, sub);
  }

  // ---------------------------------------------------------------------
  // Word-bounded search: re.search(r"\b<phrase>\b", s)
  // ---------------------------------------------------------------------

  /** A regular-expression word character (`\w`) on ASCII. */
  predicate IsWordChar(c: char) {
    'a' <= c <= 'z' || 'A' <= c <= 'Z' || '0' <= c <= '9' || c == '_'
  }

  /** `\b` holds at position `p`: exactly one of the neighbouring characters is a word character. */
  predicate WordBoundary(s: string, p: int)
    requires 0 <= p <= |s|
  {
    (p > 0 && IsWordChar(s[p - 1])) != (p < |s| && IsWordChar(s[p]))
  }

  predicate BoundedAt(s: string, w: string, i: int) {
    OccursAt(s, w, i) && WordBoundary(s, i) && WordBoundary(s, i + |w|)
  }

  predicate SearchBoundedFrom(s: string, w: string, from: nat)
    decreases |s| - from
  {
    from + |w| <= |s| && (BoundedAt(s, w, from) || SearchBoundedFrom(s, w, from + 1))
  }

  /** The regular-expression search for `\b w \b`, trying each position from the left. */
  predicate ContainsBounded(s: string, w: string) {
    SearchBoundedFrom(s, w, 0)
  }

  lemma {:induction false} SearchBoundedFromIff(s: string, w: string, from: nat)
    ensures SearchBoundedFrom(s, w, from) <==> exists i :: from <= i && BoundedAt(s, w, i)
    decreases |s| - from
  {
    if from + |w| <= |s| {
      SearchBoundedFromIff(s, w, from + 1);
    }
  }

  /** The search succeeds exactly when the phrase occurs with a word boundary on both sides. */
  lemma ContainsBoundedIff(s: string, w: string)
    ensures ContainsBounded(s, w) <==> exists i :: BoundedAt(s, w, i)
  {
    SearchBoundedFromIff(s, w, 0);
  }

  // ---------------------------------------------------------------------
  // Decimal digits
  // ---------------------------------------------------------------------

  predicate IsDigit(c: char) {
    '0' <= c <= '9'
  }

  predicate AllDigits(s: string) {
    forall i :: 0 <= i < |s| ==> IsDigit(s[i])
  }

  function DigitChar(d: nat): (c: char)
    requires d < 10
    ensures IsDigit(c)
  {
    ('0' as int + d) as char
  }

  function DigitValue(c: char): (d: nat)
    requires IsDigit(c)
    ensures d < 10
  {
    c as int - '0' as int
  }

  /** The number a string of decimal digits denotes (leading zeros allowed). */
  function DigitsValue(s: string): nat
    requires AllDigits(s)
  {
    if |s| == 0 then 0 else DigitsValue(s[..|s| - 1]) * 10 + DigitValue(s[|s| - 1])
  }

  function Pow10(w: nat): (r: nat)
    ensures r >= 1
  {
    if w == 0 then 1 else 10 * Pow10(w - 1)
  }

  /** `str(n)`: the shortest decimal rendering of `n`, which reads back as `n`. */
  function FormatNat(n: nat): (r: string)
    ensures |r| > 0 && AllDigits(r)
    ensures |r| == 1 || r[0] != '0'
    ensures DigitsValue(r) == n
  {
    if n < 10 then [DigitChar(n)]
    else
      var r := FormatNat(n / 10) + [DigitChar(n % 10)];
      assert r[..|r| - 1] == FormatNat(n / 10);
      r
  }

  lemma {:induction false} FormatNatLength(n: nat, w: nat)
    requires 1 <= w && n < Pow10(w)
    ensures |FormatNat(n)| <= w
    decreases w
  {
    if n >= 10 {
      assert w >= 2;
      FormatNatLength(n / 10, w - 1);
    }
  }

  function Zeros(k: nat): (r: string)
    ensures |r| == k && AllDigits(r)
    ensures forall i :: 0 <= i < k ==> r[i] == '0'
  {
    seq(k, i => '0')
  }

  /** Leading zeros do not change the value of a digit string. */
  lemma {:induction false} LeadingZeros(k: nat, s: string)
    requires AllDigits(s)
    ensures DigitsValue(Zeros(k) + s) == DigitsValue(s)
    decreases |s|
  {
    if |s| == 0 {
      ZerosValue(k);
      assert Zeros(k) + s == Zeros(k);
    } else {
      var t := Zeros(k) + s;
      assert t[..|t| - 1] == Zeros(k) + s[..|s| - 1];
      LeadingZeros(k, s[..|s| - 1]);
    }
  }

  lemma {:induction false} ZerosValue(k: nat)
    ensures DigitsValue(Zeros(k)) == 0
  {
    if k > 0 {
      assert Zeros(k)[..k - 1] == Zeros(k - 1);
      ZerosValue(k - 1);
    }
  }

  /** `f"{n:0{width}d}"`: `n` in decimal, left-padded with zeros to at least `width` digits. */
  function FormatPadded(n: nat, width: nat): (r: string)
    ensures AllDigits(r) && |r| >= width && |r| > 0
    ensures DigitsValue(r) == n
    ensures 1 <= width && n < Pow10(width) ==> |r| == width
  {
    var s := FormatNat(n);
    if |s| >= width then
      (if 1 <= width && n < Pow10(width) then FormatNatLength(n, width); s else s)
    else
      LeadingZeros(width - |s|, s);
      Zeros(width - |s|) + s
  }

  // ---------------------------------------------------------------------
  // int() on a decimal string
  // ---------------------------------------------------------------------

  /** Digits with single underscores only between two digits, as `int()` accepts them. */
  predicate WellGrouped(s: string) {
    && |s| > 0 && IsDigit(s[0]) && IsDigit(s[|s| - 1])
    && (forall i :: 0 <= i < |s| ==> IsDigit(s[i]) || s[i] == '_')
    && (forall i :: 0 <= i < |s| && s[i] == '_' ==> 0 < i < |s| - 1 && IsDigit(s[i + 1]))
  }

  function DropUnderscores(s: string): (r: string)
    requires forall i :: 0 <= i < |s| ==> IsDigit(s[i]) || s[i] == '_'
    ensures AllDigits(r)
    ensures AllDigits(s) ==> r == s
  {
    if |s| == 0 then ""
    else if s[0] == '_' then DropUnderscores(s[1..])
    else [s[0]] + DropUnderscores(s[1..])
  }

  function GroupedValue(s: string): nat
    requires WellGrouped(s)
  {
    DigitsValue(DropUnderscores(s))
  }

  /** Python's `int(s)` in base 10 on ASCII digits: surrounding whitespace, an
      optional sign, and underscores between digits are accepted; anything
      else raises, which is `None` here. */
  function ParseInt(s: string): Option<int> {
    var t := Strip(s);
    if |t| > 0 && (t[0] == '+' || t[0] == '-') then
      var body := t[1..];
      if !WellGrouped(body) then None
      else if t[0] == '-' then Some(0 - GroupedValue(body) as int)
      else Some(GroupedValue(body))
    else if WellGrouped(t) then Some(GroupedValue(t))
    else None
  }

  /** Without a minus sign anywhere, `int()` never yields a negative number. */
  lemma ParseIntNonNegative(s: string)
    requires forall i :: 0 <= i < |s| ==> s[i] != '-'
    ensures ParseInt(s).Some? ==> ParseInt(s).value >= 0
  {
    NegativeHasMinus(s);
    StripStartsAtText(s);
  }

  /** What `strip()` keeps begins at the first non-space character. */
  lemma StripStartsAtText(s: string)
    ensures 0 < |Strip(s)| ==> LeadingSpace(s) < |s| && Strip(s)[0] == s[LeadingSpace(s)]
  {
  }

  /** `int()` yields a negative number only from text whose first
      non-space character is a minus sign. */
  lemma NegativeHasMinus(s: string)
    ensures ParseInt(s).Some? && ParseInt(s).value < 0 ==> 0 < |Strip(s)| && Strip(s)[0] == '-'
  {
  }

  /** A plain digit string reads back as the number it denotes. */
  lemma ParseIntDigits(s: string)
    requires AllDigits(s) && |s| > 0
    ensures ParseInt(s) == Some(DigitsValue(s))
  {
    assert IsDigit(s[0]) && IsDigit(s[|s| - 1]);
    StripKeepsTrimmed(s);
    assert !(s[0] == '+' || s[0] == '-');
    assert WellGrouped(s);
    assert DropUnderscores(s) == s;
  }
}
