/** The string operations the checks rely on, for ASCII text. */
module Text {

  predicate IsSpace(c: char) {
    c == ' ' || '\t' <= c <= '\r' || 28 as char <= c <= 31 as char
  }

  /** Tab, line feed, vertical tab, form feed, carriage return, the four separators, and the blank. */
  lemma SpacesAre(c: char)
    ensures IsSpace(c) <==> c as int in {9, 10, 11, 12, 13, 28, 29, 30, 31, 32}
  {
  }

  function StripLeft(s: string): string {
    if s != "" && IsSpace(s[0]) then StripLeft(s[1..]) else s
  }

  function StripRight(s: string): string {
    if s != "" && IsSpace(s[|s| - 1]) then StripRight(s[..|s| - 1]) else s
  }

  /** `str.strip` */
  function Strip(s: string): string {
    StripRight(StripLeft(s))
  }

  // Neither end is a space.
  predicate Trimmed(s: string) {
    s != "" ==> !IsSpace(s[0]) && !IsSpace(s[|s| - 1])
  }

  lemma {:induction false} StripLeftStops(s: string)
    ensures StripLeft(s) != "" ==> !IsSpace(StripLeft(s)[0])
    ensures StripLeft(s) == "" <==> forall i :: 0 <= i < |s| ==> IsSpace(s[i])
  {
    if s != "" && IsSpace(s[0]) {
      StripLeftStops(s[1..]);
      assert forall i :: 0 < i < |s| ==> s[i] == s[1..][i - 1];
    }
  }

  lemma {:induction false} StripRightStops(s: string)
    requires s != "" ==> !IsSpace(s[0])
    ensures Trimmed(StripRight(s)) && (StripRight(s) == "" <==> s == "")
  {
    if s != "" && IsSpace(s[|s| - 1]) {
      StripRightStops(s[..|s| - 1]);
    }
  }

  /** What is left has no space at either end, and nothing is left only of spaces. */
  lemma StripStops(s: string)
    ensures Trimmed(Strip(s))
    ensures Strip(s) == "" <==> forall i :: 0 <= i < |s| ==> IsSpace(s[i])
  {
    StripLeftStops(s);
    StripRightStops(StripLeft(s));
  }

  lemma StripOfStripped(s: string)
    requires Trimmed(s)
    ensures Strip(s) == s
  {
  }

  predicate Blank(s: string) {
    forall i :: 0 <= i < |s| ==> IsSpace(s[i])
  }

  lemma {:induction false} StripLeftSplits(s: string) returns (l: string)
    ensures Blank(l) && s == l + StripLeft(s)
  {
    l := "";
    if s != "" && IsSpace(s[0]) {
      l := StripLeftSplits(s[1..]);
      l := [s[0]] + l;
    }
  }

  lemma {:induction false} StripRightSplits(s: string) returns (r: string)
    ensures Blank(r) && s == StripRight(s) + r
  {
    r := "";
    if s != "" && IsSpace(s[|s| - 1]) {
      r := StripRightSplits(s[..|s| - 1]);
      r := r + [s[|s| - 1]];
    }
  }

  lemma {:induction false} StripLeftSkips(l: string, x: string)
    requires Blank(l) && x != "" && !IsSpace(x[0])
    ensures StripLeft(l + x) == x
  {
    if l == "" {
      assert l + x == x;
    } else {
      StripLeftSkips(l[1..], x);
      assert (l + x)[1..] == l[1..] + x;
    }
  }

  lemma {:induction false} StripRightSkips(x: string, r: string)
    requires Blank(r) && x != "" && !IsSpace(x[|x| - 1])
    ensures StripRight(x + r) == x
  {
    if r == "" {
      assert x + r == x;
    } else {
      StripRightSkips(x, r[..|r| - 1]);
      assert (x + r)[..|x + r| - 1] == x + r[..|r| - 1];
    }
  }

  /** Stripping leaves `core` exactly when the text is `core` between blanks. */
  lemma StripIff(s: string, core: string)
    requires core != "" && Trimmed(core)
    ensures Strip(s) == core <==> exists l, r :: Blank(l) && Blank(r) && s == l + core + r
  {
    if Strip(s) == core {
      var l := StripLeftSplits(s);
      var r := StripRightSplits(StripLeft(s));
      assert s == l + core + r;
    }
    forall l, r | Blank(l) && Blank(r) && s == l + core + r ensures Strip(s) == core {
      StripLeftSkips(l, core + r);
      StripRightSkips(core, r);
      assert s == l + (core + r);
    }
  }

  lemma LowerKeepsSpaces(s: string)
    ensures Trimmed(s) ==> Trimmed(Lower(s))
  {
  }

  function LowerChar(c: char): char {
    if 'A' <= c <= 'Z' then c + 32 as char else c
  }

  /** `str.lower` */
  function Lower(s: string): (r: string)
    ensures |r| == |s|
  {
    seq(|s|, i requires 0 <= i < |s| => LowerChar(s[i]))
  }

  /** No capital is left; each became the small letter in its place, and nothing else changed. */
  lemma LowerMeans(s: string, i: nat)
    requires i < |s|
    ensures !('A' <= Lower(s)[i] <= 'Z')
    ensures if 'A' <= s[i] <= 'Z' then Lower(s)[i] as int - 'a' as int == s[i] as int - 'A' as int else Lower(s)[i] == s[i]
  {
  }

  predicate IsDigit(c: char) { '0' <= c <= '9' }

  predicate AllDigits(s: string) {
    forall i :: 0 <= i < |s| ==> IsDigit(s[i])
  }

  /** `[1-9][0-9]*` */
  predicate PositiveDecimal(s: string) {
    s != "" && AllDigits(s) && s[0] != '0'
  }

  /** `int(s)` on digits. */
  function DigitsValue(s: string): nat
    requires AllDigits(s)
  {
    if s == "" then 0 else 10 * DigitsValue(s[..|s| - 1]) + (s[|s| - 1] as int - '0' as int)
  }

  /** `int(s)` refuses longer numerals with ValueError. */
  const MAX_DIGITS := 4300

  // ----- decimal numerals -----

  function ToDecimal(n: nat): string {
    if n < 10 then ['0' + n as char] else ToDecimal(n / 10) + ['0' + (n % 10) as char]
  }

  /** Digits without a superfluous leading zero. */
  predicate Canonical(s: string) {
    s != "" && AllDigits(s) && (|s| == 1 || s[0] != '0')
  }

  lemma {:induction false} DecimalReadsBack(n: nat)
    ensures Canonical(ToDecimal(n)) && DigitsValue(ToDecimal(n)) == n
    ensures n > 0 ==> ToDecimal(n)[0] != '0'
  {
    if n < 10 {
      assert ToDecimal(n)[..0] == "";
    } else {
      DecimalReadsBack(n / 10);
      assert ToDecimal(n)[..|ToDecimal(n)| - 1] == ToDecimal(n / 10);
    }
  }

  lemma {:induction false} CanonicalPrintsBack(s: string)
    requires Canonical(s)
    ensures ToDecimal(DigitsValue(s)) == s
    ensures DigitsValue(s) == 0 <==> s == "0"
  {
    if |s| == 1 {
      assert s[..0] == "";
      assert s == [s[0]];
    } else {
      var init, last := s[..|s| - 1], s[|s| - 1];
      CanonicalPrintsBack(init);
      assert init != "0";
      assert s == init + [last];
    }
  }

  /** The pattern `[1-9][0-9]*` matches exactly the numerals of the positive numbers. */
  lemma PositiveDecimalIff(s: string)
    ensures PositiveDecimal(s) <==> exists n: nat :: n > 0 && s == ToDecimal(n)
  {
    if PositiveDecimal(s) {
      CanonicalPrintsBack(s);
      assert DigitsValue(s) > 0 && s == ToDecimal(DigitsValue(s));
    }
    forall n: nat | n > 0 && s == ToDecimal(n) ensures PositiveDecimal(s) {
      DecimalReadsBack(n);
    }
  }
}
