/**
 The barcode part of `external_ids.py`, over ASCII strings. Check digits follow section 7.9 of
 the GS1 General Specifications.
 */
module Barcodes {

  // ----- strings

  predicate IsDigit(c: char) {
    '0' <= c <= '9'
  }

  predicate AllDigits(s: string) {
    forall i | 0 <= i < |s| :: IsDigit(s[i])
  }

  /** The ASCII characters that stripping removes. */
  predicate IsSpace(c: char) {
    c == ' ' || '\t' <= c <= '\r' || '\U{1c}' <= c <= '\U{1f}'
  }

  function StripStart(s: string): string {
    if s != "" && IsSpace(s[0]) then StripStart(s[1..]) else s
  }

  function StripEnd(s: string): string {
    if s != "" && IsSpace(s[|s| - 1]) then StripEnd(s[..|s| - 1]) else s
  }

  function Strip(s: string): string {
    StripEnd(StripStart(s))
  }

  /** Without hyphens and spaces. */
  function Compact(s: string): string {
    if s == "" then ""
    else if s[0] == '-' || s[0] == ' ' then Compact(s[1..])
    else [s[0]] + Compact(s[1..])
  }

  function Payload(s: string): string {
    if s != "" && s[0] == '0' then Payload(s[1..]) else s
  }

  function Zeros(n: nat): (s: string)
    ensures |s| == n && forall i | 0 <= i < n :: s[i] == '0'
  {
    seq(n, i => '0')
  }

  function ZeroFill(s: string, n: nat): (r: string)
    ensures |r| == if |s| >= n then |s| else n
  {
    if |s| >= n then s else Zeros(n - |s|) + s
  }

  lemma {:induction false} StripStartIsSuffix(s: string) returns (n: nat)
    ensures n <= |s| && StripStart(s) == s[n..]
    ensures n < |s| ==> !IsSpace(s[n])
    ensures forall i | 0 <= i < n :: IsSpace(s[i])
  {
    n := 0;
    if s != "" && IsSpace(s[0]) {
      var m := StripStartIsSuffix(s[1..]);
      n := m + 1;
      assert s[1..][m..] == s[n..];
    }
  }

  lemma {:induction false} StripEndIsPrefix(s: string) returns (n: nat)
    ensures n <= |s| && StripEnd(s) == s[..n]
    ensures n > 0 ==> !IsSpace(s[n - 1])
    ensures forall i | n <= i < |s| :: IsSpace(s[i])
  {
    n := |s|;
    if s != "" && IsSpace(s[|s| - 1]) {
      n := StripEndIsPrefix(s[..|s| - 1]);
      assert s[..|s| - 1][..n] == s[..n];
    } else {
      assert s[..n] == s;
    }
  }

  lemma StripIsIdempotent(s: string)
    ensures Strip(Strip(s)) == Strip(s)
  {
    var n := StripStartIsSuffix(s);
    var m := StripEndIsPrefix(StripStart(s));
    var r := Strip(s);
    assert r != "" ==> r[0] == s[n];
  }

  /** What is stripped is white space up to the first and from the last other character on. */
  lemma StripMeaning(s: string) returns (n: nat, m: nat)
    ensures n <= m <= |s| && Strip(s) == s[n..m]
    ensures forall i | 0 <= i < n || m <= i < |s| :: s[i] in " \t\n\U{b}\U{c}\r\U{1c}\U{1d}\U{1e}\U{1f}"
    ensures n < m ==> s[n] !in " \t\n\U{b}\U{c}\r\U{1c}\U{1d}\U{1e}\U{1f}"
    ensures n < m ==> s[m - 1] !in " \t\n\U{b}\U{c}\r\U{1c}\U{1d}\U{1e}\U{1f}"
  {
    hide StripStart, StripEnd;
    forall c ensures IsSpace(c) <==> c in " \t\n\U{b}\U{c}\r\U{1c}\U{1d}\U{1e}\U{1f}" {
      SpacesInWords(c);
    }
    n := StripStartIsSuffix(s);
    var rest := s[n..];
    var k := StripEndIsPrefix(rest);
    m := n + k;
    assert rest[..k] == s[n..m];
    assert forall i | m <= i < |s| :: s[i] == rest[i - n];
  }

  lemma SpacesInWords(c: char)
    ensures IsSpace(c) <==> c in " \t\n\U{b}\U{c}\r\U{1c}\U{1d}\U{1e}\U{1f}"
  {
    var spaces := " \t\n\U{b}\U{c}\r\U{1c}\U{1d}\U{1e}\U{1f}";
    assert spaces[0] == ' ' && spaces[1] == '\t' && spaces[2] == '\n' && spaces[3] == '\U{b}' && spaces[4] == '\U{c}';
    assert spaces[5] == '\r' && spaces[6] == '\U{1c}' && spaces[7] == '\U{1d}' && spaces[8] == '\U{1e}';
    assert spaces[9] == '\U{1f}';
  }

  lemma StripDigits(s: string)
    requires AllDigits(s)
    ensures Strip(s) == s
  {
  }

  /** Each character stays or goes by itself: hyphens and spaces go. */
  lemma {:induction false} CompactMeaning(a: string, b: string)
    ensures Compact(a + b) == Compact(a) + Compact(b)
    ensures |a| == 1 ==> Compact(a) == if a == "-" || a == " " then "" else a
  {
    if a == "" {
      assert a + b == b;
    } else {
      CompactMeaning(a[1..], b);
      assert (a + b)[1..] == a[1..] + b;
    }
  }

  lemma {:induction false} CompactDigits(s: string)
    requires AllDigits(s)
    ensures Compact(s) == s
  {
    if s != "" {
      CompactDigits(s[1..]);
    }
  }

  lemma {:induction false} PayloadSplits(s: string)
    ensures |Payload(s)| <= |s| && s == Zeros(|s| - |Payload(s)|) + Payload(s)
    ensures Payload(s) == "" || Payload(s)[0] != '0'
  {
    if s != "" && s[0] == '0' {
      PayloadSplits(s[1..]);
      assert s == [s[0]] + s[1..];
      assert Zeros(|s| - |Payload(s)|) == ['0'] + Zeros(|s| - 1 - |Payload(s)|);
    }
  }

  lemma {:induction false} PayloadOfPadded(p: string, n: nat)
    requires p == "" || p[0] != '0'
    ensures Payload(Zeros(n) + p) == p
  {
    if n == 0 {
      assert Zeros(0) + p == p;
    } else {
      PayloadOfPadded(p, n - 1);
      assert (Zeros(n) + p)[1..] == Zeros(n - 1) + p;
    }
  }

  /** Filling the payload up to any length keeps it, and to the old length restores the string. */
  lemma FillKeepsPayload(s: string, n: nat)
    ensures |Payload(s)| <= |s|
    ensures Payload(ZeroFill(Payload(s), n)) == Payload(s)
    ensures ZeroFill(Payload(s), |s|) == s
  {
    PayloadSplits(s);
    PayloadOfPadded(Payload(s), 0);
    assert Zeros(0) + Payload(s) == Payload(s);
    if |Payload(s)| < n {
      PayloadOfPadded(Payload(s), n - |Payload(s)|);
    }
  }

  // ----- check digits

  function Value(c: char): int {
    c as int - '0' as int
  }

  /** From the right, the digits count `weight` and `4 - weight` times in turn. */
  function WeightedSum(body: string, weight: int): int {
    if body == "" then 0
    else weight * Value(body[|body| - 1]) + WeightedSum(body[..|body| - 1], 4 - weight)
  }

  /** What brings a sum up to a multiple of ten. */
  function Missing(sum: int): (d: int)
    ensures 0 <= d < 10 && sum + d == 10 * ((sum + d) / 10)
  {
    (10 - sum % 10) % 10
  }

  function CheckDigit(body: string): (c: char)
    ensures IsDigit(c) && Value(c) == Missing(WeightedSum(body, 3))
  {
    '0' + Missing(WeightedSum(body, 3)) as char
  }

  /** The last digit is the check digit of the others. */
  predicate Checked(s: string) {
    s != "" && s[|s| - 1] == CheckDigit(s[..|s| - 1])
  }

  predicate IsValidGtin(s: string) {
    |s| == 14 && AllDigits(s) && Checked(s)
  }

  /** The sum over the last `n` digits: once at even positions from the right, three times at odd ones. */
  function SumFromRight(s: string, n: nat): int
    requires n <= |s|
  {
    if n == 0 then 0
    else SumFromRight(s, n - 1) + (if (n - 1) % 2 == 0 then 1 else 3) * Value(s[|s| - n])
  }

  lemma {:induction false} SumsAgree(s: string, n: nat)
    requires n <= |s|
    ensures SumFromRight(s, n) + WeightedSum(s[..|s| - n], if n % 2 == 0 then 1 else 3) == WeightedSum(s, 1)
  {
    if n == 0 {
      assert s[..|s|] == s;
    } else {
      SumsAgree(s, n - 1);
      assert s[..|s| - (n - 1)][..|s| - n] == s[..|s| - n];
    }
  }

  /** A code is checked exactly if this sum is a multiple of ten. */
  lemma CheckedMeaning(s: string)
    requires AllDigits(s) && s != ""
    ensures Checked(s) <==> SumFromRight(s, |s|) % 10 == 0
  {
    SumsAgree(s, |s|);
    var sum, last := WeightedSum(s[..|s| - 1], 3), Value(s[|s| - 1]);
    assert WeightedSum(s, 1) == last + sum;
    MissingIsUnique(sum, last);
  }

  lemma MissingIsUnique(sum: int, d: int)
    requires 0 <= d < 10
    ensures d == Missing(sum) <==> (d + sum) % 10 == 0
  {
  }

  lemma {:induction false} PaddingKeepsSum(body: string, n: nat, weight: int)
    ensures WeightedSum(Zeros(n) + body, weight) == WeightedSum(body, weight)
  {
    var padded := Zeros(n) + body;
    if body != "" {
      PaddingKeepsSum(body[..|body| - 1], n, 4 - weight);
      assert padded[..|padded| - 1] == Zeros(n) + body[..|body| - 1];
    } else if n > 0 {
      PaddingKeepsSum("", n - 1, 4 - weight);
      assert padded[..|padded| - 1] == Zeros(n - 1) + "";
    } else {
      assert padded == "";
    }
  }

  /** A code has the same check digit at every length. */
  lemma PaddingKeepsCheck(s: string, n: nat)
    requires s != ""
    ensures Checked(Zeros(n) + s) <==> Checked(s)
  {
    var padded := Zeros(n) + s;
    PaddingKeepsSum(s[..|s| - 1], n, 3);
    assert padded[..|padded| - 1] == Zeros(n) + s[..|s| - 1];
  }

  lemma {:induction false} SumAfterChange(body: string, i: nat, c: char, weight: int)
    requires i < |body| && (weight == 1 || weight == 3)
    ensures WeightedSum(body[i := c], weight) == WeightedSum(body, weight) + (Value(c) - Value(body[i]))
         || WeightedSum(body[i := c], weight) == WeightedSum(body, weight) + 3 * (Value(c) - Value(body[i]))
  {
    var changed := body[i := c];
    if i == |body| - 1 {
      assert changed[..i] == body[..i];
    } else {
      assert changed[..|body| - 1] == body[..|body| - 1][i := c];
      SumAfterChange(body[..|body| - 1], i, c, 4 - weight);
    }
  }

  lemma TensDiffer(a: int, d: int, m: int, n: int, i: int, j: int)
    requires a + m == 10 * i && (a + d + n == 10 * j || a + 3 * d + n == 10 * j)
    requires -9 <= d <= 9 && d != 0
    ensures m != n
  {
  }

  lemma DifferenceIsSeen(a: int, d: int)
    requires -9 <= d <= 9 && d != 0
    ensures Missing(a) != Missing(a + d) && Missing(a) != Missing(a + 3 * d)
  {
    var m, n, o := Missing(a), Missing(a + d), Missing(a + 3 * d);
    TensDiffer(a, d, m, n, (a + m) / 10, (a + d + n) / 10);
    TensDiffer(a, d, m, o, (a + m) / 10, (a + 3 * d + o) / 10);
  }

  /** The check catches every single wrong digit. */
  lemma WrongDigitIsCaught(s: string, i: nat, c: char)
    requires AllDigits(s) && Checked(s) && i < |s| && IsDigit(c) && c != s[i]
    ensures !Checked(s[i := c])
  {
    var n, wrong := |s| - 1, s[i := c];
    if i == n {
      assert wrong[..n] == s[..n];
    } else {
      assert wrong[..n] == s[..n][i := c];
      SumAfterChange(s[..n], i, c, 3);
      DifferenceIsSeen(WeightedSum(s[..n], 3), Value(c) - Value(s[i]));
    }
  }

  // ----- normalization

  predicate IsGtinLength(n: nat) {
    n == 8 || n == 12 || n == 13 || n == 14 || n == 15
  }

  function NormalizeBarcode(value: string): string {
    var compact := Compact(value);
    if !IsGtinLength(|compact|) || !AllDigits(compact) then value
    else
      var payload := Payload(compact);
      if payload == "" || |payload| > 14 then value
      else
        var normalized := ZeroFill(payload, 14);
        if IsValidGtin(normalized) then normalized
        else if |compact| == 13 then compact + [CheckDigit(compact)]
        else value
  }

  function Normalize(value: string): string {
    NormalizeBarcode(Strip(value))
  }

  /** Fourteen zeros pass for a code, but have no payload. */
  const ZERO_CODE := Zeros(14)

  /** Filling up keeps digits and their check. */
  lemma FillKeepsCheck(p: string, n: nat)
    requires p != ""
    ensures Checked(ZeroFill(p, n)) <==> Checked(p)
    ensures AllDigits(ZeroFill(p, n)) <==> AllDigits(p)
  {
    hide Checked;
    if |p| < n {
      PaddingKeepsCheck(p, n - |p|);
      var q := ZeroFill(p, n);
      assert forall i | 0 <= i < |p| :: p[i] == q[n - |p| + i];
    }
  }

  /** A digit string with a payload is valid as a code exactly if its own check digit is right. */
  lemma ValidAtAnyLength(s: string)
    requires AllDigits(s) && 0 < |Payload(s)| <= 14
    ensures IsValidGtin(ZeroFill(Payload(s), 14)) <==> Checked(s)
  {
    var p := Payload(s);
    FillKeepsPayload(s, 14);
    FillKeepsCheck(p, |s|);
    FillKeepsCheck(p, 14);
  }

  /** What becomes of a string of digits. */
  lemma DigitsNormalize(s: string)
    requires AllDigits(s)
    ensures
      var p := Payload(s);
      Normalize(s) ==
        if |s| !in {8, 12, 13, 14, 15} || p == "" || |p| > 14 then s
        else if SumFromRight(s, |s|) % 10 == 0 then ZeroFill(p, 14)
        else if |s| == 13 then s + [CheckDigit(s)]
        else s
    ensures s != "" ==> (Checked(s) <==> SumFromRight(s, |s|) % 10 == 0)
  {
    StripDigits(s);
    CompactDigits(s);
    if s != "" {
      CheckedMeaning(s);
    }
    if 0 < |Payload(s)| <= 14 {
      ValidAtAnyLength(s);
    }
  }

  /** The digit that is appended makes the code valid, and no other would. */
  lemma AppendedDigit(s: string, c: char)
    requires AllDigits(s) && IsDigit(c)
    ensures c == CheckDigit(s) <==> SumFromRight(s + [c], |s| + 1) % 10 == 0
  {
    var code := s + [c];
    assert code[..|s|] == s;
    CheckedMeaning(code);
  }

  lemma ZeroPayload(s: string)
    requires |s| == 14
    ensures Payload(s) == "" <==> s == ZERO_CODE
  {
    PayloadSplits(s);
    PayloadOfPadded("", 14);
    assert Zeros(14) + "" == Zeros(14);
  }

  /** A canonical code stays as it is. */
  lemma CanonicalIsFixed(code: string)
    requires IsValidGtin(code)
    ensures Normalize(code) == code
  {
    StripDigits(code);
    CompactDigits(code);
    FillKeepsPayload(code, 14);
  }

  /** Normalizing twice is normalizing once. */
  lemma NormalizeIsIdempotent(value: string)
    ensures Normalize(Normalize(value)) == Normalize(value)
  {
    StripIsIdempotent(value);
    var stripped := Strip(value);
    if Normalize(value) != stripped {
      var compact := Compact(stripped);
      if Normalize(value) == compact + [CheckDigit(compact)] && |compact| == 13 {
        assert (compact + [CheckDigit(compact)])[..13] == compact;
      }
      CanonicalIsFixed(Normalize(value));
    }
  }

  /** Hyphens and spaces do not matter to a code with a payload, and nothing else is overlooked. */
  lemma SeparatorsAreIgnored(value: string, code: string)
    requires IsValidGtin(code) && code != ZERO_CODE
    ensures Normalize(value) == code <==>
            AllDigits(Compact(Strip(value))) && Normalize(Compact(Strip(value))) == code
  {
    var stripped := Strip(value);
    var digits := Compact(stripped);
    ZeroPayload(code);
    CompactDigits(code);
    FillKeepsPayload(code, 14);
    if AllDigits(digits) {
      StripDigits(digits);
      CompactDigits(digits);
      hide Strip, Payload, Compact, ZeroFill, IsValidGtin, CheckDigit;
    }
  }

  // ----- lookup values

  /** The spellings of a code by length. */
  ghost predicate IsSpelling(s: string, code: string) {
    |s| in {8, 12, 13, 14, 15} && |Payload(code)| <= |s| && s == ZeroFill(Payload(code), |s|)
  }

  const GTIN_LENGTHS: seq<nat> := [8, 12, 13, 14, 15]

  /** The payload at each of the first `n` lengths that can hold it. */
  function Spellings(payload: string, n: nat): set<string>
    requires n <= |GTIN_LENGTHS|
  {
    if n == 0 then {}
    else
      Spellings(payload, n - 1) +
      if |payload| <= GTIN_LENGTHS[n - 1] then {ZeroFill(payload, GTIN_LENGTHS[n - 1])} else {}
  }

  lemma {:induction false} SpellingsByLength(payload: string, n: nat, s: string)
    requires n <= |GTIN_LENGTHS|
    ensures s in Spellings(payload, n) <==>
            |s| in GTIN_LENGTHS[..n] && |payload| <= |s| && s == ZeroFill(payload, |s|)
  {
    if n > 0 {
      SpellingsByLength(payload, n - 1, s);
      hide ZeroFill;
      assert GTIN_LENGTHS[..n] == GTIN_LENGTHS[..n - 1] + [GTIN_LENGTHS[n - 1]];
    }
  }

  lemma SpellingsAreAll(code: string, s: string)
    ensures s in Spellings(Payload(code), 5) <==> IsSpelling(s, code)
  {
    hide Spellings, Payload, ZeroFill;
    SpellingsByLength(Payload(code), 5, s);
    assert GTIN_LENGTHS[..5] == GTIN_LENGTHS;
  }

  method BarcodeLookupValues(value: string) returns (values: set<string>)
    ensures forall s :: s in values <==>
      || s == Strip(value) || s == Normalize(value)
      || (IsValidGtin(Normalize(value)) && IsSpelling(s, Normalize(value)))
  {
    var raw := Strip(value);
    StripIsIdempotent(value);
    var normalized := Normalize(raw);
    values := {raw, normalized};
    assert normalized == Normalize(value);
    hide Strip, Normalize, IsValidGtin, Payload, ZeroFill, IsSpelling;
    if IsValidGtin(normalized) {
      var payload := Payload(normalized);
      for i := 0 to |GTIN_LENGTHS|
        invariant values == {raw, normalized} + Spellings(payload, i)
      {
        if |payload| <= GTIN_LENGTHS[i] {
          values := values + {ZeroFill(payload, GTIN_LENGTHS[i])};
        }
      }
      forall s ensures s in Spellings(payload, 5) <==> IsSpelling(s, normalized) {
        SpellingsAreAll(normalized, s);
      }
    }
  }

  function BarcodeToUpc(value: string): string {
    var normalized := Normalize(value);
    if IsValidGtin(normalized) then ZeroFill(Payload(normalized), 12) else value
  }

  lemma SpellingOfCode(s: string, code: string)
    requires IsValidGtin(code) && IsSpelling(s, code) && code != ZERO_CODE
    ensures Normalize(s) == code
  {
    var p := Payload(code);
    ZeroPayload(code);
    FillKeepsPayload(code, |s|);
    FillKeepsPayload(code, 14);
    FillKeepsCheck(p, |s|);
    FillKeepsCheck(p, 14);
    hide Checked, ZeroFill, Payload;
    DigitsNormalize(s);
  }

  lemma ZeroSpelling(n: nat)
    requires IsGtinLength(n) && n != 14
    ensures IsSpelling(Zeros(n), ZERO_CODE) && Normalize(Zeros(n)) != ZERO_CODE
  {
    ZeroPayload(ZERO_CODE);
    StripDigits(Zeros(n));
    CompactDigits(Zeros(n));
    PayloadOfPadded("", n);
    assert Zeros(n) + "" == Zeros(n);
  }

  lemma ZerosAreChecked(n: nat)
    requires n > 0
    ensures Checked(Zeros(n))
  {
    PaddingKeepsSum("", n - 1, 3);
    assert Zeros(n - 1) + "" == Zeros(n)[..n - 1];
  }

  lemma ZeroCodeIsValid()
    ensures IsValidGtin(ZERO_CODE) && Normalize(ZERO_CODE) == ZERO_CODE
  {
    ZerosAreChecked(14);
    CanonicalIsFixed(ZERO_CODE);
  }

  /** The spellings of a code lead back to it, unless it is the one without a payload. */
  lemma SpellingsLeadBack(code: string)
    requires IsValidGtin(code)
    ensures (forall s | IsSpelling(s, code) :: Normalize(s) == code) <==> code != ZERO_CODE
  {
    if code == ZERO_CODE {
      ZeroSpelling(8);
    } else {
      forall s | IsSpelling(s, code) ensures Normalize(s) == code {
        SpellingOfCode(s, code);
      }
    }
  }

  /** Twelve digits, or more where the payload has more; what is no code stays as it is. */
  lemma UpcMeaning(value: string)
    ensures
      var code, upc := Normalize(value), BarcodeToUpc(value);
      if !IsValidGtin(code) then upc == value
      else |upc| == (if |Payload(code)| > 12 then |Payload(code)| else 12) && Payload(upc) == Payload(code)
  {
    FillKeepsPayload(Normalize(value), 12);
  }

  /** The shortest form leads back to a canonical code, with the same exception. */
  lemma UpcLeadsBack(code: string)
    requires IsValidGtin(code)
    ensures Normalize(BarcodeToUpc(code)) == code <==> code != ZERO_CODE
  {
    CanonicalIsFixed(code);
    FillKeepsPayload(code, 12);
    if code == ZERO_CODE {
      ZeroPayload(code);
      ZeroSpelling(12);
      assert Zeros(12) + "" == Zeros(12);
    } else {
      SpellingOfCode(BarcodeToUpc(code), code);
    }
  }

  /**
   A digit string becomes a code exactly if it is a spelling of it, or the code without its check
   digit and not itself a code.
   */
  lemma DigitsOfCode(s: string, code: string)
    requires IsValidGtin(code) && code != ZERO_CODE && AllDigits(s)
    ensures Normalize(s) == code <==>
            IsSpelling(s, code) || (s == code[..13] && !Checked(s))
  {
    DigitsNormalize(s);
    ZeroPayload(code);
    if IsSpelling(s, code) {
      SpellingOfCode(s, code);
    } else {
      FillKeepsPayload(s, 14);
      PayloadSplits(code);
      ZerosAreChecked(13);
      PayloadSplits(s);
      assert |s| == 13 && Payload(s) == "" ==> s == Zeros(13);
      assert (s + [CheckDigit(s)])[..|s|] == s;
      assert code == code[..13] + [CheckDigit(code[..13])];
      hide Normalize, ZeroFill, Payload, CheckDigit;
    }
  }
}
