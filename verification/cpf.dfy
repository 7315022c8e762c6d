/** The CPF (Brazilian individual tax id) helpers of the customer form
    (react/src/components/pages/Customers/CustomerForm.jsx): `validateCPF`, the
    modulo-11 check-digit test of the Receita Federal, and `formatCPF`, the
    input mask `ddd.ddd.ddd-dd`. */
module Cpf {
  import opened Wrappers
  import opened Strings

  /** The accumulator of `validateCPF`'s loops after `k` rounds:
      the sum over i = 1..k of digit i times (top - i). */
  function WeightedSum(d: string, top: nat, k: nat): nat
    requires AllDigits(d) && k <= |d| && k < top
  {
    if k == 0 then 0
    else
      var v, w := DigitValue(d[k - 1]), top - k;
      ProductNonnegative(v, w);
      WeightedSum(d, top, k - 1) + v * w
  }

  lemma ProductNonnegative(a: nat, b: nat)
    ensures a * b >= 0
  {
  }

  /** `remainder = (sum * 10) % 11`, with 10 and 11 both read as 0. */
  function CheckDigit(sum: nat): (r: nat)
    ensures r <= 9
  {
    var remainder := (sum * 10) % 11;
    if remainder == 10 || remainder == 11 then 0 else remainder
  }

  /** `validateCPF`: eleven digits once the non-digits are dropped, the tenth
      matching the check digit of the first nine and the eleventh matching the
      check digit of the first ten. */
  function ValidateCpf(s: string): (ok: bool)
    ensures |Digits(s)| != 11 ==> !ok
  {
    var d := Digits(s);
    && |d| == 11
    && CheckDigit(WeightedSum(d, 11, 9)) == DigitValue(d[9])
    && CheckDigit(WeightedSum(d, 12, 10)) == DigitValue(d[10])
  }

  // The Receita Federal's own statement of the rule, used as the reference.

  /** The digits of `ds` weighted w, w - 1, w - 2, ... from the first one. */
  function ReceitaSum(ds: string, w: int): int
    requires AllDigits(ds)
  {
    if |ds| == 0 then 0 else DigitValue(ds[0]) * w + ReceitaSum(ds[1..], w - 1)
  }

  /** The check digit of `ds` (nine or ten digits): weights |ds| + 1 down to 2;
      11 minus the remainder of the sum by 11, or 0 when that remainder is 0 or 1. */
  function ReceitaDigit(ds: string): nat
    requires AllDigits(ds)
  {
    var r := ReceitaSum(ds, |ds| + 1) % 11;
    if r < 2 then 0 else 11 - r
  }

  predicate ReceitaValid(d: string) {
    && AllDigits(d)
    && |d| == 11
    && ReceitaDigit(d[..9]) == DigitValue(d[9])
    && ReceitaDigit(d[..10]) == DigitValue(d[10])
  }

  /** `(sum * 10) % 11` is `11 - sum % 11` modulo 11; the branch for a remainder
      of 11 is dead. */
  lemma CheckDigitIsReceitaRule(sum: nat)
    ensures CheckDigit(sum) == (if sum % 11 < 2 then 0 else 11 - sum % 11)
    ensures (sum * 10) % 11 != 11
  {
    var q, r := sum / 11, sum % 11;
    assert sum * 10 == 11 * (10 * q) + 10 * r;
  }

  lemma {:induction false} ReceitaSumSnoc(ds: string, c: char, w: int)
    requires AllDigits(ds) && IsDigit(c)
    ensures AllDigits(ds + [c])
    ensures ReceitaSum(ds + [c], w) == ReceitaSum(ds, w) + DigitValue(c) * (w - |ds|)
  {
    if |ds| > 0 {
      assert (ds + [c])[1..] == ds[1..] + [c];
      ReceitaSumSnoc(ds[1..], c, w - 1);
    } else {
      assert ds + [c] == [c];
    }
  }

  /** The loop accumulator is the Receita weighted sum of the first k digits. */
  lemma {:induction false} WeightedSumIsReceitaSum(d: string, top: nat, k: nat)
    requires AllDigits(d) && k <= |d| && k < top
    ensures WeightedSum(d, top, k) == ReceitaSum(d[..k], top - 1)
  {
    if k > 0 {
      WeightedSumIsReceitaSum(d, top, k - 1);
      assert d[..k] == d[..k - 1] + [d[k - 1]];
      ReceitaSumSnoc(d[..k - 1], d[k - 1], top - 1);
    }
  }

  /** `validateCPF` accepts exactly the strings whose digits satisfy the
      Receita Federal rule. */
  lemma ValidateCpfIsReceitaRule(s: string)
    ensures ValidateCpf(s) <==> ReceitaValid(Digits(s))
  {
    var d := Digits(s);
    if |d| == 11 {
      WeightedSumIsReceitaSum(d, 11, 9);
      WeightedSumIsReceitaSum(d, 12, 10);
      CheckDigitIsReceitaRule(WeightedSum(d, 11, 9));
      CheckDigitIsReceitaRule(WeightedSum(d, 12, 10));
    }
  }

  /** Only the digits of the input matter. */
  lemma ValidateCpfIgnoresNonDigits(s: string)
    ensures ValidateCpf(s) == ValidateCpf(Digits(s))
  {
    KeepIdempotent(s, IsDigit);
  }

  /** The accumulator depends only on the first k digits. */
  lemma {:induction false} WeightedSumPrefix(a: string, b: string, top: nat, k: nat)
    requires AllDigits(a) && AllDigits(b) && k <= |a| && k <= |b| && k < top
    requires a[..k] == b[..k]
    ensures WeightedSum(a, top, k) == WeightedSum(b, top, k)
  {
    if k > 0 {
      assert a[k - 1] == a[..k][k - 1] == b[..k][k - 1] == b[k - 1];
      assert a[..k - 1] == a[..k][..k - 1] == b[..k][..k - 1] == b[..k - 1];
      WeightedSumPrefix(a, b, top, k - 1);
    }
  }

  /** The CPF obtained from a nine-digit body by appending its two check digits. */
  function Complete(body: string): (cpf: string)
    requires AllDigits(body) && |body| == 9
    ensures AllDigits(cpf) && |cpf| == 11 && cpf[..9] == body
  {
    var d10 := DigitChar(CheckDigit(WeightedSum(body, 11, 9)));
    var first10 := body + [d10];
    var d11 := DigitChar(CheckDigit(WeightedSum(first10, 12, 10)));
    assert (first10 + [d11])[..9] == body;
    first10 + [d11]
  }

  /** Every body completed with its check digits is accepted. */
  lemma CompleteIsValid(body: string)
    requires AllDigits(body) && |body| == 9
    ensures ValidateCpf(Complete(body))
  {
    var cpf := Complete(body);
    KeepAllKept(cpf, IsDigit);
    WeightedSumPrefix(cpf, body, 11, 9);
    var first10 := body + [cpf[9]];
    assert cpf[..10] == first10[..10];
    WeightedSumPrefix(cpf, first10, 12, 10);
  }

  /** The check digits are determined by the body: an accepted CPF is the
      completion of its first nine digits, so changing either check digit alone
      makes it rejected. */
  lemma ValidCpfIsCompletion(s: string)
    requires ValidateCpf(s)
    ensures Digits(s) == Complete(Digits(s)[..9])
  {
    var d := Digits(s);
    var body := d[..9];
    var cpf := Complete(body);
    WeightedSumPrefix(d, body, 11, 9);
    DigitValueInjective(d[9], cpf[9]);
    var first10 := body + [cpf[9]];
    assert d[..10] == first10[..10];
    WeightedSumPrefix(d, first10, 12, 10);
    DigitValueInjective(d[10], cpf[10]);
  }

  lemma DigitValueInjective(a: char, b: char)
    requires IsDigit(a) && IsDigit(b) && DigitValue(a) == DigitValue(b)
    ensures a == b
  {
  }

  /** The sum of the weights top - 1, ..., top - k. */
  function WeightTotal(top: nat, k: nat): nat
    requires k < top
  {
    if k == 0 then 0 else WeightTotal(top, k - 1) + (top - k)
  }

  lemma {:induction false} WeightedSumRepeated(d: string, c: char, top: nat, k: nat)
    requires AllDigits(d) && k <= |d| && k < top && IsDigit(c)
    requires forall i :: 0 <= i < |d| ==> d[i] == c
    ensures WeightedSum(d, top, k) == DigitValue(c) * WeightTotal(top, k)
  {
    if k > 0 {
      WeightedSumRepeated(d, c, top, k - 1);
      var v := DigitValue(c);
      assert d[k - 1] == c;
      assert v * WeightTotal(top, k) == v * WeightTotal(top, k - 1) + v * (top - k);
    }
  }

  /** Repeated-digit strings such as 11111111111 are not singled out: all of
      them pass the check. */
  lemma RepeatedDigitsAccepted(c: char)
    requires IsDigit(c)
    ensures ValidateCpf(seq(11, _ => c))
  {
    var d := seq(11, _ => c);
    KeepAllKept(d, IsDigit);
    RepeatedSums(d, c);
    RepeatedCheckDigits(DigitValue(c));
  }

  lemma RepeatedSums(d: string, c: char)
    requires IsDigit(c) && |d| == 11 && forall i :: 0 <= i < |d| ==> d[i] == c
    ensures AllDigits(d)
    ensures WeightedSum(d, 11, 9) == DigitValue(c) * 54
    ensures WeightedSum(d, 12, 10) == DigitValue(c) * 65
  {
    WeightedSumRepeated(d, c, 11, 9);
    WeightedSumRepeated(d, c, 12, 10);
    assert WeightTotal(11, 9) == 54;
    assert WeightTotal(12, 10) == 65;
  }

  /** 540 and 650 are both 1 more than a multiple of 11, so both check digits
      of a repeated digit v are v itself. */
  lemma RepeatedCheckDigits(v: nat)
    requires v <= 9
    ensures CheckDigit(v * 54) == v && CheckDigit(v * 65) == v
  {
    assert v * 54 * 10 == 11 * (49 * v) + v;
    assert v * 65 * 10 == 11 * (59 * v) + v;
  }

  /** On a string of digits alone, `ValidateCpf` is the check-digit test itself. */
  lemma ValidateDigitString(d: string)
    requires AllDigits(d)
    ensures ValidateCpf(d) <==>
      && |d| == 11
      && CheckDigit(WeightedSum(d, 11, 9)) == DigitValue(d[9])
      && CheckDigit(WeightedSum(d, 12, 10)) == DigitValue(d[10])
  {
    KeepAllKept(d, IsDigit);
  }

  lemma KnownCpfSums(d: string)
    requires d == "52998224725"
    ensures AllDigits(d)
    ensures WeightedSum(d, 11, 9) == 295
    ensures WeightedSum(d, 12, 10) == 347
  {
    assert AllDigits(d);
    FirstKnownSum(d);
    SecondKnownSum(d);
  }

  lemma FirstKnownSum(d: string)
    requires d == "52998224725" && AllDigits(d)
    ensures WeightedSum(d, 11, 9) == 295
  {
    assert WeightedSum(d, 11, 1) == 50;
    assert WeightedSum(d, 11, 2) == 68;
    assert WeightedSum(d, 11, 3) == 140;
    assert WeightedSum(d, 11, 4) == 203;
    assert WeightedSum(d, 11, 5) == 251;
    assert WeightedSum(d, 11, 6) == 261;
    assert WeightedSum(d, 11, 7) == 269;
    assert WeightedSum(d, 11, 8) == 281;
  }

  lemma SecondKnownSum(d: string)
    requires d == "52998224725" && AllDigits(d)
    ensures WeightedSum(d, 12, 10) == 347
  {
    assert WeightedSum(d, 12, 1) == 55;
    assert WeightedSum(d, 12, 2) == 75;
    assert WeightedSum(d, 12, 3) == 156;
    assert WeightedSum(d, 12, 4) == 228;
    assert WeightedSum(d, 12, 5) == 284;
    assert WeightedSum(d, 12, 6) == 296;
    assert WeightedSum(d, 12, 7) == 306;
    assert WeightedSum(d, 12, 8) == 322;
    assert WeightedSum(d, 12, 9) == 343;
  }

  lemma KnownCheckDigits(a: nat, b: nat)
    requires a == 295 && b == 347
    ensures CheckDigit(a) == 2 && CheckDigit(b) == 5
  {
    assert (a * 10) % 11 == 2;
    assert (b * 10) % 11 == 5;
  }

  /** A well-known valid CPF. */
  lemma KnownCpfValid(d: string)
    requires d == "52998224725"
    ensures ValidateCpf(d)
  {
    KnownCpfSums(d);
    ValidateDigitString(d);
    KnownCheckDigits(295, 347);
    assert DigitValue(d[9]) == 2 && DigitValue(d[10]) == 5;
  }

  /** The same CPF with its last digit changed is refused. */
  lemma KnownCpfInvalid(d: string, e: string)
    requires d == "52998224725" && e == "52998224726"
    ensures !ValidateCpf(e)
  {
    assert AllDigits(e);
    ValidateDigitString(e);
    assert d[..10] == e[..10];
    KnownCpfSums(d);
    WeightedSumPrefix(d, e, 12, 10);
    KnownCheckDigits(295, 347);
    assert DigitValue(e[10]) == 6;
  }

  // The input mask.

  /** Four digits start at index p: where `/(\d{3})(\d)/` matches. */
  predicate FourDigitsAt(s: string, p: int) {
    0 <= p && p + 4 <= |s| && AllDigits(s[p..p + 4])
  }

  /** The leftmost match of `/(\d{3})(\d)/` at or after `from`. */
  function FourDigitRun(s: string, from: nat): (p: Option<nat>)
    ensures p.Some? ==> from <= p.value && FourDigitsAt(s, p.value)
    ensures p.Some? ==> forall q :: from <= q < p.value ==> !FourDigitsAt(s, q)
    ensures p.None? ==> forall q :: from <= q ==> !FourDigitsAt(s, q)
    decreases |s| - from
  {
    if from + 4 > |s| then None
    else if AllDigits(s[from..from + 4]) then Some(from)
    else FourDigitRun(s, from + 1)
  }

  function Insert(s: string, p: nat, c: char): (r: string)
    requires p <= |s|
    ensures |r| == |s| + 1
  {
    s[..p] + [c] + s[p..]
  }

  /** `s.replace(/(\d{3})(\d)/, '$1.$2')`. */
  function DotAfterFirstTriple(s: string): string {
    match FourDigitRun(s, 0)
    case None => s
    case Some(p) => Insert(s, p + 3, '.')
  }

  /** `/(\d{3})(\d{1,2})$/` matches at index q: from q to the end, four or five digits. */
  predicate TailMatchAt(s: string, q: int) {
    0 <= q && 4 <= |s| - q <= 5 && AllDigits(s[q..])
  }

  /** The leftmost match of `/(\d{3})(\d{1,2})$/`. */
  function TailRun(s: string): (p: Option<nat>)
    ensures p.Some? ==> TailMatchAt(s, p.value)
    ensures p.Some? ==> forall q :: 0 <= q < p.value ==> !TailMatchAt(s, q)
    ensures p.None? ==> forall q :: !TailMatchAt(s, q)
  {
    if |s| >= 5 && AllDigits(s[|s| - 5..]) then Some(|s| - 5)
    else if |s| >= 4 && AllDigits(s[|s| - 4..]) then
      assert |s| < 5 || !AllDigits(s[|s| - 5..]);
      Some(|s| - 4)
    else None
  }

  /** `s.replace(/(\d{3})(\d{1,2})$/, '$1-$2')`. */
  function DashBeforeLastDigits(s: string): string {
    match TailRun(s)
    case None => s
    case Some(p) => Insert(s, p + 3, '-')
  }

  /** `formatCPF`. */
  function FormatCpf(value: string): (r: string)
    ensures |r| <= 14
    ensures forall i :: 0 <= i < |r| ==> IsDigit(r[i]) || r[i] == '.' || r[i] == '-'
  {
    var s := DashBeforeLastDigits(DotAfterFirstTriple(DotAfterFirstTriple(Digits(value))));
    MaskCharsOnly(Digits(value));
    if |s| <= 14 then s else s[..14]
  }

  predicate MaskChars(s: string) {
    forall i :: 0 <= i < |s| ==> IsDigit(s[i]) || s[i] == '.' || s[i] == '-'
  }

  lemma InsertMaskChar(s: string, p: nat, c: char)
    requires p <= |s| && MaskChars(s) && (c == '.' || c == '-')
    ensures MaskChars(Insert(s, p, c))
  {
    var r := Insert(s, p, c);
    forall i | 0 <= i < |r| ensures IsDigit(r[i]) || r[i] == '.' || r[i] == '-' {
      if i > p {
        assert r[i] == s[i - 1];
      }
    }
  }

  lemma MaskCharsOnly(d: string)
    requires AllDigits(d)
    ensures MaskChars(DashBeforeLastDigits(DotAfterFirstTriple(DotAfterFirstTriple(d))))
  {
    var s1 := DotAfterFirstTriple(d);
    match FourDigitRun(d, 0) {
      case None =>
      case Some(p) => InsertMaskChar(d, p + 3, '.');
    }
    var s2 := DotAfterFirstTriple(s1);
    match FourDigitRun(s1, 0) {
      case None =>
      case Some(p) => InsertMaskChar(s1, p + 3, '.');
    }
    match TailRun(s2) {
      case None =>
      case Some(p) => InsertMaskChar(s2, p + 3, '-');
    }
  }

  /** Each mask step inserts at most one separator and keeps the digits. */
  lemma DotStep(s: string)
    ensures Digits(DotAfterFirstTriple(s)) == Digits(s)
    ensures |DotAfterFirstTriple(s)| <= |s| + 1
  {
    match FourDigitRun(s, 0) {
      case None =>
      case Some(p) => KeepInsert(s, p + 3, '.', IsDigit);
    }
  }

  lemma DashStep(s: string)
    ensures Digits(DashBeforeLastDigits(s)) == Digits(s)
    ensures |DashBeforeLastDigits(s)| <= |s| + 1
  {
    match TailRun(s) {
      case None =>
      case Some(p) => KeepInsert(s, p + 3, '-', IsDigit);
    }
  }

  /** Up to eleven digits, the mask keeps every digit of the input, in order. */
  lemma FormatCpfKeepsDigits(value: string)
    requires |Digits(value)| <= 11
    ensures Digits(FormatCpf(value)) == Digits(value)
  {
    var d := Digits(value);
    var s1 := DotAfterFirstTriple(d);
    var s2 := DotAfterFirstTriple(s1);
    var s3 := DashBeforeLastDigits(s2);
    DotStep(d);
    DotStep(s1);
    DashStep(s2);
    KeepIdempotent(value, IsDigit);
    assert |s3| <= 14;
  }

  /** So masking never changes whether a CPF of up to eleven digits is accepted. */
  lemma FormatCpfPreservesValidity(value: string)
    requires |Digits(value)| <= 11
    ensures ValidateCpf(FormatCpf(value)) == ValidateCpf(value)
  {
    FormatCpfKeepsDigits(value);
  }

  /** Eleven digits come out in the shape ddd.ddd.ddd-dd. */
  lemma FormatCpfElevenDigits(value: string)
    requires |Digits(value)| == 11
    ensures var d := Digits(value);
      FormatCpf(value) == d[..3] + "." + d[3..6] + "." + d[6..9] + "-" + d[9..]
  {
    var d := Digits(value);
    assert FourDigitsAt(d, 0);
    var s1 := DotAfterFirstTriple(d);
    assert s1 == d[..3] + "." + d[3..];
    assert s1[3] == '.';
    forall q | 0 <= q < 4 ensures !FourDigitsAt(s1, q) {
      assert s1[q..q + 4][3 - q] == '.';
    }
    assert s1[4..8] == d[3..7];
    assert FourDigitsAt(s1, 4);
    var s2 := DotAfterFirstTriple(s1);
    assert s2 == d[..3] + "." + d[3..6] + "." + d[6..];
    assert s2[8..] == d[6..];
    assert TailMatchAt(s2, 8);
    var s3 := DashBeforeLastDigits(s2);
    assert s3 == d[..3] + "." + d[3..6] + "." + d[6..9] + "-" + d[9..];
  }

  /** The mask of a known valid CPF, which stays accepted. */
  lemma KnownCpfMasked(d: string)
    requires d == "52998224725"
    ensures FormatCpf(d) == "529.982.247-25"
    ensures ValidateCpf(FormatCpf(d))
  {
    assert "529" + "." + "982" + "." + "247" + "-" + "25" == "529.982.247-25";
    assert d[..3] == "529" && d[3..6] == "982" && d[6..9] == "247" && d[9..] == "25";
    KeepAllKept(d, IsDigit);
    FormatCpfElevenDigits(d);
    FormatCpfPreservesValidity(d);
    KnownCpfValid(d);
  }
}
