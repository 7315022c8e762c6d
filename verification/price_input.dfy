/** The price field of the product form
    (react/src/components/pages/Products/ProductForm.jsx): `handlePriceChange`,
    which sanitises every keystroke before it becomes the `Preco` state, and the
    price check of `handleSubmit`, which refuses a price that does not parse to
    a positive number. */
module PriceInput {
  import opened Wrappers
  import opened Strings
  import opened JsNumber

  predicate IsPriceChar(c: char) {
    IsDigit(c) || c == '.'
  }

  /** `value.replace(/[^\d.]/g, '')`: only digits and dots are left, and an
      input made of those alone is left as it is. */
  function Clean(value: string): (r: string)
    ensures PriceChars(r) && |r| <= |value|
    ensures r == value <==> PriceChars(value)
  {
    var r := Keep(value, IsPriceChar);
    assert PriceChars(value) ==> r == value by {
      if PriceChars(value) {
        KeepAllKept(value, IsPriceChar);
      }
    }
    r
  }

  /** `handlePriceChange`: the new `Preco` state after the field receives
      `value`, given the current state `preco`. */
  function HandlePriceChange(preco: string, value: string): string {
    var parts := Split(Clean(value), '.');
    if |parts| > 2 then preco
    else if |parts| == 2 && |parts[1]| > 2 then Join([parts[0], parts[1][..2]], '.')
    else Join(parts, '.')
  }

  /** The index of the first '.' of `s`, or |s| when there is none. */
  function DotIndex(s: string): (k: nat)
    ensures k <= |s|
    ensures forall i :: 0 <= i < k ==> s[i] != '.'
    ensures k < |s| ==> s[k] == '.'
  {
    if |s| == 0 || s[0] == '.' then 0 else 1 + DotIndex(s[1..])
  }

  /** Digits and dots only. */
  predicate PriceChars(s: string) {
    forall i :: 0 <= i < |s| ==> IsPriceChar(s[i])
  }

  lemma PriceCharsSlice(s: string, a: nat, b: nat)
    requires PriceChars(s) && a <= b <= |s|
    ensures PriceChars(s[a..b])
  {
    forall i | 0 <= i < b - a ensures IsPriceChar(s[a..b][i]) {
      assert s[a..b][i] == s[a + i];
    }
  }

  /** At most the first two characters of `t`: `t.slice(0, 2)` when longer. */
  function TakeTwo(t: string): string {
    if |t| > 2 then t[..2] else t
  }

  /** A price as the form keeps it: digits and at most one '.', with at most two
      characters after it. */
  predicate WellFormed(s: string) {
    && PriceChars(s)
    && Count(s, '.') <= 1
    && |s| - DotIndex(s) <= 3
  }

  lemma {:induction false} CountConcat(a: string, b: string, c: char)
    ensures Count(a + b, c) == Count(a, c) + Count(b, c)
  {
    if |a| == 0 {
      assert a + b == b;
    } else {
      assert (a + b)[1..] == a[1..] + b;
      CountConcat(a[1..], b, c);
    }
  }

  /** A string with a dot at `DotIndex` is the dot-free part before it, the
      dot, and the rest, which holds every other dot. */
  lemma {:induction false} CutAtDot(s: string)
    requires DotIndex(s) < |s|
    ensures var k := DotIndex(s);
      && s == s[..k] + (['.'] + s[k + 1..])
      && '.' !in s[..k]
      && Count(s, '.') == 1 + Count(s[k + 1..], '.')
  {
    var k := DotIndex(s);
    var head, rest := s[..k], s[k + 1..];
    assert s == head + (['.'] + rest);
    CountConcat(head, ['.'] + rest, '.');
    assert (['.'] + rest)[1..] == rest;
    CountZero(head, '.');
  }

  /** `DotIndex` finds a dot exactly when there is one. */
  lemma DotIndexFinds(s: string)
    ensures DotIndex(s) < |s| <==> Count(s, '.') > 0
  {
    CountZero(s, '.');
    if DotIndex(s) == |s| {
      assert s[..DotIndex(s)] == s;
    } else {
      assert s[DotIndex(s)] in s;
    }
  }

  lemma DotFreeSplit(s: string)
    requires '.' !in s
    ensures Split(s, '.') == [s]
  {
    SplitFreePrefix(s, "", '.');
    assert s + "" == s;
  }

  /** Splitting a string with a single dot gives the parts on either side. */
  lemma SplitAround(head: string, rest: string)
    requires '.' !in head && '.' !in rest
    ensures Split(head + (['.'] + rest), '.') == [head, rest]
  {
    var t := ['.'] + rest;
    assert t[1..] == rest;
    DotFreeSplit(rest);
    var parts := Split(t, '.');
    assert parts == ["", rest];
    SplitFreePrefix(head, t, '.');
    assert head + parts[0] == head;
  }

  /** How `split('.')` cuts a string with no dot or exactly one. */
  lemma SplitAtDot(s: string)
    requires Count(s, '.') <= 1
    ensures var k := DotIndex(s);
      Split(s, '.') == if k == |s| then [s] else [s[..k], s[k + 1..]]
  {
    DotIndexFinds(s);
    if Count(s, '.') == 0 {
      CountZero(s, '.');
      DotFreeSplit(s);
    } else {
      SplitOneDot(s);
    }
  }

  lemma SplitOneDot(s: string)
    requires Count(s, '.') == 1 && DotIndex(s) < |s|
    ensures Split(s, '.') == [s[..DotIndex(s)], s[DotIndex(s) + 1..]]
  {
    var k := DotIndex(s);
    CutAtDot(s);
    var head, rest := s[..k], s[k + 1..];
    CountZero(rest, '.');
    SplitAround(head, rest);
  }

  lemma JoinTwo(a: string, b: string)
    ensures Join([a, b], '.') == a + "." + b
  {
    assert [a, b][1..] == [b];
  }

  /** `handlePriceChange` case by case: more than one dot leaves the state as it
      was; otherwise the result is the cleaned input with the integer part kept
      verbatim and the part after the dot cut to two characters. */
  lemma PriceChangeCases(preco: string, value: string)
    ensures var c := Clean(value);
      var k := DotIndex(c);
      && (Count(c, '.') > 1 ==> HandlePriceChange(preco, value) == preco)
      && (Count(c, '.') == 0 ==> HandlePriceChange(preco, value) == c)
      && (Count(c, '.') == 1 ==> k < |c| && HandlePriceChange(preco, value) == c[..k] + "." + TakeTwo(c[k + 1..]))
  {
    var c := Clean(value);
    DotIndexFinds(c);
    if Count(c, '.') <= 1 {
      SplitAtDot(c);
      var k := DotIndex(c);
      if k < |c| {
        JoinTwo(c[..k], TakeTwo(c[k + 1..]));
        JoinTwo(c[..k], c[k + 1..]);
      }
    }
  }

  /** The cleaned input is made of digits and dots only. */
  lemma CleanChars(value: string)
    ensures PriceChars(Clean(value))
  {
  }

  /** Before a dot-free prefix, the first dot is where it is in the rest. */
  lemma {:induction false} DotIndexAfterFree(head: string, t: string)
    requires '.' !in head
    ensures DotIndex(head + t) == |head| + DotIndex(t)
  {
    if |head| == 0 {
      assert head + t == t;
    } else {
      assert (head + t)[1..] == head[1..] + t;
      assert (head + t)[0] == head[0];
      DotIndexAfterFree(head[1..], t);
    }
  }

  /** Cutting a dot-free run of price characters to two keeps it so. */
  lemma TakeTwoKeeps(t: string)
    requires PriceChars(t) && '.' !in t
    ensures PriceChars(TakeTwo(t)) && '.' !in TakeTwo(t) && |TakeTwo(t)| <= 2
  {
    if |t| > 2 {
      PriceCharsSlice(t, 0, 2);
      assert t[0..2] == t[..2];
      assert forall x :: x in t[..2] ==> x in t;
    }
  }

  /** A dot-free integer part, one dot and at most two dot-free decimals make a well-formed price. */
  lemma WellFormedAround(head: string, frac: string)
    requires PriceChars(head) && PriceChars(frac) && '.' !in head && '.' !in frac && |frac| <= 2
    ensures WellFormed(head + "." + frac)
  {
    var t := "." + frac;
    var r := head + t;
    assert head + "." + frac == r;
    DotIndexAfterFree(head, t);
    CountConcat(head, t, '.');
    CountZero(head, '.');
    assert t[1..] == frac;
    CountZero(frac, '.');
    forall i | 0 <= i < |r| ensures IsPriceChar(r[i]) {
      if i < |head| {
        assert r[i] == head[i];
      } else if i > |head| {
        assert r[i] == frac[i - |head| - 1];
      }
    }
  }

  /** After a change the state is still a well-formed price. */
  lemma PriceChangeKeepsWellFormed(preco: string, value: string)
    requires WellFormed(preco)
    ensures WellFormed(HandlePriceChange(preco, value))
  {
    PriceChangeResult(preco, value);
  }

  /** The sanitiser either keeps the previous state or stores a well-formed
      price. */
  lemma PriceChangeResult(preco: string, value: string)
    ensures HandlePriceChange(preco, value) == preco || WellFormed(HandlePriceChange(preco, value))
  {
    var c := Clean(value);
    PriceChangeCases(preco, value);
    CleanChars(value);
    if Count(c, '.') == 0 {
      NoDotWellFormed(c);
    } else if Count(c, '.') == 1 {
      DotIndexFinds(c);
      OneDotWellFormed(c);
    }
  }

  lemma NoDotWellFormed(c: string)
    requires PriceChars(c) && Count(c, '.') == 0
    ensures WellFormed(c)
  {
    DotIndexFinds(c);
  }

  /** With a single dot, the integer part, the dot and the cut decimals form a
      well-formed price. */
  lemma OneDotWellFormed(c: string)
    requires PriceChars(c) && Count(c, '.') == 1 && DotIndex(c) < |c|
    ensures WellFormed(c[..DotIndex(c)] + "." + TakeTwo(c[DotIndex(c) + 1..]))
  {
    var k := DotIndex(c);
    AroundOneDot(c);
    TakeTwoKeeps(c[k + 1..]);
    WellFormedAround(c[..k], TakeTwo(c[k + 1..]));
  }

  /** Both sides of the only dot of a string of price characters are free of
      dots and made of price characters. */
  lemma AroundOneDot(c: string)
    requires PriceChars(c) && Count(c, '.') == 1 && DotIndex(c) < |c|
    ensures var k := DotIndex(c);
      && '.' !in c[..k] && '.' !in c[k + 1..]
      && PriceChars(c[..k]) && PriceChars(c[k + 1..])
  {
    var k := DotIndex(c);
    DotFreeBefore(c);
    OnlyDotFreeAfter(c);
    PriceCharsPrefix(c, k);
    PriceCharsSuffix(c, k + 1);
  }

  lemma DotFreeBefore(s: string)
    ensures '.' !in s[..DotIndex(s)]
  {
    var k := DotIndex(s);
    forall i | 0 <= i < k ensures s[..k][i] != '.' {
      assert s[..k][i] == s[i];
    }
  }

  lemma OnlyDotFreeAfter(s: string)
    requires Count(s, '.') == 1 && DotIndex(s) < |s|
    ensures '.' !in s[DotIndex(s) + 1..]
  {
    CutAtDot(s);
    CountZero(s[DotIndex(s) + 1..], '.');
  }

  lemma PriceCharsPrefix(s: string, k: nat)
    requires PriceChars(s) && k <= |s|
    ensures PriceChars(s[..k])
  {
    forall i | 0 <= i < k ensures IsPriceChar(s[..k][i]) {
      assert s[..k][i] == s[i];
    }
  }

  lemma PriceCharsSuffix(s: string, k: nat)
    requires PriceChars(s) && k <= |s|
    ensures PriceChars(s[k..])
  {
    forall i | 0 <= i < |s| - k ensures IsPriceChar(s[k..][i]) {
      assert s[k..][i] == s[k + i];
    }
  }

  /** A well-formed price is left as it is by the sanitiser. */
  lemma WellFormedIsFixedPoint(preco: string, s: string)
    requires WellFormed(s)
    ensures HandlePriceChange(preco, s) == s
  {
    KeepAllKept(s, IsPriceChar);
    PriceChangeCases(preco, s);
    DotIndexFinds(s);
    if Count(s, '.') == 1 {
      OneDotKept(s);
    }
  }

  lemma OneDotKept(s: string)
    requires WellFormed(s) && Count(s, '.') == 1 && DotIndex(s) < |s|
    ensures s[..DotIndex(s)] + "." + TakeTwo(s[DotIndex(s) + 1..]) == s
  {
    var k := DotIndex(s);
    CutAtDot(s);
    RejoinShort(s, s[..k], s[k + 1..]);
  }

  /** Cutting at most two decimals off and joining the parts again gives the string back. */
  lemma RejoinShort(s: string, head: string, after: string)
    requires s == head + (['.'] + after) && |after| <= 2
    ensures head + "." + TakeTwo(after) == s
  {
    assert head + "." + after == head + (['.'] + after);
  }

  /** The sanitiser is idempotent: feeding its result back in changes nothing. */
  lemma PriceChangeIdempotent(preco: string, value: string)
    requires WellFormed(preco)
    ensures var r := HandlePriceChange(preco, value);
      HandlePriceChange(r, r) == r
  {
    PriceChangeKeepsWellFormed(preco, value);
    var r := HandlePriceChange(preco, value);
    WellFormedIsFixedPoint(r, r);
  }

  /** A cleaned input that already has at most one dot and two decimals is taken as is. */
  lemma CleanInputKept(preco: string, value: string)
    requires WellFormed(Clean(value))
    ensures HandlePriceChange(preco, value) == Clean(value)
  {
    KeepIdempotent(value, IsPriceChar);
    WellFormedIsFixedPoint(preco, Clean(value));
  }

  // The price check of `handleSubmit`.

  datatype PriceError = PrecoInvalido

  /** The check of `handleSubmit`: NaN or a value not above zero is refused
      before any save; otherwise the parsed price is what gets saved. */
  function SubmitPrice(preco: string): (r: Result<Number, PriceError>)
    ensures r.Success? <==> ParseFloat(preco).Some? && Value(ParseFloat(preco).value) > 0.0
    ensures r.Success? ==> ParseFloat(preco) == Some(r.value)
  {
    match ParseFloat(preco)
    case None => Failure(PrecoInvalido)
    case Some(v) => if v.negative || v.mantissa == 0 then Failure(PrecoInvalido) else Success(v)
  }

  /** The number of characters after the dot of a price, 0 without one. */
  function FracLength(s: string): nat {
    if DotIndex(s) == |s| then 0 else |s| - DotIndex(s) - 1
  }

  /** On a well-formed price `parseFloat` reads all of its digits, the ones
      after the dot as decimals. */
  lemma ParseWellFormed(preco: string)
    requires WellFormed(preco)
    ensures ParseDecimal(preco) ==
      if |Digits(preco)| == 0 then None
      else Some(Decimal(DigitsValue(Digits(preco)), FracLength(preco)))
  {
    DotIndexFinds(preco);
    if DotIndex(preco) == |preco| {
      ParseWithoutDot(preco);
    } else {
      var k := DotIndex(preco);
      DigitsAroundOneDot(preco);
      ParseParts(preco, preco[..k], preco[k + 1..]);
    }
  }

  lemma ParseWithoutDot(preco: string)
    requires WellFormed(preco) && DotIndex(preco) == |preco|
    ensures AllDigits(preco) && Digits(preco) == preco
    ensures ParseDecimal(preco) == if |preco| == 0 then None else Some(Decimal(DigitsValue(preco), 0))
  {
    assert AllDigits(preco);
    LeadingDigitsAll(preco);
    KeepAllKept(preco, IsDigit);
    assert preco[|preco|..] == "";
    assert preco + "" == preco;
  }

  /** A string cut at its only dot into two runs of digits keeps both as digits
      and is read by `parseFloat` with the second run as decimals. */
  lemma ParseParts(s: string, head: string, after: string)
    requires AllDigits(head) && AllDigits(after) && s == head + (['.'] + after)
    ensures Digits(s) == head + after
    ensures ParseDecimal(s) ==
      if |head| + |after| == 0 then None
      else Some(Decimal(DigitsValue(head + after), |after|))
  {
    ParseCut(head, after);
    DigitsAroundDot(head, after);
  }

  /** A well-formed price with a dot is its digits, the dot and its decimals. */
  lemma DigitsAroundOneDot(s: string)
    requires WellFormed(s) && DotIndex(s) < |s|
    ensures var k := DotIndex(s);
      && s == s[..k] + (['.'] + s[k + 1..])
      && AllDigits(s[..k]) && AllDigits(s[k + 1..])
  {
    var k := DotIndex(s);
    DotIndexFinds(s);
    AroundOneDot(s);
    CutAtDot(s);
    DotFreeDigits(s[..k]);
    DotFreeDigits(s[k + 1..]);
  }

  lemma DotFreeDigits(s: string)
    requires PriceChars(s) && '.' !in s
    ensures AllDigits(s)
  {
    forall i | 0 <= i < |s| ensures IsDigit(s[i]) {
      assert s[i] in s;
    }
  }

  /** `parseFloat` reads both runs of digits around a dot. */
  lemma ParseCut(head: string, after: string)
    requires AllDigits(head) && AllDigits(after)
    ensures ParseDecimal(head + (['.'] + after)) ==
      if |head| + |after| == 0 then None
      else Some(Decimal(DigitsValue(head + after), |after|))
  {
    var s := head + (['.'] + after);
    assert s[..|head|] == head;
    LeadingDigitsUpTo(s, |head|);
    assert s[|head|..] == ['.'] + after;
    assert (['.'] + after)[1..] == after;
    LeadingDigitsAll(after);
  }

  lemma DigitsAroundDot(head: string, after: string)
    requires AllDigits(head) && AllDigits(after)
    ensures Digits(head + (['.'] + after)) == head + after
  {
    KeepConcat(head, ['.'] + after, IsDigit);
    KeepConcat(['.'], after, IsDigit);
    KeepSingle('.', IsDigit);
    KeepAllKept(head, IsDigit);
    KeepAllKept(after, IsDigit);
  }

  /** The digits of `s` include a non-zero one exactly when `s` has a character 1 to 9. */
  lemma {:induction false} NonzeroDigit(s: string)
    ensures (exists i :: 0 <= i < |Digits(s)| && Digits(s)[i] != '0') <==>
            (exists j :: 0 <= j < |s| && '1' <= s[j] <= '9')
  {
    if |s| > 0 {
      NonzeroDigit(s[1..]);
      var d, tail := Digits(s), Digits(s[1..]);
      if IsDigit(s[0]) {
        assert d == [s[0]] + tail;
        if i :| 0 <= i < |tail| && tail[i] != '0' {
          assert d[i + 1] != '0';
        }
        if i :| 0 <= i < |d| && d[i] != '0' {
          if i > 0 {
            assert tail[i - 1] != '0';
          }
        }
      } else {
        assert d == tail;
      }
      if j :| 0 <= j < |s[1..]| && '1' <= s[1..][j] <= '9' {
        assert '1' <= s[j + 1] <= '9';
      }
      if j :| 0 <= j < |s| && '1' <= s[j] <= '9' {
        if j == 0 {
          assert d[0] == s[0];
        } else {
          assert '1' <= s[1..][j - 1] <= '9';
        }
      }
    }
  }

  /** A well-formed price has no sign and no exponent, so `parseFloat` reads
      it as the unsigned literal: all of its digits, those after the dot as
      decimals. */
  lemma ParseFloatWellFormed(preco: string)
    requires WellFormed(preco)
    ensures ParseFloat(preco) ==
      if |Digits(preco)| == 0 then None
      else Some(Number(false, DigitsValue(Digits(preco)), -(FracLength(preco) as int)))
  {
    PriceCharsUnsigned(preco);
    ParseFloatUnsigned(preco);
    ParseWellFormed(preco);
  }

  lemma PriceCharsUnsigned(s: string)
    requires PriceChars(s)
    ensures |s| == 0 || (s[0] != '-' && s[0] != '+')
    ensures forall i :: 0 <= i < |s| ==> s[i] != 'e' && s[i] != 'E'
  {
    if |s| > 0 {
      assert IsPriceChar(s[0]);
    }
  }

  /** A well-formed price is saved exactly when one of its digits is not zero,
      and it is then read as a positive number with at most two decimals. */
  lemma SubmitWellFormed(preco: string)
    requires WellFormed(preco)
    ensures SubmitPrice(preco).Success? <==> exists i :: 0 <= i < |preco| && '1' <= preco[i] <= '9'
    ensures SubmitPrice(preco).Success? ==>
      !SubmitPrice(preco).value.negative && SubmitPrice(preco).value.exponent >= -2
  {
    ParseFloatWellFormed(preco);
    DigitsValuePositive(Digits(preco));
    NonzeroDigit(preco);
  }

  /** Examples of what the price check refuses and accepts. */
  lemma SubmitExamples(empty: string, dot: string, zero: string, half: string)
    requires empty == "" && dot == "." && zero == "0.00" && half == ".5"
    ensures SubmitPrice(empty) == Failure(PrecoInvalido)
    ensures SubmitPrice(dot) == Failure(PrecoInvalido)
    ensures SubmitPrice(zero) == Failure(PrecoInvalido)
    ensures SubmitPrice(half) == Success(Number(false, 5, -1))
  {
    NothingRead(empty, dot);
    ZeroRead(zero);
    HalfExample(half);
  }

  lemma NothingRead(empty: string, dot: string)
    requires empty == "" && dot == "."
    ensures ParseFloat(empty) == None && ParseFloat(dot) == None
  {
    ParseFloatUnsigned(empty);
    ParseFloatUnsigned(dot);
    assert LeadingDigits(dot) == "";
    assert |dot[1..]| == 0;
  }

  lemma ZeroRead(zero: string)
    requires zero == "0.00"
    ensures ParseFloat(zero) == Some(Number(false, 0, -2))
  {
    ParseFloatUnsigned(zero);
    assert zero[..1] == "0";
    LeadingDigitsUpTo(zero, 1);
    var after := zero[2..];
    assert after == "00";
    LeadingDigitsAll(after);
    assert "0" + "00" == "000";
    DigitsValuePositive("000");
  }
}
