/**
 * The stand-alone script of the registration page: its own CPF test
 * (`validarCPF`), its own CPF and phone masks, and the submit handler that
 * checks the age and then the CPF. Its CEP mask is the same rewrite as
 * `FormValidator.CepMask`.
 */
module FormValidation {
  import opened Wrappers
  import opened Text
  import opened Calendar
  import FormValidator

  // ---------------------------------------------------------------------
  // validarCPF
  // ---------------------------------------------------------------------

  /** A JavaScript number as far as these loops need one: an integer or NaN. */
  datatype JsNumber = Num(n: int) | NaN

  /** `parseInt` of a one-character string. */
  function ParseIntChar(c: char): (r: JsNumber)
    ensures r.Num? <==> IsDigit(c)
  {
    if IsDigit(c) then Num(DigitValue(c)) else NaN
  }

  function Plus(a: JsNumber, b: JsNumber): JsNumber {
    if a.Num? && b.Num? then Num(a.n + b.n) else NaN
  }

  function Times(a: JsNumber, k: int): JsNumber {
    if a.Num? then Num(a.n * k) else NaN
  }

  /** `===` on numbers: NaN equals nothing. */
  predicate StrictEquals(a: JsNumber, b: JsNumber) {
    a.Num? && b.Num? && a.n == b.n
  }

  /** The value of `soma` after the loop has run over the first `n` characters. */
  function Soma(cpf: string, n: nat, top: int): JsNumber
    requires n <= |cpf|
  {
    if n == 0 then Num(0) else Plus(Soma(cpf, n - 1, top), Times(ParseIntChar(cpf[n - 1]), top - (n - 1)))
  }

  /** Over digits `soma` is the weighted sum; one non-digit makes it NaN for good. */
  lemma {:induction false} SomaIsWeightedSum(cpf: string, n: nat, top: int)
    requires n <= |cpf|
    ensures (forall i :: 0 <= i < n ==> IsDigit(cpf[i])) ==>
              Soma(cpf, n, top) == Num(FormValidator.WeightedSum(cpf, n, top))
    ensures (exists i :: 0 <= i < n && !IsDigit(cpf[i])) ==> Soma(cpf, n, top) == NaN
  {
    if n > 0 {
      SomaIsWeightedSum(cpf, n - 1, top);
      if !IsDigit(cpf[n - 1]) {
        assert Soma(cpf, n, top) == NaN;
      } else if exists i :: 0 <= i < n && !IsDigit(cpf[i]) {
        var i :| 0 <= i < n && !IsDigit(cpf[i]);
        assert i < n - 1;
      }
    }
  }

  /** The check digit `validarCPF` expects for a weighted sum. */
  function ResidueCheckDigit(sum: nat): (digit: nat)
    ensures digit <= 9
  {
    var r := (sum * 10) % 11;
    if r == 10 || r == 11 then 0 else r
  }

  /** The two remainder formulas give the same check digit for every sum. */
  lemma {:induction false} CheckDigitFormulasAgree(sum: nat)
    ensures ResidueCheckDigit(sum) == FormValidator.CheckDigit(sum)
  {
    var q, r := sum / 11, sum % 11;
    assert sum * 10 == 11 * (10 * q) + 10 * r;
    assert (sum * 10) % 11 == (10 * r) % 11 by {
      ModOfMultipleOfElevenPlus(10 * q, 10 * r);
    }
    assert 0 <= r < 11;
    if r == 0 {} else if r == 1 {} else if r == 2 {} else if r == 3 {} else if r == 4 {}
    else if r == 5 {} else if r == 6 {} else if r == 7 {} else if r == 8 {} else if r == 9 {}
    else {}
  }

  lemma ModOfMultipleOfElevenPlus(k: int, x: int)
    ensures (11 * k + x) % 11 == x % 11
  {
  }

  /** What `validarCPF` demands of an already stripped string, in its own remainder formula. */
  predicate ValidarChecks(cpf: string) {
    && |cpf| == 11 && AllDigits(cpf) && !RepeatsOneDigit(cpf)
    && DigitValue(cpf[9]) == ResidueCheckDigit(FormValidator.WeightedSum(cpf, 9, 10))
    && DigitValue(cpf[10]) == ResidueCheckDigit(FormValidator.WeightedSum(cpf, 10, 11))
  }

  /** Given the same string, the two sets of CPF conditions coincide. */
  lemma ValidarAgreesWithValidateCpf(cpf: string)
    ensures ValidarChecks(cpf) == FormValidator.CpfChecks(cpf)
  {
    if |cpf| == 11 && AllDigits(cpf) {
      CheckDigitFormulasAgree(FormValidator.WeightedSum(cpf, 9, 10));
      CheckDigitFormulasAgree(FormValidator.WeightedSum(cpf, 10, 11));
    }
  }

  /**
   * On a digit-only string, `validarCPF` decides what `validateCPF` decides,
   * since stripping non-digits leaves such a string as it is.
   */
  lemma ValidarAgreesOnDigitStrings(s: string)
    requires AllDigits(s)
    ensures ValidarChecks(s) == FormValidator.CpfChecks(Digits(s))
  {
    DigitsOfDigitString(s);
    ValidarAgreesWithValidateCpf(s);
  }

  /**
   * On a punctuated CPF the two tests part: `validateCPF` strips it and
   * accepts, `validarCPF` sees fourteen characters and rejects.
   */
  lemma PunctuatedCpfSplitsTheTests()
    ensures FormValidator.CpfChecks(Digits("529.982.247-25"))
    ensures !ValidarChecks("529.982.247-25")
  {
    DigitsOfPunctuatedCpf();
    FormValidator.KnownCpfAccepted();
  }

  /** Stripping the punctuation of `529.982.247-25` leaves its eleven digits. */
  lemma DigitsOfPunctuatedCpf()
    ensures Digits("529.982.247-25") == "52998224725"
  {
    var a, b, c, e := "529", "982", "247", "25";
    DigitsOfFourGroups(a, '.', b, '.', c, '-', e);
    assert a + (['.'] + (b + (['.'] + (c + (['-'] + e))))) == "529.982.247-25";
    assert a + (b + (c + e)) == "52998224725";
  }

  /** `validarCPF(cpf)`: length and repeated-digit guard, then two loops over `parseInt` of each character. */
  method ValidarCPF(cpf: string) returns (ok: bool)
    ensures ok == ValidarChecks(cpf)
    ensures ok == FormValidator.CpfChecks(cpf)
    ensures |cpf| != 11 || RepeatsOneDigit(cpf) ==> !ok
  {
    ValidarAgreesWithValidateCpf(cpf);
    if |cpf| != 11 || RepeatsOneDigit(cpf) {
      return false;
    }
    var soma := Num(0);
    var resto;
    for i := 1 to 10
      invariant soma == Soma(cpf, i - 1, 10)
    {
      soma := Plus(soma, Times(ParseIntChar(cpf[i - 1]), 11 - i));
    }
    resto := Times(soma, 10);
    if resto.Num? {
      resto := Num(resto.n % 11);
    }
    if resto == Num(10) || resto == Num(11) {
      resto := Num(0);
    }
    SomaIsWeightedSum(cpf, 9, 10);
    if !StrictEquals(resto, ParseIntChar(cpf[9])) {
      return false;
    }
    soma := Num(0);
    for i := 1 to 11
      invariant soma == Soma(cpf, i - 1, 11)
    {
      soma := Plus(soma, Times(ParseIntChar(cpf[i - 1]), 12 - i));
    }
    resto := Times(soma, 10);
    if resto.Num? {
      resto := Num(resto.n % 11);
    }
    if resto == Num(10) || resto == Num(11) {
      resto := Num(0);
    }
    SomaIsWeightedSum(cpf, 10, 11);
    if !StrictEquals(resto, ParseIntChar(cpf[10])) {
      return false;
    }
    return true;
  }

  // ---------------------------------------------------------------------
  // Input masks of this script
  // ---------------------------------------------------------------------

  /** This script's CPF rewrite of at most eleven digits. */
  function FormatCpf(d: string): string {
    if |d| > 8 then
      Slice(d, 0, 3) + "." + Slice(d, 3, 6) + "." + Slice(d, 6, 9) + "-" + SliceFrom(d, 9)
    else if |d| > 5 then
      Slice(d, 0, 3) + "." + Slice(d, 3, 6) + "." + SliceFrom(d, 6)
    else if |d| > 2 then
      Slice(d, 0, 3) + "." + SliceFrom(d, 3)
    else
      d
  }

  function CpfMask(value: string): string {
    FormatCpf(Take(Digits(value), 11))
  }

  /** This script's phone rewrite of at most eleven digits. */
  function FormatPhone(d: string): string {
    if |d| > 7 then
      "(" + Slice(d, 0, 2) + ") " + Slice(d, 2, 7) + "-" + SliceFrom(d, 7)
    else if |d| > 2 then
      "(" + Slice(d, 0, 2) + ") " + SliceFrom(d, 2)
    else
      d
  }

  function PhoneMask(value: string): string {
    FormatPhone(Take(Digits(value), 11))
  }

  /** Right-nested views of the CPF rewrite, one per branch. */
  lemma FormatCpfLongShape(d: string)
    requires 8 < |d|
    ensures FormatCpf(d) == d[..3] + (['.'] + (d[3..6] + (['.'] + (d[6..9] + (['-'] + d[9..])))))
  {
    var a, b, c, e := Slice(d, 0, 3), Slice(d, 3, 6), Slice(d, 6, 9), SliceFrom(d, 9);
    assert a == d[..3] && b == d[3..6] && c == d[6..9] && e == d[9..];
    assert a + "." + b + "." + c + "-" + e == a + (['.'] + (b + (['.'] + (c + (['-'] + e)))));
  }

  lemma FormatCpfMiddleShape(d: string)
    requires 5 < |d| <= 8
    ensures FormatCpf(d) == d[..3] + (['.'] + (d[3..6] + (['.'] + d[6..])))
  {
    var a, b, c := Slice(d, 0, 3), Slice(d, 3, 6), SliceFrom(d, 6);
    assert a == d[..3] && b == d[3..6] && c == d[6..];
    assert a + "." + b + "." + c == a + (['.'] + (b + (['.'] + c)));
  }

  lemma FormatCpfShortShape(d: string)
    requires 2 < |d| <= 5
    ensures FormatCpf(d) == d[..3] + (['.'] + d[3..])
  {
    var a, b := Slice(d, 0, 3), SliceFrom(d, 3);
    assert a == d[..3] && b == d[3..];
    assert a + "." + b == a + (['.'] + b);
  }

  lemma DigitsOfFormatCpf(d: string)
    requires AllDigits(d) && |d| <= 11
    ensures Digits(FormatCpf(d)) == d
  {
    if |d| > 8 {
      var a, b, c, e := d[..3], d[3..6], d[6..9], d[9..];
      FormatCpfLongShape(d);
      DigitsOfFourGroups(a, '.', b, '.', c, '-', e);
      JoinFour(d, 3, 6, 9);
    } else if |d| > 5 {
      var a, b, c := d[..3], d[3..6], d[6..];
      FormatCpfMiddleShape(d);
      DigitsOfThreeGroups(a, '.', b, '.', c);
      JoinThree(d, 3, 6);
    } else if |d| > 2 {
      var a, b := d[..3], d[3..];
      FormatCpfShortShape(d);
      DigitsOfTwoGroups(a, '.', b);
      assert d == a + b;
    } else {
      DigitsOfDigitString(d);
    }
  }

  lemma CpfMaskKeepsDigits(value: string)
    ensures Digits(CpfMask(value)) == Take(Digits(value), 11)
  {
    DigitsOfFormatCpf(Take(Digits(value), 11));
  }

  lemma CpfMaskIdempotent(value: string)
    ensures CpfMask(CpfMask(value)) == CpfMask(value)
  {
    CpfMaskKeepsDigits(value);
  }

  /** With eleven digits this mask, too, produces `ddd.ddd.ddd-dd`. */
  lemma CpfMaskFormatsElevenDigits(value: string)
    requires |Digits(value)| >= 11
    ensures FormValidator.IsCpfFormat(CpfMask(value))
  {
    var d := Take(Digits(value), 11);
    var s := CpfMask(value);
    assert s == d[..3] + "." + d[3..6] + "." + d[6..9] + "-" + d[9..];
    assert s[..3] == d[..3];
    assert s[4..7] == d[3..6];
    assert s[8..11] == d[6..9];
    assert s[12..] == d[9..];
  }

  /** Nine digits leave a trailing hyphen here too: `slice(9)` is empty. */
  lemma CpfMaskTrailingHyphen(d: string)
    requires |d| == 9
    ensures FormatCpf(d) == d[..3] + "." + d[3..6] + "." + d[6..] + "-"
  {
    assert SliceFrom(d, 9) == [];
  }

  /** The two CPF masks differ only while fewer than nine digits have been typed. */
  lemma CpfMasksAgreeFromNineDigits(value: string)
    requires |Digits(value)| >= 9
    ensures CpfMask(value) == FormValidator.CpfMask(value)
  {
  }

  lemma DigitsOfFormatPhone(d: string)
    requires AllDigits(d) && |d| <= 11
    ensures Digits(FormatPhone(d)) == d
  {
    if |d| > 2 {
      FormValidator.DigitsOfFormatPhone(d);
      assert FormatPhone(d) == FormValidator.FormatPhone(d);
    } else {
      DigitsOfDigitString(d);
    }
  }

  lemma PhoneMaskKeepsDigits(value: string)
    ensures Digits(PhoneMask(value)) == Take(Digits(value), 11)
  {
    DigitsOfFormatPhone(Take(Digits(value), 11));
  }

  lemma PhoneMaskIdempotent(value: string)
    ensures PhoneMask(PhoneMask(value)) == PhoneMask(value)
  {
    PhoneMaskKeepsDigits(value);
  }

  /** Up to two digits stay bare; more than seven get the `(dd) ddddd-` prefix. */
  lemma PhoneMaskShape(value: string)
    ensures |Digits(value)| <= 2 ==> PhoneMask(value) == Digits(value)
    ensures |Digits(value)| > 7 ==>
              var d := Take(Digits(value), 11);
              PhoneMask(value) == "(" + d[..2] + ") " + d[2..7] + "-" + d[7..]
  {
  }

  // ---------------------------------------------------------------------
  // The submit handler
  // ---------------------------------------------------------------------

  datatype SubmitOutcome = UnderAge | InvalidCpf | Accepted

  /**
   * The age gate of the handler: `idade < 18` rejects. An unparsed date
   * (`None`) gives NaN, and `NaN < 18` is false, so it is not rejected here.
   */
  predicate TooYoung(birth: Option<Date>, today: Date) {
    birth.Some? && CompletedYears(birth.value, today) < 18
  }

  /** The handler's age gate and `validateAge` agree on every parsed date and differ on an unparsed one. */
  lemma AgeGateMatchesValidateAge(birth: Option<Date>, today: Date)
    ensures birth.Some? ==> (TooYoung(birth, today) <==> !FormValidator.ValidateAge(birth, today))
    ensures birth.None? ==> !TooYoung(birth, today) && !FormValidator.ValidateAge(birth, today)
  {
  }

  /**
   * The `submit` listener, with the birth date already parsed, today's date
   * passed in and the CPF field's raw value. `Accepted` is the branch that
   * resets the form.
   */
  method Submit(birth: Option<Date>, today: Date, cpfField: string) returns (outcome: SubmitOutcome)
    ensures TooYoung(birth, today) ==> outcome == UnderAge
    ensures outcome == UnderAge ==> TooYoung(birth, today)
    ensures outcome == Accepted <==> !TooYoung(birth, today) && FormValidator.CpfChecks(Digits(cpfField))
  {
    if TooYoung(birth, today) {
      return UnderAge;
    }
    var cpf := Digits(cpfField);
    var ok := ValidarCPF(cpf);
    if !ok {
      return InvalidCpf;
    }
    return Accepted;
  }
}
