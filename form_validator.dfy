/**
 * The `FormValidator` module of the registration form: the CPF check-digit
 * test, the age rule, the input masks, the per-field rule table with its
 * evaluator, and the form-level decision that gates persistence.
 */
module FormValidator {
  import opened Wrappers
  import opened Text
  import opened Calendar

  // ---------------------------------------------------------------------
  // CPF check digits
  // ---------------------------------------------------------------------

  /** The weighted digit sum `d[0]*top + d[1]*(top-1) + ...` over the first `n` characters. */
  function WeightedSum(d: string, n: nat, top: int): (sum: int)
    requires n <= |d|
    requires forall i :: 0 <= i < n ==> IsDigit(d[i])
    ensures top >= n ==> sum >= 0
  {
    if n == 0 then 0
    else
      var digit, weight := DigitValue(d[n - 1]), top - (n - 1);
      NonNegativeProduct(digit, weight);
      WeightedSum(d, n - 1, top) + digit * weight
  }

  lemma NonNegativeProduct(a: nat, b: int)
    ensures b >= 0 ==> a * b >= 0
  {
  }

  /**
   * The mod-11 check digit of a weighted sum: 0 when the remainder is 0 or 1,
   * otherwise the digit that brings the sum up to a multiple of 11.
   */
  function CheckDigit(sum: nat): (digit: nat)
    ensures digit <= 9
    ensures sum % 11 < 2 ==> digit == 0
    ensures sum % 11 >= 2 ==> 1 <= digit && (sum + digit) % 11 == 0
  {
    var remainder := sum % 11;
    if remainder < 2 then 0 else 11 - remainder
  }

  /**
   * What a CPF must satisfy once stripped to its digits: eleven digits, not
   * all the same, the tenth the check digit of the first nine under weights
   * 10..2 and the eleventh that of the first ten under weights 11..2.
   */
  predicate CpfChecks(d: string) {
    && |d| == 11 && AllDigits(d) && !RepeatsOneDigit(d)
    && DigitValue(d[9]) == CheckDigit(WeightedSum(d, 9, 10))
    && DigitValue(d[10]) == CheckDigit(WeightedSum(d, 10, 11))
  }

  /** `validateCPF(value)`: strips formatting, then runs the two check-digit loops. */
  method ValidateCPF(value: string) returns (ok: bool)
    ensures ok == CpfChecks(Digits(value))
    ensures |Digits(value)| != 11 ==> !ok
    ensures RepeatsOneDigit(Digits(value)) ==> !ok
  {
    var cpf := Digits(value);
    if |cpf| != 11 {
      return false;
    }
    if RepeatsOneDigit(cpf) {
      return false;
    }
    var sum := 0;
    for i := 0 to 9
      invariant sum == WeightedSum(cpf, i, 10)
    {
      sum := sum + DigitValue(cpf[i]) * (10 - i);
    }
    var remainder := sum % 11;
    var digit1 := if remainder < 2 then 0 else 11 - remainder;
    sum := 0;
    for i := 0 to 10
      invariant sum == WeightedSum(cpf, i, 11)
    {
      sum := sum + DigitValue(cpf[i]) * (11 - i);
    }
    remainder := sum % 11;
    var digit2 := if remainder < 2 then 0 else 11 - remainder;
    return DigitValue(cpf[9]) == digit1 && DigitValue(cpf[10]) == digit2;
  }

  /** A CPF with correct check digits is accepted. */
  lemma KnownCpfAccepted()
    ensures CpfChecks("52998224725")
  {
    var d := "52998224725";
    assert !RepeatsOneDigit(d) by { assert d[1] != d[0]; }
    assert AllDigits(d);
    // The running sums of the two weighted loops, digit by digit.
    assert WeightedSum(d, 1, 10) == 50 && WeightedSum(d, 2, 10) == 68;
    assert WeightedSum(d, 3, 10) == 140 && WeightedSum(d, 4, 10) == 203;
    assert WeightedSum(d, 5, 10) == 251 && WeightedSum(d, 6, 10) == 261;
    assert WeightedSum(d, 7, 10) == 269 && WeightedSum(d, 8, 10) == 281;
    assert WeightedSum(d, 9, 10) == 295;
    assert WeightedSum(d, 1, 11) == 55 && WeightedSum(d, 2, 11) == 75;
    assert WeightedSum(d, 3, 11) == 156 && WeightedSum(d, 4, 11) == 228;
    assert WeightedSum(d, 5, 11) == 284 && WeightedSum(d, 6, 11) == 296;
    assert WeightedSum(d, 7, 11) == 306 && WeightedSum(d, 8, 11) == 322;
    assert WeightedSum(d, 9, 11) == 343 && WeightedSum(d, 10, 11) == 347;
  }

  /** Flipping either check digit of that CPF, or repeating one digit, is rejected. */
  lemma WrongCheckDigitsRejected()
    ensures !CpfChecks("52998224726")
    ensures !CpfChecks("52998224735")
    ensures !CpfChecks("11111111111")
  {
    KnownCpfAccepted();
    assert "52998224725"[10 := '6'] == "52998224726";
    ChangedCheckDigitInvalid("52998224725", 10, '6');
    assert "52998224725"[9 := '3'] == "52998224735";
    ChangedCheckDigitInvalid("52998224725", 9, '3');
    assert RepeatsOneDigit("11111111111");
  }

  /** Adding a punctuation character anywhere in the input never changes the verdict. */
  lemma CpfIgnoresPunctuation(a: string, c: char, b: string)
    requires !IsDigit(c)
    ensures CpfChecks(Digits(a + [c] + b)) == CpfChecks(Digits(a + b))
  {
    DigitsIgnoresNonDigit(a, c, b);
  }

  /** The weighted sum over a prefix depends only on that prefix. */
  lemma {:induction false} WeightedSumOfPrefix(d: string, e: string, n: nat, top: int)
    requires n <= |d| && n <= |e|
    requires forall i :: 0 <= i < n ==> IsDigit(d[i]) && d[i] == e[i]
    ensures WeightedSum(d, n, top) == WeightedSum(e, n, top)
  {
    if n > 0 {
      WeightedSumOfPrefix(d, e, n - 1, top);
    }
  }

  /** Replacing either check digit of a valid CPF by a different digit makes it invalid. */
  lemma ChangedCheckDigitInvalid(d: string, k: nat, c: char)
    requires CpfChecks(d)
    requires k == 9 || k == 10
    requires IsDigit(c) && c != d[k]
    ensures !CpfChecks(d[k := c])
  {
    var e := d[k := c];
    if AllDigits(e) {
      if k == 9 {
        WeightedSumOfPrefix(d, e, 9, 10);
      } else {
        WeightedSumOfPrefix(d, e, 10, 11);
      }
    }
  }

  // ---------------------------------------------------------------------
  // Age
  // ---------------------------------------------------------------------

  /**
   * `validateAge(value)`, with `new Date(value)` already applied (`None` is an
   * Invalid Date, whose age is NaN) and today's date passed in.
   */
  function ValidateAge(birth: Option<Date>, today: Date): (ok: bool)
    ensures ok <==> birth.Some? && OnOrBefore(birth.value, Date(today.year - 18, today.month, today.day))
  {
    match birth
    case None => false
    case Some(b) => CompletedYears(b, today) >= 18
  }

  lemma AdultOnEighteenthBirthday(today: Date)
    ensures ValidateAge(Some(Date(today.year - 18, today.month, today.day)), today)
  {
  }

  /**
   * On date triples: a birth date eighteen years back but one day later than
   * today's day is still under eighteen (the triple need not be a real
   * calendar date, as on a month's last day).
   */
  lemma MinorOnTheDayBefore(today: Date)
    ensures !ValidateAge(Some(Date(today.year - 18, today.month, today.day + 1)), today)
  {
  }

  // ---------------------------------------------------------------------
  // Formats of the rule table's digit patterns
  // ---------------------------------------------------------------------

  /** `/^\d{3}\.\d{3}\.\d{3}-\d{2}$/` */
  predicate IsCpfFormat(s: string) {
    && |s| == 14
    && AllDigits(s[..3]) && s[3] == '.' && AllDigits(s[4..7]) && s[7] == '.'
    && AllDigits(s[8..11]) && s[11] == '-' && AllDigits(s[12..])
  }

  /** `/^\(\d{2}\)\s\d{4,5}-\d{4}$/` */
  predicate IsPhoneFormat(s: string) {
    && (|s| == 14 || |s| == 15)
    && s[0] == '(' && AllDigits(s[1..3]) && s[3] == ')' && IsJsWhitespace(s[4])
    && AllDigits(s[5..|s| - 5]) && s[|s| - 5] == '-' && AllDigits(s[|s| - 4..])
  }

  /** `/^\d{5}-\d{3}$/` */
  predicate IsCepFormat(s: string) {
    |s| == 9 && AllDigits(s[..5]) && s[5] == '-' && AllDigits(s[6..])
  }

  // ---------------------------------------------------------------------
  // Input masks (the `input` listeners installed by applyMasks)
  // ---------------------------------------------------------------------

  /** The CPF listener's rewrite of at most eleven digits. */
  function FormatCpf(d: string): string {
    if |d| > 6 then
      Slice(d, 0, 3) + "." + Slice(d, 3, 6) + "." + Slice(d, 6, 9) + "-" + SliceFrom(d, 9)
    else if |d| > 3 then
      Slice(d, 0, 3) + "." + Slice(d, 3, 6) + (if |d| > 6 then "." + SliceFrom(d, 6) else "")
    else if |d| > 0 then
      Slice(d, 0, 3)
    else
      d
  }

  function CpfMask(value: string): string {
    FormatCpf(Take(Digits(value), 11))
  }

  /** Seven to nine digits leave a trailing hyphen: the first branch always writes it. */
  lemma CpfMaskTrailingHyphen(d: string)
    requires 6 < |d| <= 9
    ensures FormatCpf(d) == d[..3] + "." + d[3..6] + "." + d[6..] + "-"
  {
    assert Slice(d, 6, 9) == d[6..];
    assert SliceFrom(d, 9) == [];
  }

  /** The middle branch's inner `length > 6` test cannot hold: four to six digits get one dot. */
  lemma CpfMaskDeadInnerTest(d: string)
    requires 3 < |d| <= 6
    ensures FormatCpf(d) == d[..3] + "." + d[3..]
  {
    assert Slice(d, 3, 6) == d[3..];
  }

  /** The phone listener's rewrite of at most eleven digits. */
  function FormatPhone(d: string): string {
    if |d| > 7 then
      "(" + Slice(d, 0, 2) + ") " + Slice(d, 2, 7) + "-" + SliceFrom(d, 7)
    else if |d| > 2 then
      "(" + Slice(d, 0, 2) + ") " + SliceFrom(d, 2)
    else if |d| > 0 then
      "(" + d
    else
      d
  }

  function PhoneMask(value: string): string {
    FormatPhone(Take(Digits(value), 11))
  }

  /** The CEP listener's rewrite of at most eight digits. */
  function FormatCep(d: string): string {
    if |d| > 5 then Slice(d, 0, 5) + "-" + SliceFrom(d, 5) else d
  }

  function CepMask(value: string): string {
    FormatCep(Take(Digits(value), 8))
  }

  // Mask properties: each keeps the input's digits (truncated), so each is
  // idempotent, and a full set of digits lands exactly on the rule's format.

  /** Right-nested views of the mask rewrites, one per branch. */
  lemma FormatCpfLongShape(d: string)
    requires 6 < |d| <= 11
    ensures var mid := if |d| <= 9 then |d| else 9;
      FormatCpf(d) == d[..3] + (['.'] + (d[3..6] + (['.'] + (d[6..mid] + (['-'] + d[mid..])))))
  {
    var mid := if |d| <= 9 then |d| else 9;
    var a, b, c, e := Slice(d, 0, 3), Slice(d, 3, 6), Slice(d, 6, 9), SliceFrom(d, 9);
    assert a == d[..3] && b == d[3..6] && c == d[6..mid] && e == d[mid..];
    assert a + "." + b + "." + c + "-" + e == a + (['.'] + (b + (['.'] + (c + (['-'] + e)))));
  }

  lemma FormatPhoneLongShape(d: string)
    requires 7 < |d|
    ensures FormatPhone(d) == ['('] + (d[..2] + ([')'] + ([' '] + (d[2..7] + (['-'] + d[7..])))))
  {
    var a, b, c := Slice(d, 0, 2), Slice(d, 2, 7), SliceFrom(d, 7);
    assert a == d[..2] && b == d[2..7] && c == d[7..];
    assert "(" + a + ") " + b + "-" + c == ['('] + (a + ([')'] + ([' '] + (b + (['-'] + c)))));
  }

  lemma DigitsOfFormatCpf(d: string)
    requires AllDigits(d) && |d| <= 11
    ensures Digits(FormatCpf(d)) == d
  {
    if |d| > 6 {
      var mid := if |d| <= 9 then |d| else 9;
      var a, b, c, e := d[..3], d[3..6], d[6..mid], d[mid..];
      FormatCpfLongShape(d);
      DigitsOfFourGroups(a, '.', b, '.', c, '-', e);
      JoinFour(d, 3, 6, if |d| <= 9 then |d| else 9);
    } else if |d| > 3 {
      var a, b := d[..3], d[3..];
      assert FormatCpf(d) == a + (['.'] + b);
      DigitsOfTwoGroups(a, '.', b);
      assert d == a + b;
    } else {
      assert FormatCpf(d) == d;
      DigitsOfDigitString(d);
    }
  }

  lemma CpfMaskKeepsDigits(value: string)
    ensures Digits(CpfMask(value)) == Take(Digits(value), 11)
  {
    DigitsOfFormatCpf(Take(Digits(value), 11));
  }

  lemma CpfMaskIdempotent(value: string)
    ensures CpfMask(CpfMask(value)) == CpfMask(value)
  {
    CpfMaskKeepsDigits(value);
  }

  lemma CpfMaskFormatsElevenDigits(value: string)
    requires |Digits(value)| >= 11
    ensures IsCpfFormat(CpfMask(value))
  {
    var d := Take(Digits(value), 11);
    var s := CpfMask(value);
    assert s == d[..3] + "." + d[3..6] + "." + d[6..9] + "-" + d[9..];
    assert s[..3] == d[..3];
    assert s[4..7] == d[3..6];
    assert s[8..11] == d[6..9];
    assert s[12..] == d[9..];
  }

  /** The phone rewrite's shape: `(`, two digits, `) `, a run, then optionally `-` and a run. */
  lemma DigitsOfPhoneShape(a: string, b: string, rest: string)
    requires AllDigits(a) && AllDigits(b)
    ensures Digits(['('] + (a + ([')'] + ([' '] + (b + rest))))) == a + (b + Digits(rest))
  {
    DigitsOfRun(b, rest);
    DigitsOfSeparator(' ', b + rest);
    DigitsOfSeparator(')', [' '] + (b + rest));
    DigitsOfRun(a, [')'] + ([' '] + (b + rest)));
    DigitsOfSeparator('(', a + ([')'] + ([' '] + (b + rest))));
  }

  lemma DigitsOfFormatPhone(d: string)
    requires AllDigits(d) && |d| <= 11
    ensures Digits(FormatPhone(d)) == d
  {
    if |d| > 7 {
      var a, b, c := d[..2], d[2..7], d[7..];
      FormatPhoneLongShape(d);
      DigitsOfDigitString(c);
      DigitsOfSeparator('-', c);
      DigitsOfPhoneShape(a, b, ['-'] + c);
      JoinThree(d, 2, 7);
    } else if |d| > 2 {
      var a, b := d[..2], d[2..];
      assert FormatPhone(d) == ['('] + (a + ([')'] + ([' '] + (b + []))));
      DigitsOfPhoneShape(a, b, []);
      assert d == a + b;
    } else if |d| > 0 {
      assert FormatPhone(d) == ['('] + d;
      DigitsOfDigitString(d);
      DigitsOfSeparator('(', d);
    }
  }

  lemma PhoneMaskKeepsDigits(value: string)
    ensures Digits(PhoneMask(value)) == Take(Digits(value), 11)
  {
    DigitsOfFormatPhone(Take(Digits(value), 11));
  }

  lemma PhoneMaskIdempotent(value: string)
    ensures PhoneMask(PhoneMask(value)) == PhoneMask(value)
  {
    PhoneMaskKeepsDigits(value);
  }

  lemma PhoneMaskFormatsElevenDigits(value: string)
    requires |Digits(value)| >= 11
    ensures IsPhoneFormat(PhoneMask(value))
  {
    var d := Take(Digits(value), 11);
    var s := PhoneMask(value);
    assert s == "(" + d[..2] + ") " + d[2..7] + "-" + d[7..];
    assert s[1..3] == d[..2];
    assert s[5..10] == d[2..7];
    assert s[11..] == d[7..];
  }

  lemma DigitsOfFormatCep(d: string)
    requires AllDigits(d) && |d| <= 8
    ensures Digits(FormatCep(d)) == d
  {
    if |d| > 5 {
      var a, b := d[..5], d[5..];
      assert FormatCep(d) == a + (['-'] + b);
      DigitsOfTwoGroups(a, '-', b);
      assert d == a + b;
    } else {
      DigitsOfDigitString(d);
    }
  }

  lemma CepMaskKeepsDigits(value: string)
    ensures Digits(CepMask(value)) == Take(Digits(value), 8)
  {
    DigitsOfFormatCep(Take(Digits(value), 8));
  }

  lemma CepMaskIdempotent(value: string)
    ensures CepMask(CepMask(value)) == CepMask(value)
  {
    CepMaskKeepsDigits(value);
  }

  lemma CepMaskFormatsEightDigits(value: string)
    requires |Digits(value)| >= 8
    ensures IsCepFormat(CepMask(value))
  {
    var d := Take(Digits(value), 8);
    var s := CepMask(value);
    assert s == d[..5] + "-" + d[5..];
  }

  /** A value already in the CPF format is left as it is by the mask. */
  lemma CpfMaskKeepsFormatted(s: string)
    requires IsCpfFormat(s)
    ensures CpfMask(s) == s
  {
    var a, b, c, e := s[..3], s[4..7], s[8..11], s[12..];
    assert s == a + (['.'] + (b + (['.'] + (c + (['-'] + e)))));
    DigitsOfFourGroups(a, '.', b, '.', c, '-', e);
    var d := a + (b + (c + e));
    assert Take(d, 11) == d;
    assert d[..3] == a && d[3..6] == b && d[6..9] == c && d[9..] == e;
    FormatCpfLongShape(d);
  }

  /** A value in the eleven-digit phone format is left as it is by the mask. */
  lemma PhoneFormatParts(s: string)
    requires IsPhoneFormat(s) && |s| == 15 && s[4] == ' '
    ensures s == ['('] + (s[1..3] + ([')'] + ([' '] + (s[5..10] + (['-'] + s[11..])))))
  {
  }

  lemma PhoneMaskKeepsFormatted(s: string)
    requires IsPhoneFormat(s) && |s| == 15 && s[4] == ' '
    ensures PhoneMask(s) == s
  {
    var a, b, c := s[1..3], s[5..10], s[11..];
    assert AllDigits(a) && AllDigits(b) && AllDigits(c);
    PhoneFormatParts(s);
    DigitsOfDigitString(c);
    DigitsOfSeparator('-', c);
    DigitsOfPhoneShape(a, b, ['-'] + c);
    var d := a + (b + c);
    assert Digits(s) == d;
    assert Take(d, 11) == d;
    assert PhoneMask(s) == FormatPhone(d);
    PartsOfThree(a, b, c);
    FormatPhoneLongShape(d);
  }

  /**
   * A ten-digit (landline) number never reaches the pattern's four-digit
   * alternative: the mask always puts five digits before the hyphen.
   */
  lemma PhoneMaskMissesTenDigitFormat(value: string)
    requires |Digits(value)| == 10
    ensures !IsPhoneFormat(PhoneMask(value))
  {
    var d := Digits(value);
    var s := PhoneMask(value);
    assert s == "(" + d[..2] + ") " + d[2..7] + "-" + d[7..];
    assert |s| == 14 && s[9] == d[6];
  }

  /** A value already in the CEP format is left as it is by the mask. */
  lemma CepMaskKeepsFormatted(s: string)
    requires IsCepFormat(s)
    ensures CepMask(s) == s
  {
    var a, b := s[..5], s[6..];
    assert s == a + (['-'] + b);
    DigitsOfTwoGroups(a, '-', b);
    var d := a + b;
    assert Take(d, 8) == d;
    assert d[..5] == a && d[5..] == b;
  }

  // ---------------------------------------------------------------------
  // The rule table
  // ---------------------------------------------------------------------

  /** The regular expressions of the table; name and e-mail are left to the environment. */
  datatype PatternKind = NameLetters | EmailAddress | CpfPattern | PhonePattern | CepPattern

  /** The `custom` functions of the table. */
  datatype CustomKind = CpfCheckDigits | AdultBirthDate

  datatype Limit = Limit(bound: nat, message: string)

  datatype Check<K> = Check(kind: K, message: string)

  /** One entry of `rules`; an absent constraint is `None`, and each present one carries its message. */
  datatype Rule = Rule(
    required: bool,
    requiredMessage: string,
    minLength: Option<Limit>,
    maxLength: Option<Limit>,
    pattern: Option<Check<PatternKind>>,
    custom: Option<Check<CustomKind>>)

  /**
   * What the evaluator takes from outside: the name pattern `/^[a-zA-ZÀ-ÿ\s]+$/`,
   * the e-mail pattern, `new Date(value)` and today's date.
   */
  datatype Env = Env(
    nameMatches: string -> bool,
    emailMatches: string -> bool,
    parseDate: string -> Option<Date>,
    today: Date)

  /** `{ valid: true }` or `{ valid: false, message }`. */
  datatype FieldResult = Valid | Invalid(message: string)

  const NomeRule := Rule(true, "Nome é obrigatório",
    Some(Limit(3, "Nome deve ter no mínimo 3 caracteres")),
    Some(Limit(100, "Nome deve ter no máximo 100 caracteres")),
    Some(Check(NameLetters, "Nome deve conter apenas letras")),
    None)
  const EmailRule := Rule(true, "E-mail é obrigatório", None, None,
    Some(Check(EmailAddress, "E-mail inválido")),
    None)
  const CpfRule := Rule(true, "CPF é obrigatório", None, None,
    Some(Check(CpfPattern, "CPF deve estar no formato 000.000.000-00")),
    Some(Check(CpfCheckDigits, "CPF inválido")))
  const TelefoneRule := Rule(true, "Telefone é obrigatório", None, None,
    Some(Check(PhonePattern, "Telefone deve estar no formato (11) 99999-9999")),
    None)
  const DataNascimentoRule := Rule(true, "Data de nascimento é obrigatória", None, None,
    None,
    Some(Check(AdultBirthDate, "Você deve ter no mínimo 18 anos")))
  const EnderecoRule := Rule(true, "Endereço é obrigatório",
    Some(Limit(5, "Endereço deve ter no mínimo 5 caracteres")),
    None, None, None)
  const CepRule := Rule(true, "CEP é obrigatório", None, None,
    Some(Check(CepPattern, "CEP deve estar no formato 00000-000")),
    None)
  const CidadeRule := Rule(true, "Cidade é obrigatória",
    Some(Limit(2, "Cidade deve ter no mínimo 2 caracteres")),
    None, None, None)
  const EstadoRule := Rule(true, "Estado é obrigatório", None, None, None, None)

  /** The `rules` table, keyed by field name. */
  const Rules: map<string, Rule> := map[
    "nome" := NomeRule,
    "email" := EmailRule,
    "cpf" := CpfRule,
    "telefone" := TelefoneRule,
    "dataNascimento" := DataNascimentoRule,
    "endereco" := EnderecoRule,
    "cep" := CepRule,
    "cidade" := CidadeRule,
    "estado" := EstadoRule
  ]

  /** Which fields the table constrains, all of them required, and which length bounds they carry. */
  lemma RuleTableFields()
    ensures Rules.Keys == {"nome", "email", "cpf", "telefone", "dataNascimento", "endereco", "cep", "cidade", "estado"}
    ensures forall k :: k in Rules ==> Rules[k].required
    ensures forall k :: k in Rules && Rules[k].minLength.Some? ==> k in {"nome", "endereco", "cidade"}
    ensures Rules["nome"].minLength.value.bound == 3 && Rules["nome"].maxLength.value.bound == 100
    ensures Rules["endereco"].minLength.value.bound == 5 && Rules["cidade"].minLength.value.bound == 2
    ensures forall k :: k in Rules && Rules[k].maxLength.Some? ==> k == "nome"
  {
  }

  /** Which fields carry a pattern and which a custom check, and of which kind. */
  lemma RuleTableChecks()
    ensures forall k :: k in Rules && Rules[k].custom.Some? ==> k in {"cpf", "dataNascimento"}
    ensures Rules["cpf"].custom.value.kind == CpfCheckDigits
    ensures Rules["dataNascimento"].custom.value.kind == AdultBirthDate
    ensures forall k :: k in Rules && Rules[k].pattern.Some? ==> k in {"nome", "email", "cpf", "telefone", "cep"}
    ensures Rules["cpf"].pattern.value.kind == CpfPattern && Rules["telefone"].pattern.value.kind == PhonePattern
    ensures Rules["cep"].pattern.value.kind == CepPattern && Rules["nome"].pattern.value.kind == NameLetters
    ensures Rules["email"].pattern.value.kind == EmailAddress
  {
  }

  // ---------------------------------------------------------------------
  // The field evaluator
  // ---------------------------------------------------------------------

  /** `rule.minLength && value.length < rule.minLength` (a zero bound is falsy). */
  predicate MinLengthFails(rule: Rule, value: string) {
    rule.minLength.Some? && rule.minLength.value.bound != 0
    && Utf16Length(value) < rule.minLength.value.bound
  }

  /** `rule.maxLength && value.length > rule.maxLength` (a zero bound is falsy). */
  predicate MaxLengthFails(rule: Rule, value: string) {
    rule.maxLength.Some? && rule.maxLength.value.bound != 0
    && Utf16Length(value) > rule.maxLength.value.bound
  }

  predicate Matches(env: Env, kind: PatternKind, value: string) {
    match kind
    case NameLetters => env.nameMatches(value)
    case EmailAddress => env.emailMatches(value)
    case CpfPattern => IsCpfFormat(value)
    case PhonePattern => IsPhoneFormat(value)
    case CepPattern => IsCepFormat(value)
  }

  predicate PatternFails(env: Env, rule: Rule, value: string) {
    rule.pattern.Some? && !Matches(env, rule.pattern.value.kind, value)
  }

  /** The custom functions, with `validateCPF` given by the predicate its method is proved to compute. */
  predicate Accepts(env: Env, kind: CustomKind, value: string) {
    match kind
    case CpfCheckDigits => CpfChecks(Digits(value))
    case AdultBirthDate => ValidateAge(env.parseDate(value), env.today)
  }

  predicate CustomFails(env: Env, rule: Rule, value: string) {
    rule.custom.Some? && !Accepts(env, rule.custom.value.kind, value)
  }

  /** The messages of every non-blank check that fails, in the order the source tests them. */
  function FailedChecks(env: Env, rule: Rule, value: string): seq<string> {
    (if MinLengthFails(rule, value) then [rule.minLength.value.message] else [])
    + (if MaxLengthFails(rule, value) then [rule.maxLength.value.message] else [])
    + (if PatternFails(env, rule, value) then [rule.pattern.value.message] else [])
    + (if CustomFails(env, rule, value) then [rule.custom.value.message] else [])
  }

  /**
   * The body of `validateField` once the rule is found: the blank tests on
   * the trimmed value, then minLength, maxLength, pattern and custom on the
   * untrimmed value, returning at the first that fails.
   */
  function EvaluateRule(env: Env, rule: Rule, value: string): (r: FieldResult)
    ensures IsBlank(value) ==> r == if rule.required then Invalid(rule.requiredMessage) else Valid
    ensures !IsBlank(value) ==> (r == Valid <==> FailedChecks(env, rule, value) == [])
    ensures !IsBlank(value) && r.Invalid? ==> r.message == FailedChecks(env, rule, value)[0]
  {
    TrimEmptyIffBlank(value);
    if rule.required && Trim(value) == [] then Invalid(rule.requiredMessage)
    else if !rule.required && Trim(value) == [] then Valid
    else if MinLengthFails(rule, value) then Invalid(rule.minLength.value.message)
    else if MaxLengthFails(rule, value) then Invalid(rule.maxLength.value.message)
    else if PatternFails(env, rule, value) then Invalid(rule.pattern.value.message)
    else if CustomFails(env, rule, value) then Invalid(rule.custom.value.message)
    else Valid
  }

  /**
   * `validateField(fieldName, value)`. A name with no entry in the table
   * passes. (Names such as "toString" find an inherited property of the
   * object; that property has no constraints, so they pass as well.)
   */
  function ValidateField(env: Env, fieldName: string, value: string): (r: FieldResult)
    ensures fieldName !in Rules ==> r == Valid
    ensures fieldName in Rules && IsBlank(value) ==> r == Invalid(Rules[fieldName].requiredMessage)
    ensures fieldName in Rules && !IsBlank(value) ==>
              (r == Valid <==> FailedChecks(env, Rules[fieldName], value) == [])
    ensures r.Invalid? && !IsBlank(value) ==> r.message == FailedChecks(env, Rules[fieldName], value)[0]
  {
    if fieldName in Rules then EvaluateRule(env, Rules[fieldName], value) else Valid
  }

  /** Emptiness is judged on the trimmed value, the length limits on the untrimmed one. */
  lemma LengthCountsUntrimmedValue(env: Env)
    ensures ValidateField(env, "cidade", " a") == Valid
    ensures ValidateField(env, "cidade", "a") == Invalid("Cidade deve ter no mínimo 2 caracteres")
    ensures ValidateField(env, "cidade", "  ") == Invalid("Cidade é obrigatória")
  {
    assert !IsBlank(" a") by { assert !IsJsWhitespace(" a"[1]); }
    assert !IsBlank("a") by { assert !IsJsWhitespace("a"[0]); }
    assert Utf16Length(" a") == 2 && Utf16Length("a") == 1;
  }

  /** A rule with only a pattern reports at most the pattern's message. */
  lemma FailedChecksOfPatternRule(env: Env, rule: Rule, value: string)
    requires rule.minLength.None? && rule.maxLength.None? && rule.custom.None? && rule.pattern.Some?
    ensures FailedChecks(env, rule, value) ==
              if Matches(env, rule.pattern.value.kind, value) then [] else [rule.pattern.value.message]
  {
    var m := if PatternFails(env, rule, value) then [rule.pattern.value.message] else [];
    assert FailedChecks(env, rule, value) == [] + [] + m + [];
  }

  /** The table's entries for the masked fields. */
  lemma MaskedFieldRules()
    ensures "cpf" in Rules && Rules["cpf"] == CpfRule
    ensures "telefone" in Rules && Rules["telefone"] == TelefoneRule
    ensures "cep" in Rules && Rules["cep"] == CepRule
  {
  }

  /** A CPF in the format is judged by its check digits alone. */
  lemma FormattedCpfJudgedByCheckDigits(env: Env, s: string)
    requires IsCpfFormat(s)
    ensures ValidateField(env, "cpf", s) == if CpfChecks(Digits(s)) then Valid else Invalid("CPF inválido")
  {
    assert !IsBlank(s) by { assert !IsJsWhitespace(s[0]); }
    MaskedFieldRules();
    assert Matches(env, CpfRule.pattern.value.kind, s);
    var m := if CpfChecks(Digits(s)) then [] else ["CPF inválido"];
    assert FailedChecks(env, Rules["cpf"], s) == [] + [] + [] + m;
  }

  /** A phone number in the format passes the phone rule. */
  lemma FormattedPhonePassesRule(env: Env, s: string)
    requires IsPhoneFormat(s)
    ensures ValidateField(env, "telefone", s) == Valid
  {
    assert !IsBlank(s) by { assert !IsJsWhitespace(s[0]); }
    MaskedFieldRules();
    FailedChecksOfPatternRule(env, TelefoneRule, s);
    assert Matches(env, TelefoneRule.pattern.value.kind, s);
    assert FailedChecks(env, Rules["telefone"], s) == [];
  }

  /** A non-blank phone value out of the format fails with the format message. */
  lemma UnformattedPhoneFailsRule(env: Env, s: string)
    requires |s| > 0 && s[0] == '(' && !IsPhoneFormat(s)
    ensures ValidateField(env, "telefone", s) == Invalid("Telefone deve estar no formato (11) 99999-9999")
  {
    assert !IsBlank(s) by { assert !IsJsWhitespace(s[0]); }
    MaskedFieldRules();
    FailedChecksOfPatternRule(env, TelefoneRule, s);
    assert !Matches(env, TelefoneRule.pattern.value.kind, s);
    assert FailedChecks(env, Rules["telefone"], s) == ["Telefone deve estar no formato (11) 99999-9999"];
  }

  /** A CEP in the format passes the CEP rule. */
  lemma FormattedCepPassesRule(env: Env, s: string)
    requires IsCepFormat(s)
    ensures ValidateField(env, "cep", s) == Valid
  {
    assert IsDigit(s[..5][0]) && s[..5][0] == s[0];
    assert !IsBlank(s) by { assert !IsJsWhitespace(s[0]); }
    MaskedFieldRules();
    FailedChecksOfPatternRule(env, CepRule, s);
    assert Matches(env, CepRule.pattern.value.kind, s);
    assert FailedChecks(env, Rules["cep"], s) == [];
  }

  /** Eleven masked CPF digits always meet the format, so only the check digits decide. */
  lemma MaskedCpfMeetsPattern(env: Env, value: string)
    requires |Digits(value)| >= 11
    ensures ValidateField(env, "cpf", CpfMask(value)) ==
              if CpfChecks(Take(Digits(value), 11)) then Valid else Invalid("CPF inválido")
  {
    CpfMaskFormatsElevenDigits(value);
    CpfMaskKeepsDigits(value);
    FormattedCpfJudgedByCheckDigits(env, CpfMask(value));
  }

  /** Eleven masked phone digits always pass the phone rule. */
  lemma MaskedPhonePassesRule(env: Env, value: string)
    requires |Digits(value)| >= 11
    ensures ValidateField(env, "telefone", PhoneMask(value)) == Valid
  {
    PhoneMaskFormatsElevenDigits(value);
    FormattedPhonePassesRule(env, PhoneMask(value));
  }

  /** Ten masked phone digits always fail the phone rule with its format message. */
  lemma MaskedTenDigitPhoneFailsRule(env: Env, value: string)
    requires |Digits(value)| == 10
    ensures ValidateField(env, "telefone", PhoneMask(value)) ==
              Invalid("Telefone deve estar no formato (11) 99999-9999")
  {
    var s := PhoneMask(value);
    PhoneMaskMissesTenDigitFormat(value);
    assert s[0] == '(';
    UnformattedPhoneFailsRule(env, s);
  }

  /** Eight masked CEP digits always pass the CEP rule. */
  lemma MaskedCepPassesRule(env: Env, value: string)
    requires |Digits(value)| >= 8
    ensures ValidateField(env, "cep", CepMask(value)) == Valid
  {
    CepMaskFormatsEightDigits(value);
    FormattedCepPassesRule(env, CepMask(value));
  }

  // ---------------------------------------------------------------------
  // The form-level decision
  // ---------------------------------------------------------------------

  /** A submitted entry passes when it has no rule or its rule accepts it. */
  predicate EntryPasses(env: Env, entry: (string, string)) {
    ValidateField(env, entry.0, entry.1) == Valid
  }

  /** The (field, message) pairs shown by `showFieldError`, in submission order. */
  function FieldErrors(env: Env, entries: seq<(string, string)>): (errors: seq<(string, string)>)
    ensures |errors| <= |entries|
    ensures errors == [] <==> forall j :: 0 <= j < |entries| ==> EntryPasses(env, entries[j])
  {
    if entries == [] then []
    else
      var last := entries[|entries| - 1];
      FieldErrors(env, entries[..|entries| - 1])
      + (match ValidateField(env, last.0, last.1)
         case Valid => []
         case Invalid(message) => [(last.0, message)])
  }

  /** One more entry appends its message, if any, to the errors of the entries before it. */
  lemma FieldErrorsOfNextEntry(env: Env, entries: seq<(string, string)>, i: nat)
    requires i < |entries|
    ensures FieldErrors(env, entries[..i + 1]) ==
              FieldErrors(env, entries[..i])
              + (if EntryPasses(env, entries[i]) then []
                 else [(entries[i].0, ValidateField(env, entries[i].0, entries[i].1).message)])
  {
    assert entries[..i + 1][..i] == entries[..i];
    assert entries[..i + 1][i] == entries[i];
  }

  /** `Object.fromEntries(formData)`: a later entry for the same name overwrites an earlier one. */
  function FromEntries(entries: seq<(string, string)>): (record: map<string, string>)
    ensures record.Keys == set j | 0 <= j < |entries| :: entries[j].0
  {
    if entries == [] then map[]
    else
      var last := entries[|entries| - 1];
      FromEntries(entries[..|entries| - 1])[last.0 := last.1]
  }

  /** The value kept for a name is the one in its last entry. */
  lemma {:induction false} FromEntriesLastWins(entries: seq<(string, string)>, j: nat)
    requires j < |entries|
    requires forall k :: j < k < |entries| ==> entries[k].0 != entries[j].0
    ensures FromEntries(entries)[entries[j].0] == entries[j].1
  {
    if j < |entries| - 1 {
      FromEntriesLastWins(entries[..|entries| - 1], j);
    }
  }

  /** The loop of `validateForm()` over the form's entries, showing each field error. */
  method CheckEntries(env: Env, formData: seq<(string, string)>) returns (isValid: bool, errors: seq<(string, string)>)
    ensures isValid <==> forall j :: 0 <= j < |formData| ==> EntryPasses(env, formData[j])
    ensures errors == FieldErrors(env, formData)
  {
    isValid := true;
    errors := [];
    for i := 0 to |formData|
      invariant errors == FieldErrors(env, formData[..i])
      invariant isValid <==> errors == []
    {
      var (fieldName, value) := formData[i];
      FieldErrorsOfNextEntry(env, formData, i);
      if fieldName in Rules {
        var result := ValidateField(env, fieldName, value);
        if result.Invalid? {
          errors := errors + [(fieldName, result.message)];
          isValid := false;
        }
      }
    }
    assert formData[..|formData|] == formData;
  }

  /**
   * `validateForm()`. `entries` is the form's FormData, `None` when there is
   * no `formCadastro`; `voluntario` and `doador` are the two checkboxes. The
   * method returns the verdict, the field errors it shows, whether it raises
   * the participation alert, and the record it stores under `cadastroONG`.
   */
  method ValidateForm(env: Env, entries: Option<seq<(string, string)>>, voluntario: bool, doador: bool)
    returns (isValid: bool, errors: seq<(string, string)>, participationAlert: bool,
             persisted: Option<map<string, string>>)
    ensures isValid <==>
              && entries.Some?
              && (forall j :: 0 <= j < |entries.value| ==> EntryPasses(env, entries.value[j]))
              && (voluntario || doador)
    ensures errors == if entries.Some? then FieldErrors(env, entries.value) else []
    ensures participationAlert <==> entries.Some? && !voluntario && !doador
    ensures persisted.Some? <==> isValid
    ensures persisted.Some? ==> entries.Some? && persisted.value == FromEntries(entries.value)
  {
    if entries.None? {
      return false, [], false, None;
    }
    var formData := entries.value;
    isValid, errors := CheckEntries(env, formData);
    participationAlert := !voluntario && !doador;
    if participationAlert {
      isValid := false;
    }
    persisted := if isValid then Some(FromEntries(formData)) else None;
  }
}
