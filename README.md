# ONG Solidariedade site logic, modelled in Dafny

This project models the sequential logic of a small non-profit's static website.
It covers three pieces:

- **CPF validation.** The Brazilian taxpayer number carries two mod-11 check digits. The site tests them twice:
  - `validateCPF` in `js/form-validator.js` strips formatting and uses `r < 2 ? 0 : 11 - r`;
  - `validarCPF` in `js/form-validation.js` takes a stripped string and uses `(sum * 10) % 11`, with 10 mapped to 0.

  Both are loops, modelled as methods proved against spec predicates. The two formulas are proved to agree on every sum. So the two tests agree on every digit-only string, the only kind the submit handler passes (js/form-validation.js:78). They differ on punctuated input: `validateCPF` strips formatting first and `validarCPF` does not, so `529.982.247-25` passes the first and fails the second.
- **The registration form engine** (`js/form-validator.js`). It has:
  - the rule table;
  - the short-circuiting field evaluator;
  - the age rule, with today's date passed in;
  - the CPF, phone and CEP input masks (and the second script's copies);
  - the form-level decision that gates storing the record.

  The second script's submit handler checks age first, then CPF.
- **The page router** (`js/spa.js`). It is a class holding:
  - the current page key;
  - the main region's content and the document title;
  - a count of validator initialisations;
  - the navigation links, each an object with an `active` flag.

## Files

- `wrappers.dfy`: `Option`.
- `text.dfy`: the JavaScript string operations the code relies on:
  - `replace(/\D/g, '')`;
  - `trim()` and the `\s` character set;
  - `length` in UTF-16 code units;
  - `slice` with its index clamping.
- `calendar.dfy`: dates as (year, month, day) triples and completed years.
- `form_validator.dfy`: `js/form-validator.js`.
- `form_validation.dfy`: `js/form-validation.js`.
- `spa.dfy`: `js/spa.js`.

## Modelling choices

- Outside inputs are parameters, gathered in the `Env` record:
  - the name pattern `/^[a-zA-ZÀ-ÿ\s]+$/` and the e-mail pattern are predicates;
  - `new Date(value)` is a function to `Option<Date>`, where `None` is an Invalid Date;
  - today's date is a value.
- The CPF, phone and CEP patterns are written out as character-position predicates.
- Inside the functional evaluator, `validateCPF` appears as the predicate `CpfChecks`. Functions cannot call methods, and the method is proved to compute exactly that predicate.
- `parseInt` of a non-digit character gives NaN. `validarCPF` is modelled with a small number type that carries NaN, so any non-digit character makes it return false.
- Only `validarCPF` computes the check digit as `(sum * 10) % 11`; `validateCPF` uses `r < 2 ? 0 : 11 - r`. The model follows each file's code, and `FormValidation.CheckDigitFormulasAgree` proves the two give the same digit.
- A known key updates `currentPage` even without a `main` element; the content, title, links and validator initialisation happen only when `main` exists.
- Three behaviours of the code that are easy to miss are proved as lemmas:
  - An unparseable birth date gets through the second script's age gate, because `NaN < 18` is false. `validateAge` rejects it.
  - The phone mask always puts five digits before the hyphen. So a ten-digit landline can never match the pattern's four-digit alternative, and the phone rule rejects it.
  - The CPF mask in `js/form-validator.js` leaves a trailing hyphen for seven to nine digits, because its first branch writes the hyphen before an empty `slice(9)`. The mask in `js/form-validation.js` does the same at nine digits.
  - Separately, the `value.length > 6` test inside the middle branch of the `js/form-validator.js` mask can never hold, so four to six digits get a single dot.

## Model

| member | source | states |
|---|---|---|
| Text.Digits | js/form-validator.js:90 | stripping non-digits leaves only ASCII digits and never lengthens the string |
| Text.DigitsIgnoresNonDigit | js/form-validator.js:90 | inserting a non-digit character anywhere does not change the stripped digits |
| Text.TrimEmptyIffBlank | js/form-validator.js:184-191 | `trim()` yields the empty string exactly when every character is JavaScript whitespace |
| Text.RepeatsOneDigit | js/form-validator.js:96 | `/^(\d)\1{10}$/`: eleven digits all equal to the first (also js/form-validation.js:93) |
| Text.Trim | js/form-validator.js:184 | `trim()`: whitespace removed from both ends; `TrimEmptyIffBlank` characterises when it is empty |
| Text.Slice | js/form-validator.js:141 | `slice(from, to)` with negative and out-of-range indices clamped; within range it is the plain subsequence |
| Text.Utf16Length | js/form-validator.js:194-201 | `length` counts UTF-16 code units: between one and two per character |
| Calendar.CompletedYears | js/form-validator.js:120-125 | the age is the year difference, or one less when this year's birthday is still ahead |
| Calendar.CompletedYearsAtLeast | js/form-validator.js:120-127 | age at least n iff the birth date is on or before today moved back n years (lexicographic order) |
| FormValidator.WeightedSum | js/form-validator.js:99-110 | with weights that stay positive, the weighted digit sum is non-negative |
| FormValidator.CheckDigit | js/form-validator.js:103-104 | the check digit is at most 9; it is 0 for remainders 0 and 1, and otherwise brings the sum to a multiple of 11 |
| FormValidator.ValidateCPF | js/form-validator.js:88-115 | the loops accept exactly the inputs whose digits are eleven, not all equal, with digits 10 and 11 equal to the weights-10..2 and weights-11..2 check digits; rejects a wrong length and a repeated digit |
| FormValidator.KnownCpfAccepted | js/form-validator.js:99-114 | 529.982.247-25's digits pass both check digits |
| FormValidator.WrongCheckDigitsRejected | js/form-validator.js:93-114 | changing either check digit of that CPF, or eleven equal digits, is rejected |
| FormValidator.CpfIgnoresPunctuation | js/form-validator.js:90-93 | adding punctuation never changes the CPF verdict |
| FormValidator.WeightedSumOfPrefix | js/form-validator.js:99-102 | the sum over the first n digits depends on those digits only |
| FormValidator.ChangedCheckDigitInvalid | js/form-validator.js:99-114 | replacing digit 10 or 11 of a valid CPF by another digit always makes it invalid |
| FormValidator.ValidateAge | js/form-validator.js:117-128 | true iff the date parsed and (today.year-18, month, day) is on or after the birth date; an Invalid Date is rejected |
| FormValidator.AdultOnEighteenthBirthday | js/form-validator.js:117-128 | accepted on the exact 18th birthday |
| FormValidator.MinorOnTheDayBefore | js/form-validator.js:117-128 | rejected the day before the 18th birthday |
| FormValidator.CpfChecks | js/form-validator.js:88-115 | the conditions `validateCPF` tests on the stripped digits; `ValidateCPF` is proved to compute exactly this predicate |
| FormValidator.IsCpfFormat | js/form-validator.js:31 | the pattern `^\d{3}\.\d{3}\.\d{3}-\d{2}$` as character positions; `CpfMaskFormatsElevenDigits` and `CpfMaskKeepsFormatted` relate it to the mask |
| FormValidator.IsPhoneFormat | js/form-validator.js:41 | the pattern `^\(\d{2}\)\s\d{4,5}-\d{4}$` as character positions; related to the mask by `PhoneMaskFormatsElevenDigits`, `PhoneMaskKeepsFormatted` and `PhoneMaskMissesTenDigitFormat` |
| FormValidator.IsCepFormat | js/form-validator.js:65 | the pattern `^\d{5}-\d{3}$` as character positions; related to the mask by `CepMaskFormatsEightDigits` and `CepMaskKeepsFormatted` |
| FormValidator.FormatCpf | js/form-validator.js:140-146 | the CPF listener's three-branch rewrite; its properties are `DigitsOfFormatCpf`, `CpfMaskTrailingHyphen` and `CpfMaskDeadInnerTest` |
| FormValidator.CpfMask | js/form-validator.js:137-148 | strip, truncate to 11, rewrite; its properties are the `CpfMask*` lemmas |
| FormValidator.FormatPhone | js/form-validator.js:155-161 | the phone listener's rewrite; its property is `DigitsOfFormatPhone` |
| FormValidator.PhoneMask | js/form-validator.js:152-163 | strip, truncate to 11, rewrite; its properties are the `PhoneMask*` lemmas |
| FormValidator.FormatCep | js/form-validator.js:170-172 | the CEP listener's rewrite (the same code as js/form-validation.js:47-49); its property is `DigitsOfFormatCep` |
| FormValidator.CepMask | js/form-validator.js:167-174 | strip, truncate to 8, rewrite; its properties are the `CepMask*` lemmas |
| FormValidator.DigitsOfFormatCpf | js/form-validator.js:140-146 | the CPF rewrite only inserts separators: stripping it gives back its digits |
| FormValidator.CpfMaskTrailingHyphen | js/form-validator.js:140-141 | seven to nine digits give `ddd.ddd.` and the rest followed by a trailing `-` |
| FormValidator.CpfMaskDeadInnerTest | js/form-validator.js:142-143 | four to six digits give `ddd.` and the rest: the inner `length > 6` test never holds |
| FormValidator.CpfMaskKeepsDigits | js/form-validator.js:137-148 | the CPF mask keeps the input's first 11 digits, in order |
| FormValidator.CpfMaskIdempotent | js/form-validator.js:137-148 | masking twice equals masking once |
| FormValidator.CpfMaskFormatsElevenDigits | js/form-validator.js:139-141 | 11 or more digits produce a string matching the CPF pattern of line 31 |
| FormValidator.CpfMaskKeepsFormatted | js/form-validator.js:138-141 | a value already matching the CPF pattern is left unchanged |
| FormValidator.DigitsOfFormatPhone | js/form-validator.js:155-161 | the phone rewrite only inserts separators |
| FormValidator.PhoneMaskKeepsDigits | js/form-validator.js:152-163 | the phone mask keeps the first 11 digits |
| FormValidator.PhoneMaskIdempotent | js/form-validator.js:152-163 | masking twice equals masking once |
| FormValidator.PhoneMaskFormatsElevenDigits | js/form-validator.js:154-156 | 11 digits produce a string matching the phone pattern of line 41 |
| FormValidator.PhoneMaskKeepsFormatted | js/form-validator.js:153-156 | a value in the `(dd) ddddd-dddd` format is left unchanged |
| FormValidator.PhoneMaskMissesTenDigitFormat | js/form-validator.js:155-156 | 10 digits never produce a string matching the phone pattern |
| FormValidator.DigitsOfFormatCep | js/form-validator.js:170-172 | the CEP rewrite only inserts the hyphen |
| FormValidator.CepMaskKeepsDigits | js/form-validator.js:167-174 | the CEP mask keeps the first 8 digits (the copy at js/form-validation.js:44-51 is the same rewrite) |
| FormValidator.CepMaskIdempotent | js/form-validator.js:167-174 | masking twice equals masking once |
| FormValidator.CepMaskFormatsEightDigits | js/form-validator.js:169-172 | 8 digits produce a string matching the CEP pattern of line 65 |
| FormValidator.CepMaskKeepsFormatted | js/form-validator.js:168-172 | a value already matching the CEP pattern is left unchanged |
| FormValidator.RuleTableFields | js/form-validator.js:8-85 | the table has exactly the nine form fields, all required; only nome (3..100), endereco (min 5) and cidade (min 2) carry length bounds |
| FormValidator.RuleTableChecks | js/form-validator.js:8-85 | patterns exist exactly on nome, email, cpf, telefone and cep, with the matching kinds; custom checks exactly on cpf (check digits) and dataNascimento (age) |
| FormValidator.EvaluateRule | js/form-validator.js:183-213 | a blank value fails with the required message if the rule is required and passes otherwise; a non-blank value passes iff no length, pattern or custom check fails, and otherwise fails with the first failing check's message |
| FormValidator.ValidateField | js/form-validator.js:179-214 | no rule: valid; for every field in the table a blank value fails with its required message; otherwise valid iff no check fails, with the first failure's message |
| FormValidator.LengthCountsUntrimmedValue | js/form-validator.js:184-196 | for `cidade`, " a" passes the two-character minimum (untrimmed length), "a" fails it, and "  " fails as required |
| FormValidator.FormattedCpfJudgedByCheckDigits | js/form-validator.js:29-38 | a value matching the CPF pattern is valid iff its digits pass the check digits, and fails with 'CPF inválido' otherwise |
| FormValidator.FormattedPhonePassesRule | js/form-validator.js:39-46 | a value matching the phone pattern passes the telefone rule |
| FormValidator.UnformattedPhoneFailsRule | js/form-validator.js:39-46 | a value that starts with `(` but misses the phone pattern fails with the format message |
| FormValidator.FormattedCepPassesRule | js/form-validator.js:63-70 | a value matching the CEP pattern passes the cep rule |
| FormValidator.MaskedCpfMeetsPattern | js/form-validator.js:29-38 | a masked 11-digit CPF always meets the format, so only the check digits decide, and failure gives message 'CPF inválido' |
| FormValidator.MaskedPhonePassesRule | js/form-validator.js:39-46 | a masked 11-digit phone passes the telefone rule |
| FormValidator.MaskedTenDigitPhoneFailsRule | js/form-validator.js:39-46 | a masked 10-digit phone fails the telefone rule with its format message |
| FormValidator.MaskedCepPassesRule | js/form-validator.js:63-70 | a masked 8-digit CEP passes the cep rule |
| FormValidator.FieldErrors | js/form-validator.js:294-304 | at most one error per entry, and no errors iff every submitted entry passes its rule |
| FormValidator.CheckEntries | js/form-validator.js:290-304 | the loop's flag stays true iff every entry passes its rule, and the errors shown are FieldErrors of the entries, in order |
| FormValidator.FromEntries | js/form-validator.js:324 | the stored record's keys are exactly the submitted field names |
| FormValidator.FromEntriesLastWins | js/form-validator.js:324 | a name's stored value is the one in its last entry |
| FormValidator.ValidateForm | js/form-validator.js:286-337 | true iff the form exists, every submitted entry passes its rule and voluntário or doador is checked; shows each failing field's message in order; raises the participation alert iff neither box is checked; stores the record iff it returns true |
| FormValidation.ValidarChecks | js/form-validation.js:92-118 | the conditions `validarCPF` tests; `ValidarCPF` is proved to compute it and `ValidarAgreesWithValidateCpf` equates it with `CpfChecks` |
| FormValidation.FormatCpf | js/form-validation.js:11-17 | this script's CPF rewrite; its properties are `DigitsOfFormatCpf`, `CpfMaskTrailingHyphen` and `CpfMasksAgreeFromNineDigits` |
| FormValidation.CpfMask | js/form-validation.js:7-20 | strip, truncate to 11, rewrite; its properties are this module's `CpfMask*` lemmas |
| FormValidation.FormatPhone | js/form-validation.js:30-34 | this script's phone rewrite; its properties are `DigitsOfFormatPhone` and `PhoneMaskShape` |
| FormValidation.PhoneMask | js/form-validation.js:26-37 | strip, truncate to 11, rewrite; its properties are this module's `PhoneMask*` lemmas |
| FormValidation.TooYoung | js/form-validation.js:62-72 | the submit handler's `idade < 18` with NaN comparisons false; `AgeGateMatchesValidateAge` relates it to `ValidateAge` |
| FormValidation.ParseIntChar | js/form-validation.js:101 | `parseInt` of one character is a number exactly for a digit |
| FormValidation.SomaIsWeightedSum | js/form-validation.js:97-111 | over digits `soma` is the weighted sum; a non-digit makes it NaN |
| FormValidation.ResidueCheckDigit | js/form-validation.js:104-105 | `(soma*10) % 11` with 10 mapped to 0 is at most 9 |
| FormValidation.CheckDigitFormulasAgree | js/form-validation.js:104-105 | for every natural sum, `(s*10)%11` with 10 mapped to 0 equals `s%11 < 2 ? 0 : 11 - s%11` |
| FormValidation.ValidarAgreesWithValidateCpf | js/form-validation.js:92-118 | given the same string, `validarCPF`'s conditions coincide with the conditions `validateCPF` applies to its stripped digits |
| FormValidation.ValidarAgreesOnDigitStrings | js/form-validation.js:78-79 | on a digit-only string, `validarCPF` decides exactly what `validateCPF` decides on the same raw string |
| FormValidation.PunctuatedCpfSplitsTheTests | js/form-validation.js:92-94 | `validateCPF` accepts `529.982.247-25` after stripping it, while `validarCPF` rejects it for its length |
| FormValidation.ValidarCPF | js/form-validation.js:92-118 | the loops accept exactly a length-11 all-digit, non-repeated string whose two check digits satisfy the `(soma*10)%11` rule; reject wrong lengths and repeated digits; agrees with `validateCPF` on every digit-only string |
| FormValidation.DigitsOfFormatCpf | js/form-validation.js:11-17 | this CPF rewrite only inserts separators |
| FormValidation.CpfMaskKeepsDigits | js/form-validation.js:7-20 | this CPF mask keeps the first 11 digits |
| FormValidation.CpfMaskIdempotent | js/form-validation.js:7-20 | masking twice equals masking once |
| FormValidation.CpfMaskFormatsElevenDigits | js/form-validation.js:9-12 | 11 digits produce `ddd.ddd.ddd-dd` |
| FormValidation.CpfMaskTrailingHyphen | js/form-validation.js:11-12 | nine digits give `ddd.ddd.ddd-` with a trailing hyphen |
| FormValidation.CpfMasksAgreeFromNineDigits | js/form-validation.js:11-12 | from nine digits on, the two CPF masks produce the same string |
| FormValidation.DigitsOfFormatPhone | js/form-validation.js:30-34 | this phone rewrite only inserts separators |
| FormValidation.PhoneMaskKeepsDigits | js/form-validation.js:26-37 | this phone mask keeps the first 11 digits |
| FormValidation.PhoneMaskIdempotent | js/form-validation.js:26-37 | masking twice equals masking once |
| FormValidation.PhoneMaskShape | js/form-validation.js:27-34 | up to two digits stay bare; more than seven give `(dd) ddddd-` followed by the rest |
| FormValidation.AgeGateMatchesValidateAge | js/form-validation.js:62-75 | on a parsed date the handler's gate rejects exactly what `validateAge` rejects; an unparsed date passes the gate |
| FormValidation.Submit | js/form-validation.js:58-87 | an under-18 date is rejected whatever the CPF; the form is accepted (and reset) iff the age gate passes and the stripped CPF is valid |
| Spa.PageTable | js/spa.js:10-183 | the page table holds exactly index, projetos and cadastro, with the site's three titles |
| Spa.NextPage | js/spa.js:235-241 | a known key becomes the page, and any other key keeps the current one, so a current page in the table stays in the table |
| Spa.NextPageAsWritten | js/spa.js:236-237 | the as-written guard moves to the requested key or stays |
| Spa.AsWrittenNavigateLeavesPageKeys | js/spa.js:236-237 | as written, `navigate('constructor')` makes `constructor` the current page, which is not a page key |
| Spa.Router.constructor | js/spa.js:8-9 | the router starts on `index` |
| Spa.Router.GetCurrentPage | js/spa.js:243 | the current page is always one of the three page keys |
| Spa.Router.UpdateNavLinks | js/spa.js:206-214 | afterwards a link is active iff its data-page equals the page |
| Spa.Router.RenderPage | js/spa.js:187-204 | an unknown key or a missing main region changes nothing; otherwise content and title are the page's, the links follow it, and only the cadastro page initialises the validator |
| Spa.Router.Navigate | js/spa.js:235-241 | keeps the current page among the keys; a known key becomes current even without a main region; an unknown key leaves page, content, title and links unchanged |
| Spa.Router.Init | js/spa.js:231-232 | renders the index page without changing the current page or the validator count; without a main region content, title and links stay as they were |
| Spa.Router.OnLinkClick | js/spa.js:222-228 | a link without a (non-empty) data-page changes nothing; otherwise it navigates to that key, with navigate's full post-state: content, title, active links and validator count for a known key with a main region, nothing else changed otherwise |

## Findings

| source | as written | input that shows it | evidently intended | confidence | as-written member | corrected member |
|---|---|---|---|---|---|---|
| js/spa.js:236 | `if (state.pages[pageName])` also succeeds for properties every object inherits from `Object.prototype` | `navigate('constructor')` (also `'toString'`, `'__proto__'`, ...) sets `currentPage` to `'constructor'` | only the three page keys are accepted; any other key is a no-op | medium; not executed | Spa.AsWrittenNavigateLeavesPageKeys | Spa.Router.Navigate |

The router class uses the own-key lookup, `pageName in Pages`, and proves that the current page stays a page key.

## Left out

- `js/accessibility.js` as a whole. It is DOM attribute writes, panel markup, focus handling and local storage.
- DOM effects: `showFieldError`/`clearFieldError`, the success and error banners, `alert`, `window.scrollTo`, and `innerHTML`/`document.title` beyond the router's fields. Listener registration in both `init` functions and in the second script is left out too. The blur and input listeners only call `ValidateField`.
- Local storage and `JSON.stringify`: `ValidateForm` returns the record it would store under `cadastroONG`.
- The two-second `setTimeout` that resets the form after a successful submission. It is timer-driven.
- Date parsing and time zones in `new Date(value)`. They are injected as `Env.parseDate` or as an `Option<Date>` argument, and today's date is a parameter.
- The regular-expression engine: the name pattern (with its Unicode range) and the e-mail pattern are the predicates `Env.nameMatches` and `Env.emailMatches`.
- The marketing markup of the three pages. It is represented by placeholder strings; the titles are the site's own.
- Missing DOM elements that make the source throw: `voluntario`, `doador` and the banners. The checkboxes are plain booleans, and only a missing form is modelled, as `None`.
- FormData entries are string pairs; file entries do not occur on this form.
- Field names that find an inherited property of `rules`, such as `toString`. They reach `validateField` with no constraints and pass, which is the same result as having no rule, so they are modelled as having no rule.
- Spa.Router.Navigate: uses the own-key page lookup, not the as-written guard that also accepts inherited object properties (see Findings).
- Spa.Router.RenderPage: uses the own-key lookup too. As written, the lookup at js/spa.js:188-189 also finds inherited properties, so `renderPage('constructor')` would write `undefined` content and title and clear every link; the model leaves the page unchanged instead.
