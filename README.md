# govalidator: the error-translation pipeline and the format checkers, in Dafny

This project models the core of `govalidator`, a Go package that sits between
the go-playground validation engine and the goi18n translator. It covers:

- **utils.go.** This has:
  - `resolveParams` and `resolveMessages`, which pick a default rule name or message;
  - `toChars`, a loop that splits a string into code points;
  - `parseNumeric`, which coerces a rule parameter to a number.
- **error.go.** `vErrors` is the error aggregate. It is a class holding a map
  field → (rule → message) and an optional internal error. `AddError` updates the
  map in place. The `Has*`/`IsFailed*` queries read the map. The `Messages`, `Rules` and
  `String` views loop over it in map order.
- **driver.go.** `I18nValidator` has:
  - `AddValidation` and `AddTranslation`, which write into the engine's rule
    registry and into the translator's message registry;
  - `translate`, a fallback chain;
  - `parseStructErrors` and `parseVariableErrors`, which fold the engine's list
    of violations into a fresh aggregate.
- **funcs/funcs.go.** These are the eight format checkers: username, phone,
  mobile, postal code, ID number, national code (mod-11 checksum), bank card
  (Luhn) and IBAN (mod 97).
- **options.go and validator.go.** These cover:
  - the struct-tag name resolver of `WithFiberTagResolver`;
  - `WithTranslator`;
  - the rule-name and message defaulting shared by the `With*Validator` options,
    together with their translation loop;
  - `NewValidator`, which applies the options left to right.

The modules are the following:

| file | module | contents |
|---|---|---|
| wrappers.dfy | Wrappers | `Option` |
| text.dfy | Text | `unicode.IsSpace`, `strings.TrimSpace`, `HasPrefix`, `SplitN(s, ",", 2)[0]`, decimal digits |
| strconv.dfy | Strconv | what `strconv.ParseInt(s, 10, 64)` and `strconv.ParseFloat(s, 64)` accept and return |
| regex.dfy | Pattern | anchored concatenations of repeated character classes, the regexp fragment the checkers use |
| engine.dfy | Playground | the engine's side: violation records, the engine's outcome, the rule registry and the tag-name function |
| i18n.dfy | I18n | the translator: a message registry and an uninterpreted `Plural` |
| utils.dfy | Utils | utils.go |
| errors.dfy | Aggregate | error.go |
| driver.dfy | Driver | driver.go |
| funcs.dfy | Funcs | funcs/funcs.go |
| options.dfy | Options | options.go and `NewValidator` |

The pieces that change state are written as classes. These are `VErrors`,
`I18nValidator`, the engine's `Validate` and the `Translator`. Their methods carry
`modifies` clauses and state the whole new state. Each is tied to a specification
function:

- `Insert` and `AddAll` for `AddError` and the parse loops;
- `Register` for the translation loop;
- `RulesAfter`, `SetupAfter` and `MessagesAfter` for `NewValidator`.

The properties are proved about those functions. Go map iteration order is a
nondeterministic choice (`:|`) in the loops. The views are specified up to
permutation: `IsOrder` says a sequence lists a key set once each.

The code is followed wherever the package's own description says otherwise. For
example, `AddError` passes its message through `resolveParams`, so the engine's
`Error()` text is stored trimmed rather than verbatim (`UntranslatedText`).

## Model

| member | source | states |
|---|---|---|
| Utils.ResolveParams | utils.go:21-28 | A first value that is present and not blank is returned trimmed (and is then non-empty). Otherwise the fallback is returned. |
| Utils.ResolveParamsFirstOnly | utils.go:21-28 | Values after the first are never consulted. |
| Utils.ResolveParamsTrimmed | utils.go:21-28 | With a trimmed fallback the result is trimmed. With a non-empty fallback it is never empty. |
| Utils.ResolveMessages | utils.go:31-36 | A present map is returned unchanged, even when empty. A nil map becomes exactly the one entry "" → def. |
| Utils.ToChars | utils.go:11-17 | One single-code-point string per code point, in order. Their concatenation is the input. |
| Strconv.ParseIntMeaning | utils.go:40 | ParseInt succeeds exactly on an optional sign and digits within int64, and returns that value. Out of range it gives the clamped bound. A syntax error gives 0. |
| Strconv.IntSyntaxIsFloatSyntax | utils.go:42 | Every string in ParseInt's syntax is also accepted by ParseFloat. |
| Utils.ParseNumericNeverFloat | utils.go:39-46 | As written, the float pointer is never set. |
| Utils.ParseNumericAccepted | utils.go:39-46 | As written, every string ParseInt accepts gives (nil, nil). |
| Utils.ParseNumericRejected | utils.go:39-46 | As written, every string ParseInt rejects gives a non-nil int pointer holding ParseInt's error value: the clamped bound on overflow, 0 on a syntax error. |
| Utils.ParseNumericExamples | utils.go:39-46 | "5" gives (nil, nil). "abc", "" and "5.7" give the int pointer 0. |
| Utils.ParseNumericIntended | utils.go:38-46 | Corrected: the int64 when ParseInt succeeds. Otherwise no int, and a float exactly when ParseFloat accepts the string. |
| Utils.ParseNumericDiffersFromIntended | utils.go:39-46 | As written and as intended disagree on every string ParseInt accepts. |
| Aggregate.Insert | error.go:136-145 | The field keys after an insertion are the old ones plus the field. |
| Aggregate.InsertEffect | error.go:138-144 | An insertion sets exactly (field, rule) to the message. Every other entry keeps its message and nothing else is added. No field is left with an empty rule map. |
| Aggregate.AddAllNoEmptyField | error.go:136-145 | Any sequence of AddError calls keeps every field's rule map non-empty. |
| Aggregate.AddAllFailedOn | error.go:136-145 | After the calls, every added (field, rule) pair is present. |
| Aggregate.AddAllLastWins | error.go:138-144 | A repeated (field, rule) keeps the message of the last call, trimmed. |
| Aggregate.AddAllOnly | error.go:136-145 | Every present pair was there before or was added by some call. |
| Aggregate.AddAllUntouched | error.go:138-144 | An existing pair that no call names keeps its message. |
| Aggregate.Values | error.go:103-105 | The messages listed in a given rule order, one per rule. |
| Aggregate.ListRules | error.go:113-116 | The inner loop of Rules lists each rule key of a field exactly once. |
| Aggregate.ListMessages | error.go:101-105 | The inner loop of Messages lists each message once per rule, in the order of a permutation of the rule keys. |
| Aggregate.WriteRules | error.go:129-131 | The inner loop of String writes one "    rule: message" line per rule, in the order of a permutation of the rule keys. |
| Aggregate.RenderAppend | error.go:127-132 | One more field appends "field:\n" and then its rule lines. |
| Aggregate.RuleLinesCount | error.go:129-131 | A field's rule lines contain one newline per rule, when no rule or message contains a line break. |
| Aggregate.RenderLineCount | error.go:125-134 | A full rendering has #fields + #(field, rule) pairs lines, when no field, rule or message contains a line break. |
| Aggregate.RenderLineCountPrefix | error.go:125-134 | A rendering of some fields has one line per field plus one per rule of those fields, when no field, rule or message contains a line break. |
| Aggregate.VErrors.NewError | error.go:48-53 | A new aggregate holds the given internal error and no validation errors. |
| Aggregate.VErrors.NewEmptyError | error.go:56-61 | A new aggregate holds neither an internal error nor validation errors. |
| Aggregate.VErrors.AddError | error.go:136-145 | Inserts the trimmed first message under (field, rule) and leaves the internal error alone. Afterwards IsFailed(field) and IsFailedOn(field, rule) hold. The invariant that no field has an empty rule map is kept. |
| Aggregate.VErrors.Messages | error.go:99-108 | The same field keys as Errors(). For each field, the messages are listed in the order of a permutation of its rule keys. |
| Aggregate.VErrors.Rules | error.go:110-119 | The same field keys as Errors(). For each field, a permutation of its rule keys. |
| Aggregate.VErrors.String | error.go:125-134 | For some order of the fields and of each field's rules: "field:\n" per field, followed by one "    rule: message\n" line per rule. |
| Aggregate.HasErrorIsEither | error.go:69-79 | HasError holds iff HasInternalError or HasValidationErrors holds. |
| Aggregate.NewAggregates | error.go:48-79 | An empty aggregate has all three Has* false. NewError(e) has HasInternalError true and HasValidationErrors false. |
| Aggregate.FailedIffSomeRule | error.go:81-89 | IsFailed(f) holds iff IsFailedOn(f, r) holds for some r. |
| Aggregate.ValidationErrorsIffSomePair | error.go:77-89 | HasValidationErrors holds iff some (field, rule) pair is failed. |
| I18n.Register | options.go:72-74 | The registry after registering every (locale, message) of a map under one key. |
| I18n.RegisteredStep | options.go:72-74 | One AddMessage of a not yet registered locale extends a partial registration by that locale. |
| I18n.RegisteredAll | options.go:72-74 | A registration that covers every locale, in whatever order, is exactly Register. |
| Driver.KeyInjective | driver.go:31-35 | Under one prefix, two rules with the same translation key are the same rule. |
| Driver.DisplayName | driver.go:100-105 | The displayed name is the caller's name, or else a non-empty TranslateTitle. |
| Driver.Trunc | driver.go:140 | Go's int(f) always yields a value in the int64 range. |
| Driver.CoerceMeaning | driver.go:133-141 | As written: a parameter ParseInt accepts stays a string with count 0. Any other becomes ParseInt's error value as both param and count (0 after a syntax error). |
| Driver.CoerceIntendedInt | driver.go:133-141 | Corrected: an int64 parameter is passed as that number and counts as itself. As written it stays a string with count 0. |
| Driver.CoerceIntendedOther | driver.go:133-141 | Corrected: a non-integer that parses as a float is passed as the float, with the count truncated. Anything else is passed as the string, with count 0. |
| Driver.I18nValidator.constructor | validator.go:79-82 | A new validator has no translator and an empty prefix, over the given engine. |
| Driver.I18nValidator.AddValidation | driver.go:16-23 | A blank rule changes nothing. Otherwise the checker is registered under the trimmed rule. The tag-name function is untouched. |
| Driver.I18nValidator.AddTranslation | driver.go:25-36 | With a translator and a non-blank rule, the message is registered under (locale, the rule alone or "prefix.rule"). A blank rule changes nothing. |
| Driver.I18nValidator.Translate | driver.go:81-111 | No translator gives "". A non-empty TranslateError message is returned as is. Otherwise Plural is called with the prefixed key, the display name as "field" and the parameter as "param". |
| Driver.I18nValidator.RecordEntry | driver.go:131-155 | The AddError call for one violation always carries the violation's tag. Without a translator it files the engine's text under Field(). With one, the variable path files under the caller's name, and the message is translated with the parameter coerced by parseNumeric as written. |
| Driver.RecordEntryCoercion | driver.go:133-153 | With a translator, a parameter ParseInt accepts (such as "5") reaches the translation as that text with count 0, and a non-numeric one (such as "abc") as the int 0 with count 0. |
| Driver.I18nValidator.Entries | driver.go:131-157 | One AddError call per violation, in order. |
| Driver.I18nValidator.ParseErrors | driver.go:115-161 | A nil error gives an empty aggregate. An error that is not a violation list gives an aggregate holding only that error. Violations give a fresh aggregate with every violation's AddError applied in order. |
| Driver.I18nValidator.ParseStructErrors | driver.go:115-161 | As ParseErrors, with field keys from Field(). |
| Driver.I18nValidator.ParseVariableErrors | driver.go:164-209 | As ParseErrors, with the caller's name as the field key when a translator is present. |
| Driver.Fill | driver.go:131-157 | The AddError loop yields the fold AddAll of the calls and keeps the internal error and the invariant. |
| Driver.ViolationsFailed | driver.go:144-155 | For every violation, IsFailedOn(key, tag) holds. The key is Field(), or the caller's name on the translated variable path. |
| Driver.ViolationsOnly | driver.go:131-157 | Every failed pair of the result comes from some violation. |
| Driver.FiledUnderEntry | driver.go:144-155 | The k-th AddError call files the k-th violation under its key, with its tag. |
| Driver.VariableErrorsUnderName | driver.go:193-203 | With a translator, parseVariableErrors files every violation under the caller's name only. |
| Driver.UntranslatedText | driver.go:144-145 | Without a translator, the stored message is the engine's text of the last violation for that pair, trimmed. |
| Driver.HookWins | driver.go:88-92 | A non-empty TranslateError message is returned whatever the registry, prefix, name or count. |
| Driver.TitleReplacesName | driver.go:100-105 | A non-empty TranslateTitle makes the caller's name irrelevant to the message. |
| Funcs.IsValidUsername | funcs/funcs.go:16-19 | Holds iff the string is non-empty and every character is an ASCII letter, a digit or '_'. |
| Funcs.IsValidIranianPhone | funcs/funcs.go:22-25 | Holds iff there are 11 characters: '0', then '1'-'9', then nine digits. |
| Funcs.IsValidIranianMobile | funcs/funcs.go:28-31 | Holds iff there are 11 characters: "09", then nine digits. |
| Funcs.MobileIsPhone | funcs/funcs.go:22-31 | Every valid mobile number is a valid phone number. |
| Funcs.IsValidIranianPostalCode | funcs/funcs.go:34-37 | Holds iff there are exactly 10 ASCII digits. |
| Funcs.IsValidIranianIDNumber | funcs/funcs.go:40-43 | Holds iff there are 1 to 10 ASCII digits. |
| Funcs.PostalCodeIsIdNumber | funcs/funcs.go:34-43 | Every valid postal code is a valid ID number. |
| Funcs.NationalCheckDigit | funcs/funcs.go:65-72 | The check digit demanded by the first nine digits is a single digit. |
| Funcs.IsValidIranianNationalCode | funcs/funcs.go:46-73 | True iff there are ten digits and the last is r when r < 2, else 11 − r, where r = Σ d_i·(10−i) mod 11 over the first nine. |
| Funcs.NationalCodeCheckDigit | funcs/funcs.go:59-72 | With the first nine digits fixed, exactly one last digit is accepted. |
| Funcs.NationalCodeExample | funcs/funcs.go:46-73 | "0499370899" is valid and no other last digit is. |
| Funcs.LuhnTerm | funcs/funcs.go:88-95 | A digit contributes itself. A doubled digit contributes a single digit congruent to its double mod 9, which is 0 only for 0. |
| Funcs.IsValidIranianBankCard | funcs/funcs.go:76-100 | True iff there are 16 digits and the Luhn sum, with every second digit from the right doubled, is ≡ 0 mod 10. |
| Funcs.LuhnDetectsOneDigit | funcs/funcs.go:83-99 | Changing one digit of a valid card number always makes it invalid. |
| Funcs.IbanPrefixed | funcs/funcs.go:104-107 | The checked string starts with "IR". A string that already has it is unchanged. |
| Funcs.IsValidIranianIBAN | funcs/funcs.go:103-126 | As written: true iff the prefixed string is "IR" and 24 digits, and the value of the digits after "IR" followed by 1827 is ≡ 1 mod 97. |
| Funcs.IbanPrefixSupplied | funcs/funcs.go:104-107 | For a string without "IR", the check of s and of "IR" + s agree. |
| Funcs.IbanAsWrittenNumber | funcs/funcs.go:115-125 | As written, the number reduced mod 97 is check digits · 10^26 + BBAN · 10^4 + 1827. |
| Funcs.IsValidIranianIBANIso | funcs/funcs.go:103-126 | Corrected: the same shape test, then the ISO 13616 number (BBAN, 1827, check digits) must be ≡ 1 mod 97. |
| Funcs.IbanIsoNumber | funcs/funcs.go:115-125 | Corrected, the number reduced is BBAN · 10^6 + 182700 + check digits. |
| Funcs.IsoCheckDigits | funcs/funcs.go:115-125 | The check digits of a BBAN lie in 2..98. |
| Funcs.IsoCheckDigitsUnique | funcs/funcs.go:115-125 | Corrected, an IBAN is valid iff its check digits are ≡ IsoCheckDigits(BBAN) mod 97. |
| Funcs.IsoCheckDigitsExist | funcs/funcs.go:115-125 | Corrected, every 22-digit BBAN with its computed check digits is accepted. |
| Funcs.IsoValidRejected | funcs/funcs.go:116 | IR062960000000100324200001 passes the ISO check but is rejected as written. |
| Funcs.IsoInvalidAccepted | funcs/funcs.go:116 | IR952960000000100324200001 fails the ISO check but is accepted as written. |
| Options.ResolveFieldName | options.go:32-56 | The resolved name is "", the Go field name, or the name given by one of the field, json, form and xml tags. |
| Options.FirstTagName | options.go:36-44 | The first non-empty text before a comma along the tag list is empty iff every tag gives an empty name. |
| Options.ResolveFieldNameByPriority | options.go:36-55 | The first non-empty tag name in the order field, json, form, xml wins. "-" there gives "" whatever lower tags say. With no name the Go field name is used. |
| Options.DashIgnoresField | options.go:47-49 | A field tag of "-" hides the field even when json, form or xml name it. |
| Options.DefaultRule | options.go:62 | Every built-in rule name is non-empty and trimmed. |
| Options.Checker | options.go:68-71 | Each option registers its format checker on the field's string. The iban rule registers the IBAN check as written. The alphanumeric, ID-number and Jalaali checkers are given from outside. |
| Options.WithTranslator | options.go:18-24 | The option installs the translator and the trimmed prefix. |
| Options.WithValidator | options.go:61-66 | The rule is the first argument trimmed when it is not blank, else the built-in name. The messages are the given map, or exactly "" → the built-in English sentence when nil. The checker is the option's own. |
| Options.SetupAfter | validator.go:84-87 | After the options, the translator in force is nil or one that some WithTranslator installed. |
| Options.Apply | options.go:18-75 | One option: WithTranslator sets translator and prefix. The resolver option installs the resolver. A rule option registers its checker and then registers its messages under the prefixed key with the translator in force, if any. |
| Options.AddMessages | options.go:72-74 | The translation loop, in any map order, leaves exactly Register(old registry, messages, prefixed key). A blank rule changes nothing. |
| Options.NewValidator | validator.go:77-91 | A fresh validator over the engine. Translator, prefix, engine rules, tag-name function and each translator's registry are those of the options applied left to right from a nil translator and an empty prefix. |
| Options.Untranslated | validator.go:79-87 | Options before any WithTranslator leave no translator, an empty prefix and every registry unchanged. |
| Options.DroppedBeforeTranslator | options.go:72-74 | Rule options placed before every WithTranslator register no translation: the translator, the prefix and every translator's registry end as if those options were absent. Their checkers still reach the engine (see `Options.LastRuleWins`). |
| Options.LaterTranslatorWins | options.go:18-24 | The last WithTranslator's translator and prefix are the ones in force. |
| Options.LastRuleWins | validator.go:85-87 | A rule's checker is the one of the last option that registers that rule name. |
| Options.TagResolverInstalled | options.go:29-57 | Once the resolver option is among the options, the engine names fields with the resolver. |
| Options.TranslatorThenRule | options.go:68-75 | WithTranslator then one rule option: the engine gets the checker under the rule, and the translator gets exactly Register(registry, messages, prefixed rule). |
| Options.RegisterSingle | options.go:72-74 | Registering a one-locale map is a single AddMessage. |
| Options.DefaultTranslationEndToEnd | options.go:61-75 | WithTranslator(t, prefix) then a rule option with nil messages: the engine gets the option's checker, and t gets exactly one message, the English default, under locale "" and the trimmed-prefix key. |

## Left out

- The validation engine's internals are not modelled. This covers `Struct`, `StructExcept`, `StructPartial`, `Var`, `VarWithValue` and the `FieldError` methods (driver.go:38-78). They are calls into go-playground/validator. Their result enters as the `Outcome` datatype, whose violation records carry Field(), StructField(), Tag(), Param() and Error(). The engine's rule registry and tag-name function are a small class whose two registration methods state their effect.
- goi18n's plural tables and template substitution are not modelled. `Plural` is an uninterpreted function of the registry, locale, key, count and arguments. `AddMessage`'s plural options are not passed on.
- `MarshalJSON` (error.go:121-123) delegates to encoding/json and is not part of this model.
- `parseTag` (utils.go:50-73) works by reflection, and nothing in the modelled code calls it.
- `IsValidIP`, `IsValidIPPort`, `IsValidFileSize` and `IsValidFileType` rely on the net, bytesize, multipart and mimetype packages, and are not part of this model.
- The checkers for alnum, alnum_fa, id_number and jalaali are not modelled: `Options.Checker` takes them as its `external` parameter.
  - `funcs.IsAlphaNumeric` and `funcs.IsAlphaNumericWithPersian` are not defined in funcs/funcs.go.
  - The Jalaali check calls gojalaali.
  - options.go:183 calls `funcs.IsValidIranianIdNumber`, which funcs/funcs.go does not define; the function it defines is `IsValidIranianIDNumber`, modelled as `Funcs.IsValidIranianIDNumber`.
- The `toChars` parameter of the alphanumeric checkers is not modelled, as those checkers are external.
- Go map iteration order is not modelled as any particular order. Loops over maps choose an arbitrary remaining key, and the results are stated up to permutation.
- Aggregate.RenderLineCount, Aggregate.RenderLineCountPrefix: count the lines of `String()` only when no field, rule or message contains a line break. `AddError` trims only the ends of a message, so an interior newline, in a translated message say, adds a line the count does not include.
- Strings are sequences of code points, not UTF-8 bytes. `len(nationalCode)` at funcs/funcs.go:48 counts bytes. The two lengths differ only for non-ASCII text, which every checker rejects anyway, since all of them accept only ASCII characters.
- `Strconv.ParseFloat` does not model hexadecimal floats, underscores, float64 rounding, or the range error for literals beyond float64 (such as "1e400"). It accepts the decimal syntax and "inf"/"infinity"/"nan" and returns the exact decimal value. This only matters in `Driver.CoerceIntended`, the corrected coercion; in `parseNumeric` as written ParseFloat only ever sees strings ParseInt accepted, which it always accepts.
- Driver.Trunc: models `int(*f)` as amd64 does it, where NaN, infinities and out-of-range values give the minimum int64. Other architectures are not modelled.
- Driver.I18nValidator.ParseErrors: computes all translated messages before the AddError loop instead of one per iteration. `translate` does not read the aggregate, so the calls are the same.
- Options.Opt: a rule option's tag has type `RuleTag` (trimmed, non-empty). This is what `resolveParams` returns for every built-in default. `AddValidation` and `AddTranslation` themselves still handle blank rules, as their contracts state.
- Funcs.IsValidIranianIBAN: the `big.Int` `SetString` failure (funcs/funcs.go:119-122) cannot occur once the pattern has matched, so it has no branch.
- The `PluralOption` arguments of `AddTranslation` are not modelled: the With* options never pass any.

## Findings

| source | as written | input that shows it | evidently intended | confidence | as-written member | corrected member |
|---|---|---|---|---|---|---|
| utils.go:40-45 | `parseNumeric` returns the int pointer when `strconv.ParseInt` fails, and `(nil, nil)` when it succeeds. The float branch runs only after ParseInt succeeded and ParseFloat failed, which never happens. The parse functions therefore keep a numeric parameter such as "5" as a string with count 0, and turn "abc" into the number 0. | "5": gives (nil, nil), so param "5" and count 0 reach `Plural`. "abc": gives the int 0. | The int64 when ParseInt succeeds, else the float64 when ParseFloat succeeds, else neither (the function's own comment). | not executed | Utils.ParseNumeric, Utils.ParseNumericDiffersFromIntended, Driver.CoerceMeaning, Driver.RecordEntryCoercion | Utils.ParseNumericIntended, Driver.CoerceIntendedInt, Driver.CoerceIntendedOther |
| funcs/funcs.go:116 | The mod-97 test is applied to the check digits, the BBAN and then 1827. The IBAN rearrangement of ISO 13616-1, which moves the country code and the check digits behind the BBAN, is not performed. | IR062960000000100324200001: valid under ISO 13616 (MOD 97-10 remainder 1), but the code's number leaves remainder 55, so it is rejected. IR952960000000100324200001 is accepted although its ISO remainder is not 1. | The ISO 13616 / ISO 7064 MOD 97-10 check: the BBAN, then 1827 for "IR", then the check digits, ≡ 1 mod 97. | not executed | Funcs.IsValidIranianIBAN, Funcs.IsoValidRejected, Funcs.IsoInvalidAccepted | Funcs.IsValidIranianIBANIso, Funcs.IsoCheckDigitsUnique, Funcs.IsoCheckDigitsExist |

The pipeline follows the code as written: `Driver.I18nValidator.RecordEntry` coerces with `Driver.Coerce` (parseNumeric as written), and `Options.Checker` registers `Funcs.IsValidIranianIBAN` for the iban rule. The corrected coercion and the ISO IBAN check are separate members, with their properties proved beside the as-written ones.
