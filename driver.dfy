/**
  I18nValidator of driver.go: registering rules and their translations,
  translating one violation through a fixed fallback chain, and folding the
  engine's violations into a fresh error aggregate.
 */
module Driver {
  import opened Wrappers
  import opened Text
  import opened Strconv
  import opened Utils
  import opened Aggregate
  import opened Playground
  import opened I18n

  /**
    The validated value as translate sees it: TranslateError when it implements
    Translatable, TranslateTitle when it implements TranslatableField.
   */
  datatype Value = Value(translateError: Option<(string, string, string) -> string>, translateTitle: Option<(string, string) -> string>)

  /** The translation key of `rule`: the rule itself, or "prefix.rule" under a non-empty prefix. */
  function Key(prefix: string, rule: string): string {
    if prefix == "" then rule else prefix + "." + rule
  }

  /** Under one prefix, different rules never share a translation key. */
  lemma KeyInjective(prefix: string, r1: string, r2: string)
    requires Key(prefix, r1) == Key(prefix, r2)
    ensures r1 == r2
  {
    if prefix != "" {
      var k := Key(prefix, r1);
      assert r1 == k[|prefix| + 1..] by {
        assert k == prefix + "." + r1;
      }
      assert r2 == k[|prefix| + 1..] by {
        assert k == prefix + "." + r2;
      }
    }
  }

  /** The message of the value's own TranslateError, or "" when it has none. */
  function HookMessage(value: Value, locale: string, rule: string, field: string): string {
    match value.translateError
    case Some(te) => te(locale, rule, field)
    case None => ""
  }

  /** The name shown in the message: a non-empty TranslateTitle, else `name`. */
  function DisplayName(value: Value, locale: string, field: string, name: string): (r: string)
    ensures r == name || (value.translateTitle.Some? && r == value.translateTitle.value(locale, field) != "")
  {
    match value.translateTitle
    case Some(tt) => if tt(locale, field) != "" then tt(locale, field) else name
    case None => name
  }

  /** The parameter and count derived from Param(). */
  datatype Coerced = Coerced(param: Arg, count: int)

  /** Go's int(f) on amd64: truncation toward zero; NaN, infinities and out-of-range values give the minimum int64. */
  function Trunc(f: Float): (r: int)
    ensures InInt64(r)
  {
    match f
    case Finite(x) =>
      var t := if x >= 0.0 then x.Floor else -((-x).Floor);
      if InInt64(t) then t else MinInt64
    case _ => MinInt64
  }

  /** driver.go:133-141: param and count from parseNumeric's two pointers, the int pointer first. */
  function FromNumeric(n: Numeric, p: string): Coerced {
    if n.i.Some? then Coerced(Int(n.i.value), n.i.value)
    else if n.f.Some? then Coerced(Flt(n.f.value), Trunc(n.f.value))
    else Coerced(Text(p), 0)
  }

  /** The coercion as written, over parseNumeric as written. */
  function Coerce(p: string): Coerced {
    FromNumeric(ParseNumeric(p), p)
  }

  /**
    What the coercion does as written: a parameter ParseInt accepts stays a
    string with count 0; any other parameter becomes ParseInt's error value.
   */
  lemma CoerceMeaning(p: string)
    ensures IntSyntax(p) && InInt64(SignedValue(p)) ==> Coerce(p) == Coerced(Text(p), 0)
    ensures !(IntSyntax(p) && InInt64(SignedValue(p))) ==> Coerce(p) == Coerced(Int(ParseInt(p).value), ParseInt(p).value)
    ensures !IntSyntax(p) && !LeadingOverflow(p) ==> Coerce(p) == Coerced(Int(0), 0)
  {
    ParseIntMeaning(p);
    if IntSyntax(p) && InInt64(SignedValue(p)) {
      ParseNumericAccepted(p);
    } else {
      ParseNumericRejected(p);
    }
  }

  /** The same branches over the intended parseNumeric (not what the translation path does). */
  function CoerceIntended(p: string): Coerced {
    FromNumeric(ParseNumericIntended(p), p)
  }

  /** With the intended parseNumeric, an int64 parameter is passed as that number and counts as itself. */
  lemma CoerceIntendedInt(p: string)
    requires IntSyntax(p) && InInt64(SignedValue(p))
    ensures CoerceIntended(p) == Coerced(Int(SignedValue(p)), SignedValue(p))
    ensures Coerce(p) == Coerced(Text(p), 0)
  {
    CoerceMeaning(p);
  }

  /**
    With the intended parseNumeric, a parameter that is not an int64 but
    parses as a float is passed as that float, its count truncated; any other
    parameter is passed as the string itself with count 0.
   */
  lemma CoerceIntendedOther(p: string)
    requires !(IntSyntax(p) && InInt64(SignedValue(p)))
    ensures FloatSyntax(p) ==> CoerceIntended(p) == Coerced(Flt(ParseFloat(p).value), Trunc(ParseFloat(p).value))
    ensures !FloatSyntax(p) ==> CoerceIntended(p) == Coerced(Text(p), 0)
  {
  }

  /** Which parse function: parseStructErrors, or parseVariableErrors with the caller's `name`. */
  datatype Target = StructTarget | VariableTarget(name: string)

  class I18nValidator {
    var prefix: string
    var translator: Translator?
    const engine: Validate

    /** NewValidator's initial state, before any option: no translator, empty prefix. */
    constructor (engine: Validate)
      ensures prefix == "" && translator == null && this.engine == engine
    {
      prefix := "";
      translator := null;
      this.engine := engine;
    }

    /** AddValidation(rule, f): registers `f` under the trimmed rule; a blank rule is ignored. */
    method AddValidation(rule: string, f: Check)
      modifies engine
      ensures TrimSpace(rule) == [] ==> engine.validations == old(engine.validations)
      ensures TrimSpace(rule) != [] ==> engine.validations == old(engine.validations)[TrimSpace(rule) := f]
      ensures engine.tagNameFunc == old(engine.tagNameFunc)
    {
      var r := TrimSpace(rule);
      if r == "" {
        return;
      }
      engine.RegisterValidation(r, f);
    }

    /**
      AddTranslation(locale, rule, message): registers `message` under the
      prefixed trimmed rule; ignored when the rule is blank or there is no translator.
     */
    method AddTranslation(locale: string, rule: string, message: string)
      modifies translator
      ensures translator != null && TrimSpace(rule) != [] ==>
        translator.messages == old(translator.messages)[(locale, Key(prefix, TrimSpace(rule))) := message]
      ensures translator != null && TrimSpace(rule) == [] ==> translator.messages == old(translator.messages)
    {
      var r := TrimSpace(rule);
      if r == "" || translator == null {
        return;
      }
      if prefix == "" {
        translator.AddMessage(locale, r, message);
      } else {
        translator.AddMessage(locale, prefix + "." + r, message);
      }
    }

    /**
      translate: "" without a translator; else the value's own non-empty
      TranslateError message; else Plural under the prefixed rule key, with the
      display name and the parameter as template arguments.
     */
    function Translate(locale: string, name: string, rule: string, field: string, param: Arg, value: Value, count: int): (r: string)
      reads this, translator
      ensures translator == null ==> r == ""
      ensures translator != null && HookMessage(value, locale, rule, field) != "" ==> r == HookMessage(value, locale, rule, field)
      ensures translator != null && HookMessage(value, locale, rule, field) == "" ==>
        r == translator.Plural(locale, Key(prefix, rule), count, map["field" := Text(DisplayName(value, locale, field, name)), "param" := param])
    {
      if translator == null then ""
      else if value.translateError.Some? && value.translateError.value(locale, rule, field) != "" then
        value.translateError.value(locale, rule, field)
      else
        var key := if prefix != "" then prefix + "." + rule else rule;
        var display := if value.translateTitle.Some? && value.translateTitle.value(locale, field) != "" then value.translateTitle.value(locale, field) else name;
        translator.Plural(locale, key, count, map["field" := Text(display), "param" := param])
    }

    /** The AddError call one violation record leads to. */
    function RecordEntry(locale: string, target: Target, value: Value, rec: Record): (e: Entry)
      reads this, translator
      ensures e.rule == rec.tag
      ensures translator == null ==> e == Entry(rec.field, rec.tag, rec.text)
      ensures translator != null && target.VariableTarget? ==> e.field == target.name
      ensures target.StructTarget? ==> e.field == rec.field
    {
      if translator == null then Entry(rec.field, rec.tag, rec.text)
      else
        var c := Coerce(rec.param);
        match target
        case StructTarget => Entry(rec.field, rec.tag, Translate(locale, rec.field, rec.tag, rec.structField, c.param, value, c.count))
        case VariableTarget(name) => Entry(name, rec.tag, Translate(locale, name, rec.tag, name, c.param, value, c.count))
    }

    /** The AddError calls of a whole violation list, in order. */
    function Entries(locale: string, target: Target, value: Value, records: seq<Record>): (es: seq<Entry>)
      reads this, translator
      ensures |es| == |records|
      ensures forall k :: 0 <= k < |records| ==> es[k] == RecordEntry(locale, target, value, records[k])
    {
      if records == [] then []
      else Entries(locale, target, value, records[..|records| - 1]) + [RecordEntry(locale, target, value, records[|records| - 1])]
    }

    /**
      parseStructErrors / parseVariableErrors: an empty aggregate for nil, an
      aggregate holding only the error when it is not a violation list, and
      otherwise one AddError per violation on a fresh empty aggregate.
     */
    method ParseErrors(locale: string, target: Target, value: Value, err: Outcome) returns (res: VErrors)
      ensures fresh(res) && res.Valid()
      ensures err.Nil? ==> res.interr == None && res.valerr == map[]
      ensures err.Other? ==> res.interr == Some(EngineError(err.error)) && res.valerr == map[]
      ensures err.Violations? ==> res.interr == None && res.valerr == AddAll(map[], Entries(locale, target, value, err.records))
    {
      if err.Nil? {
        res := new VErrors.NewEmptyError();
        return;
      }
      if err.Other? {
        res := new VErrors.NewError(Some(EngineError(err.error)));
        return;
      }
      res := new VErrors.NewEmptyError();
      var entries := Entries(locale, target, value, err.records);
      Fill(res, entries);
    }

    /** parseStructErrors(locale, value, err). */
    method ParseStructErrors(locale: string, value: Value, err: Outcome) returns (res: VErrors)
      ensures fresh(res) && res.Valid()
      ensures err.Nil? ==> res.interr == None && res.valerr == map[]
      ensures err.Other? ==> res.interr == Some(EngineError(err.error)) && res.valerr == map[]
      ensures err.Violations? ==> res.interr == None && res.valerr == AddAll(map[], Entries(locale, StructTarget, value, err.records))
    {
      res := ParseErrors(locale, StructTarget, value, err);
    }

    /** parseVariableErrors(locale, name, value, err). */
    method ParseVariableErrors(locale: string, name: string, value: Value, err: Outcome) returns (res: VErrors)
      ensures fresh(res) && res.Valid()
      ensures err.Nil? ==> res.interr == None && res.valerr == map[]
      ensures err.Other? ==> res.interr == Some(EngineError(err.error)) && res.valerr == map[]
      ensures err.Violations? ==> res.interr == None && res.valerr == AddAll(map[], Entries(locale, VariableTarget(name), value, err.records))
    {
      res := ParseErrors(locale, VariableTarget(name), value, err);
    }
  }

  /** The loop of the parse functions: one AddError per violation, in order. */
  method Fill(res: VErrors, entries: seq<Entry>)
    requires res.Valid()
    modifies res
    ensures res.Valid() && res.interr == old(res.interr)
    ensures res.valerr == AddAll(old(res.valerr), entries)
  {
    ghost var start := res.valerr;
    var i := 0;
    while i < |entries|
      invariant 0 <= i <= |entries|
      invariant res.Valid() && res.interr == old(res.interr)
      invariant res.valerr == AddAll(start, entries[..i])
    {
      AddAllStep(start, entries, i);
      res.AddError(entries[i].field, entries[i].rule, [entries[i].message]);
      i := i + 1;
    }
    assert entries[..i] == entries;
  }

  /** The field key a violation is filed under: Field(), except the caller's name on the translated variable path. */
  function FiledUnder(v: I18nValidator, target: Target, rec: Record): string
    reads v
  {
    if v.translator != null && target.VariableTarget? then target.name else rec.field
  }

  /** Every violation leaves its (field key, tag) pair failed. */
  lemma ViolationsFailed(v: I18nValidator, locale: string, target: Target, value: Value, records: seq<Record>, k: nat)
    requires k < |records|
    ensures FiledUnder(v, target, records[k]) in AddAll(map[], v.Entries(locale, target, value, records))
    ensures records[k].tag in AddAll(map[], v.Entries(locale, target, value, records))[FiledUnder(v, target, records[k])]
  {
    AddAllFailedOn(map[], v.Entries(locale, target, value, records), k);
    FiledUnderEntry(v, locale, target, value, records, k);
  }

  /** Nothing else fails: every failed pair comes from a violation. */
  lemma ViolationsOnly(v: I18nValidator, locale: string, target: Target, value: Value, records: seq<Record>, f: string, q: string)
    requires f in AddAll(map[], v.Entries(locale, target, value, records))
    requires q in AddAll(map[], v.Entries(locale, target, value, records))[f]
    ensures exists k :: 0 <= k < |records| && f == FiledUnder(v, target, records[k]) && q == records[k].tag
  {
    var es := v.Entries(locale, target, value, records);
    AddAllOnly(map[], es, f, q);
    var k :| 0 <= k < |es| && es[k].field == f && es[k].rule == q;
    FiledUnderEntry(v, locale, target, value, records, k);
  }

  /** The k-th AddError call files the k-th violation under FiledUnder, with its tag. */
  lemma FiledUnderEntry(v: I18nValidator, locale: string, target: Target, value: Value, records: seq<Record>, k: nat)
    requires k < |records|
    ensures v.Entries(locale, target, value, records)[k].field == FiledUnder(v, target, records[k])
    ensures v.Entries(locale, target, value, records)[k].rule == records[k].tag
  {
    assert v.Entries(locale, target, value, records)[k] == v.RecordEntry(locale, target, value, records[k]);
  }

  /** With a translator, parseVariableErrors files every violation under the caller's name. */
  lemma VariableErrorsUnderName(v: I18nValidator, locale: string, name: string, value: Value, records: seq<Record>)
    requires v.translator != null
    ensures AddAll(map[], v.Entries(locale, VariableTarget(name), value, records)).Keys <= {name}
  {
    var m := AddAll(map[], v.Entries(locale, VariableTarget(name), value, records));
    forall f | f in m
      ensures f == name
    {
      AddAllNoEmptyField(map[], v.Entries(locale, VariableTarget(name), value, records));
      var q :| q in m[f];
      ViolationsOnly(v, locale, VariableTarget(name), value, records, f, q);
    }
  }

  /**
    Without a translator, the stored message is the engine's Error() text of
    the last violation for that pair, trimmed as AddError trims every message.
   */
  lemma UntranslatedText(v: I18nValidator, locale: string, target: Target, value: Value, records: seq<Record>, k: nat)
    requires v.translator == null && k < |records|
    requires forall j :: k < j < |records| ==> (records[j].field, records[j].tag) != (records[k].field, records[k].tag)
    ensures records[k].field in AddAll(map[], v.Entries(locale, target, value, records))
    ensures records[k].tag in AddAll(map[], v.Entries(locale, target, value, records))[records[k].field]
    ensures AddAll(map[], v.Entries(locale, target, value, records))[records[k].field][records[k].tag] == ResolveParams("", [records[k].text])
  {
    AddAllLastWins(map[], v.Entries(locale, target, value, records), k);
  }

  /** A non-empty TranslateError message is returned verbatim, whatever the registry, prefix, name or count. */
  lemma HookWins(v: I18nValidator, locale: string, name: string, rule: string, field: string, param: Arg, value: Value, count: int)
    requires v.translator != null && HookMessage(value, locale, rule, field) != ""
    ensures v.Translate(locale, name, rule, field, param, value, count) == value.translateError.value(locale, rule, field)
  {
  }

  /** A non-empty TranslateTitle makes the caller's name irrelevant. */
  lemma TitleReplacesName(v: I18nValidator, locale: string, n1: string, n2: string, rule: string, field: string, param: Arg, value: Value, count: int)
    requires value.translateTitle.Some? && value.translateTitle.value(locale, field) != ""
    ensures v.Translate(locale, n1, rule, field, param, value, count) == v.Translate(locale, n2, rule, field, param, value, count)
  {
  }

  /**
    With a translator, the parameter reaches Plural as parseNumeric as written
    leaves it: a parameter ParseInt accepts (such as "5") as that text with
    count 0, a non-numeric one (such as "abc") as the int 0 with count 0.
   */
  lemma RecordEntryCoercion(v: I18nValidator, locale: string, target: Target, value: Value, rec: Record)
    requires v.translator != null
    ensures var name := if target.StructTarget? then rec.field else target.name;
      var field := if target.StructTarget? then rec.structField else target.name;
      IntSyntax(rec.param) && InInt64(SignedValue(rec.param)) ==>
        v.RecordEntry(locale, target, value, rec).message == v.Translate(locale, name, rec.tag, field, Text(rec.param), value, 0)
    ensures var name := if target.StructTarget? then rec.field else target.name;
      var field := if target.StructTarget? then rec.structField else target.name;
      !IntSyntax(rec.param) && !LeadingOverflow(rec.param) ==>
        v.RecordEntry(locale, target, value, rec).message == v.Translate(locale, name, rec.tag, field, Int(0), value, 0)
  {
    CoerceMeaning(rec.param);
  }
}
