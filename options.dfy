/**
  The options of options.go and their application by NewValidator
  (validator.go): the struct-tag name resolver, WithTranslator, and the
  With*Validator options, which register a checker under a rule name with a
  default and register its messages with the translator set at that point.
 */
module Options {
  import opened Wrappers
  import opened Text
  import opened Utils
  import opened Playground
  import opened I18n
  import opened Driver
  import Funcs

  // ---------------------------------------------------------------------
  // WithFiberTagResolver

  /** The tag keys the resolver consults, highest priority first. */
  const TagPriority: seq<string> := ["field", "json", "form", "xml"]

  /** The name a tag gives: the text before its first comma ("" for an absent tag or `json:",omitempty"`). */
  function TagName(f: StructField, key: string): string {
    BeforeComma(TagGet(f, key))
  }

  /** The name-resolution closure of WithFiberTagResolver, as its if-chain reads. */
  function ResolveFieldName(f: StructField): (name: string)
    ensures name == "" || name == f.name || exists k :: k in TagPriority && name == TagName(f, k)
  {
    var name :=
      if TagName(f, "field") != "" then TagName(f, "field")
      else if TagName(f, "json") != "" then TagName(f, "json")
      else if TagName(f, "form") != "" then TagName(f, "form")
      else if TagName(f, "xml") != "" then TagName(f, "xml")
      else "";
    assert name != "" ==> exists k :: k in TagPriority && name == TagName(f, k) by {
      if name != "" {
        var k := if TagName(f, "field") != "" then "field"
          else if TagName(f, "json") != "" then "json"
          else if TagName(f, "form") != "" then "form"
          else "xml";
        assert k in TagPriority && name == TagName(f, k);
      }
    }
    if name == "-" then ""
    else if name != "" then name
    else f.name
  }

  /** The first non-empty tag name along a priority list, or "" when there is none. */
  function FirstTagName(f: StructField, keys: seq<string>): (n: string)
    ensures n == "" <==> forall k :: k in keys ==> TagName(f, k) == ""
  {
    if keys == [] then ""
    else if TagName(f, keys[0]) != "" then TagName(f, keys[0])
    else FirstTagName(f, keys[1..])
  }

  /**
    The resolver against the priority rule: the first non-empty tag name wins;
    "-" there means the field is ignored, whatever the lower tags say; with no
    name the Go field name is used.
   */
  lemma ResolveFieldNameByPriority(f: StructField)
    ensures var n := FirstTagName(f, TagPriority);
      ResolveFieldName(f) == (if n == "-" then "" else if n != "" then n else f.name)
  {
    var ks := TagPriority;
    assert ks[0] == "field" && ks[1..][0] == "json" && ks[2..][0] == "form" && ks[3..][0] == "xml";
    assert ks[1..] == ks[1..] && ks[1..][1..] == ks[2..] && ks[2..][1..] == ks[3..] && ks[3..][1..] == [];
    assert FirstTagName(f, ks[3..]) == TagName(f, "xml");
    assert FirstTagName(f, ks[2..]) == if TagName(f, "form") != "" then TagName(f, "form") else TagName(f, "xml");
  }

  /** A "-" field tag hides the field even when json, form or xml name it. */
  lemma DashIgnoresField(f: StructField)
    requires TagName(f, "field") == "-"
    ensures ResolveFieldName(f) == ""
  {
  }

  // ---------------------------------------------------------------------
  // Built-in rules

  /** The With*Validator options. */
  datatype Builtin =
    | Username | AlphaNumeric | AlphaNumericPersian | IranianPhone | IranianMobile | IranianPostalCode
    | IranianIdNumber | IranianNationalCode | IranianCreditNumber | IranianIBAN | Jalaali

  /** The rule name each option uses when none is given. */
  function DefaultRule(b: Builtin): (r: string)
    ensures r != [] && Trimmed(r)
  {
    match b
    case Username => "username"
    case AlphaNumeric => "alnum"
    case AlphaNumericPersian => "alnum_fa"
    case IranianPhone => "phone"
    case IranianMobile => "mobile"
    case IranianPostalCode => "postal_code"
    case IranianIdNumber => "id_number"
    case IranianNationalCode => "national_code"
    case IranianCreditNumber => "credit_number"
    case IranianIBAN => "iban"
    case Jalaali => "jalaali"
  }

  /** The English message each option registers when no messages are given. */
  function DefaultMessage(b: Builtin): string {
    match b
    case Username => "Only letters, numbers, and underscores are allowed"
    case AlphaNumeric => "Only english letters and numbers are allowed"
    case AlphaNumericPersian => "Only english letters, persian letters, and numbers are allowed"
    case IranianPhone => "Must be a valid 11-digit iranian phone number"
    case IranianMobile => "Must be a valid 11-digit iranian mobile number"
    case IranianPostalCode => "Must be a valid 10-digit iranian postal code"
    case IranianIdNumber => "Must be a valid iranian birth certificate number"
    case IranianNationalCode => "Must be a valid 10 digit iranian national id number"
    case IranianCreditNumber => "Must be a valid 16 digit iranian credit card number"
    case IranianIBAN => "Must be a valid 24 digit iranian IBAN number"
    case Jalaali => "Must be a valid jalaali datetime"
  }

  /**
    The checker each option registers, over the field's string value and the
    rule's parameter. The alphanumeric, ID-number and Jalaali checkers call
    code outside this model and are given as `external`.
   */
  function Checker(b: Builtin, external: Check): (c: Check)
    ensures b.Username? ==> forall v, p :: c(v, p) == Funcs.IsValidUsername(v)
    ensures b.IranianPhone? ==> forall v, p :: c(v, p) == Funcs.IsValidIranianPhone(v)
    ensures b.IranianMobile? ==> forall v, p :: c(v, p) == Funcs.IsValidIranianMobile(v)
    ensures b.IranianPostalCode? ==> forall v, p :: c(v, p) == Funcs.IsValidIranianPostalCode(v)
    ensures b.IranianNationalCode? ==> forall v, p :: c(v, p) == Funcs.NationalCodeValid(v)
    ensures b.IranianCreditNumber? ==> forall v, p :: c(v, p) == Funcs.BankCardValid(v)
    ensures b.IranianIBAN? ==> forall v, p :: c(v, p) == Funcs.IsValidIranianIBAN(v)
    ensures b.AlphaNumeric? || b.AlphaNumericPersian? || b.IranianIdNumber? || b.Jalaali? ==> c == external
  {
    match b
    case Username => (v: string, p: string) => Funcs.IsValidUsername(v)
    case IranianPhone => (v: string, p: string) => Funcs.IsValidIranianPhone(v)
    case IranianMobile => (v: string, p: string) => Funcs.IsValidIranianMobile(v)
    case IranianPostalCode => (v: string, p: string) => Funcs.IsValidIranianPostalCode(v)
    case IranianNationalCode => (v: string, p: string) => Funcs.NationalCodeValid(v)
    case IranianCreditNumber => (v: string, p: string) => Funcs.BankCardValid(v)
    case IranianIBAN => (v: string, p: string) => Funcs.IsValidIranianIBAN(v)
    case _ => external
  }

  // ---------------------------------------------------------------------
  // Options

  /** A rule name as a With*Validator option resolves it: trimmed and not empty. */
  type RuleTag = s: string | s != [] && Trimmed(s) witness "r"

  /** An option, by what its closure does to the validator. */
  datatype Opt =
    | SetTranslator(translator: Translator?, prefix: string)
    | TagResolver
    | AddRule(tag: RuleTag, messages: map<string, string>, check: Check)

  /** WithTranslator(translator, prefix): the prefix is trimmed when the option is made. */
  function WithTranslator(translator: Translator?, prefix: string): (o: Opt)
    ensures o.SetTranslator? && o.translator == translator
    ensures o.prefix == TrimSpace(prefix) && Trimmed(o.prefix)
  {
    SetTranslator(translator, TrimSpace(prefix))
  }

  /**
    With*Validator(messages, rule...): the first rule argument, trimmed, unless
    it is missing or blank, else the built-in rule name; the given messages, or
    the built-in English message under locale "" when the map is nil.
   */
  function WithValidator(b: Builtin, messages: Option<map<string, string>>, rule: seq<string>, external: Check): (o: Opt)
    ensures o.AddRule? && o.check == Checker(b, external)
    ensures |rule| > 0 && !AllSpace(rule[0]) ==> o.tag == TrimSpace(rule[0])
    ensures |rule| == 0 || AllSpace(rule[0]) ==> o.tag == DefaultRule(b)
    ensures messages.Some? ==> o.messages == messages.value
    ensures messages.None? ==> o.messages == map["" := DefaultMessage(b)]
  {
    ResolveParamsTrimmed(DefaultRule(b), rule);
    var msgs := ResolveMessages(messages, DefaultMessage(b));
    assert messages.None? ==> msgs == map["" := DefaultMessage(b)];
    AddRule(ResolveParams(DefaultRule(b), rule), msgs, Checker(b, external))
  }

  /** The translator and prefix in force. */
  datatype Setup = Setup(translator: Translator?, prefix: string)

  /** One option's effect on the translator and prefix. */
  function SetupOf(s: Setup, o: Opt): Setup {
    if o.SetTranslator? then Setup(o.translator, o.prefix) else s
  }

  /** The translator and prefix after the options, in order, from NewValidator's nil translator and empty prefix. */
  function SetupAfter(opts: seq<Opt>): (s: Setup)
    ensures s.translator == null || s.translator in Translators(opts)
    decreases |opts|
  {
    if opts == [] then Setup(null, "")
    else
      var s := SetupAfter(opts[..|opts| - 1]);
      assert Translators(opts[..|opts| - 1]) <= Translators(opts) by {
        forall t | t in Translators(opts[..|opts| - 1]) ensures t in Translators(opts) {
          var i :| 0 <= i < |opts| - 1 && opts[..|opts| - 1][i].SetTranslator? && opts[..|opts| - 1][i].translator != null && opts[..|opts| - 1][i].translator == t;
          assert opts[i] == opts[..|opts| - 1][i];
        }
      }
      SetupOf(s, opts[|opts| - 1])
  }

  /** The translators the options install. */
  function Translators(opts: seq<Opt>): set<Translator> {
    set i | 0 <= i < |opts| && opts[i].SetTranslator? && opts[i].translator != null :: opts[i].translator as Translator
  }

  /** The engine's rule registry after the options. */
  function RulesAfter(vs: map<string, Check>, opts: seq<Opt>): map<string, Check>
    decreases |opts|
  {
    if opts == [] then vs
    else
      var o := opts[|opts| - 1];
      var r := RulesAfter(vs, opts[..|opts| - 1]);
      if o.AddRule? then r[o.tag := o.check] else r
  }

  /** The engine's tag-name function after the options. */
  function TagFuncAfter(fn: Option<StructField -> string>, opts: seq<Opt>): Option<StructField -> string>
    decreases |opts|
  {
    if opts == [] then fn
    else if opts[|opts| - 1].TagResolver? then Some(ResolveFieldName)
    else TagFuncAfter(fn, opts[..|opts| - 1])
  }

  /** What one option does to the registry of translator `t`, with `s` in force. */
  function RegisterOne(reg: Registry, t: Translator, s: Setup, o: Opt): Registry {
    if o.AddRule? && s.translator == t then Register(reg, o.messages, Key(s.prefix, o.tag))
    else reg
  }

  /** The registry of translator `t` after the options. */
  function MessagesAfter(reg: Registry, t: Translator, opts: seq<Opt>): Registry
    decreases |opts|
  {
    if opts == [] then reg
    else RegisterOne(MessagesAfter(reg, t, opts[..|opts| - 1]), t, SetupAfter(opts[..|opts| - 1]), opts[|opts| - 1])
  }

  /**
    One option applied to the validator: WithTranslator sets the translator
    and prefix; WithFiberTagResolver registers the resolver; a With*Validator
    registers its checker, then each message, in map order, with AddTranslation.
   */
  method Apply(v: I18nValidator, o: Opt)
    modifies v, v.engine, v.translator
    ensures Setup(v.translator, v.prefix) == SetupOf(old(Setup(v.translator, v.prefix)), o)
    ensures v.engine.validations == RulesAfter(old(v.engine.validations), [o])
    ensures v.engine.tagNameFunc == TagFuncAfter(old(v.engine.tagNameFunc), [o])
    ensures old(v.translator) != null ==>
      old(v.translator).messages == RegisterOne(old(v.translator.messages), old(v.translator), old(Setup(v.translator, v.prefix)), o)
  {
    assert [o][..0] == [];
    match o
    case SetTranslator(t, p) =>
      v.translator := t;
      v.prefix := p;
    case TagResolver =>
      v.engine.RegisterTagNameFunc(ResolveFieldName);
    case AddRule(tag, messages, check) =>
      TrimSpaceOfTrimmed(tag);
      v.AddValidation(tag, check);
      AddMessages(v, tag, messages);
  }

  /** The loop of a With*Validator option: AddTranslation(l, tag, m) for each (l, m) of `messages`, in any order. */
  method AddMessages(v: I18nValidator, tag: string, messages: map<string, string>)
    modifies v.translator
    ensures v.translator != null && TrimSpace(tag) != [] ==>
      v.translator.messages == Register(old(v.translator.messages), messages, Key(v.prefix, TrimSpace(tag)))
    ensures v.translator != null && TrimSpace(tag) == [] ==> v.translator.messages == old(v.translator.messages)
  {
    var t := v.translator;
    ghost var live := t != null && TrimSpace(tag) != [];
    ghost var start := if t != null then t.messages else map[];
    ghost var key := Key(v.prefix, TrimSpace(tag));
    ghost var done: set<string> := {};
    var todo := messages.Keys;
    RegisteredNone(start, messages, key);
    while todo != {}
      invariant todo <= messages.Keys && done == messages.Keys - todo
      invariant live ==> Registered(t.messages, start, messages, key, done)
      invariant t != null && !live ==> t.messages == start
      decreases todo
    {
      var l :| l in todo;
      if live {
        RegisteredStep(t.messages, start, messages, key, done, l);
      }
      v.AddTranslation(l, tag, messages[l]);
      todo := todo - {l};
      done := done + {l};
    }
    if live {
      RegisteredAll(t.messages, start, messages, key);
    }
  }

  /** NewValidator(validator, options...): a validator over `engine`, with the options applied left to right. */
  method NewValidator(engine: Validate, opts: seq<Opt>) returns (v: I18nValidator)
    modifies engine, Translators(opts)
    ensures fresh(v) && v.engine == engine
    ensures Setup(v.translator, v.prefix) == SetupAfter(opts)
    ensures engine.validations == RulesAfter(old(engine.validations), opts)
    ensures engine.tagNameFunc == TagFuncAfter(old(engine.tagNameFunc), opts)
    ensures forall t :: t in Translators(opts) ==> t.messages == MessagesAfter(old(t.messages), t, opts)
  {
    v := new I18nValidator(engine);
    var i := 0;
    while i < |opts|
      invariant 0 <= i <= |opts|
      invariant fresh(v) && v.engine == engine
      invariant Setup(v.translator, v.prefix) == SetupAfter(opts[..i])
      invariant engine.validations == RulesAfter(old(engine.validations), opts[..i])
      invariant engine.tagNameFunc == TagFuncAfter(old(engine.tagNameFunc), opts[..i])
      invariant forall t :: t in Translators(opts) ==> t.messages == MessagesAfter(old(t.messages), t, opts[..i])
    {
      assert opts[..i + 1][..i] == opts[..i];
      TranslatorsPrefix(opts, i);
      Apply(v, opts[i]);
      i := i + 1;
    }
    assert opts[..i] == opts;
  }

  lemma TranslatorsPrefix(opts: seq<Opt>, i: nat)
    requires i <= |opts|
    ensures Translators(opts[..i]) <= Translators(opts)
  {
    forall t | t in Translators(opts[..i]) ensures t in Translators(opts) {
      var j :| 0 <= j < i && opts[..i][j].SetTranslator? && opts[..i][j].translator != null && opts[..i][j].translator == t;
      assert opts[j] == opts[..i][j];
    }
  }

  // ---------------------------------------------------------------------
  // Properties of a sequence of options

  /** No WithTranslator among the options. */
  predicate NoTranslator(opts: seq<Opt>) {
    forall i :: 0 <= i < |opts| ==> !opts[i].SetTranslator?
  }

  /** Options before any WithTranslator leave no translator, no prefix and no registered message. */
  lemma {:induction false} Untranslated(reg: Registry, t: Translator, pre: seq<Opt>)
    requires NoTranslator(pre)
    ensures SetupAfter(pre) == Setup(null, "")
    ensures MessagesAfter(reg, t, pre) == reg
    decreases |pre|
  {
    if pre != [] {
      var q := pre[..|pre| - 1];
      assert NoTranslator(q) by {
        forall i | 0 <= i < |q| ensures !q[i].SetTranslator? { assert q[i] == pre[i]; }
      }
      Untranslated(reg, t, q);
    }
  }

  /** The translator and prefix after one more option. */
  lemma SetupAfterSnoc(init: seq<Opt>, o: Opt)
    ensures SetupAfter(init + [o]) == SetupOf(SetupAfter(init), o)
  {
    var q := init + [o];
    assert q[..|q| - 1] == init;
  }

  /** A translator's registry after one more option. */
  lemma MessagesAfterSnoc(reg: Registry, t: Translator, init: seq<Opt>, o: Opt)
    ensures MessagesAfter(reg, t, init + [o]) == RegisterOne(MessagesAfter(reg, t, init), t, SetupAfter(init), o)
  {
    var q := init + [o];
    assert q[..|q| - 1] == init;
  }

  /**
    Translations registered by With*Validator options placed before any
    WithTranslator are dropped: the translator, the prefix and every registry
    end as if those options were absent (their checkers still reach the engine).
   */
  lemma {:induction false} DroppedBeforeTranslator(reg: Registry, t: Translator, pre: seq<Opt>, post: seq<Opt>)
    requires NoTranslator(pre)
    ensures SetupAfter(pre + post) == SetupAfter(post)
    ensures MessagesAfter(reg, t, pre + post) == MessagesAfter(reg, t, post)
    decreases |post|
  {
    if post == [] {
      assert pre + post == pre;
      Untranslated(reg, t, pre);
    } else {
      var post0 := post[..|post| - 1];
      var last := post[|post| - 1];
      assert pre + post == (pre + post0) + [last];
      assert post == post0 + [last];
      DroppedBeforeTranslator(reg, t, pre, post0);
      SetupAfterSnoc(pre + post0, last);
      SetupAfterSnoc(post0, last);
      MessagesAfterSnoc(reg, t, pre + post0, last);
      MessagesAfterSnoc(reg, t, post0, last);
    }
  }

  /** The last WithTranslator wins: its translator and prefix are the ones in force. */
  lemma {:induction false} LaterTranslatorWins(pre: seq<Opt>, translator: Translator?, prefix: string, post: seq<Opt>)
    requires NoTranslator(post)
    ensures SetupAfter(pre + [SetTranslator(translator, prefix)] + post) == Setup(translator, prefix)
    decreases |post|
  {
    var w := SetTranslator(translator, prefix);
    if post == [] {
      assert pre + [w] + post == pre + [w];
      SetupAfterSnoc(pre, w);
    } else {
      var post0 := post[..|post| - 1];
      var last := post[|post| - 1];
      assert pre + [w] + post == (pre + [w] + post0) + [last];
      assert NoTranslator(post0) by {
        forall i | 0 <= i < |post0| ensures !post0[i].SetTranslator? { assert post0[i] == post[i]; }
      }
      LaterTranslatorWins(pre, translator, prefix, post0);
      SetupAfterSnoc(pre + [w] + post0, last);
    }
  }

  /** RulesAfter one more option. */
  lemma RulesAfterSnoc(vs: map<string, Check>, init: seq<Opt>, o: Opt)
    ensures RulesAfter(vs, init + [o])
         == if o.AddRule? then RulesAfter(vs, init)[o.tag := o.check] else RulesAfter(vs, init)
  {
    var q := init + [o];
    assert q[..|q| - 1] == init;
  }

  /** The checker of a rule is the one of the last option that registers that (trimmed) rule name. */
  lemma {:induction false} LastRuleWins(vs: map<string, Check>, pre: seq<Opt>, o: Opt, post: seq<Opt>)
    requires o.AddRule?
    requires forall i :: 0 <= i < |post| && post[i].AddRule? ==> post[i].tag != o.tag
    ensures o.tag in RulesAfter(vs, pre + [o] + post)
    ensures RulesAfter(vs, pre + [o] + post)[o.tag] == o.check
    decreases |post|
  {
    if post == [] {
      assert pre + [o] + post == pre + [o];
      RulesAfterSnoc(vs, pre, o);
    } else {
      var post0 := post[..|post| - 1];
      var last := post[|post| - 1];
      assert pre + [o] + post == (pre + [o] + post0) + [last];
      assert forall i :: 0 <= i < |post0| && post0[i].AddRule? ==> post0[i].tag != o.tag by {
        forall i | 0 <= i < |post0| ensures post0[i] == post[i] { }
      }
      LastRuleWins(vs, pre, o, post0);
      RulesAfterSnoc(vs, pre + [o] + post0, last);
    }
  }

  /** Once WithFiberTagResolver is among the options, the engine names fields with the resolver. */
  lemma {:induction false} TagResolverInstalled(fn: Option<StructField -> string>, opts: seq<Opt>, k: nat)
    requires k < |opts| && opts[k].TagResolver?
    ensures TagFuncAfter(fn, opts) == Some(ResolveFieldName)
    decreases |opts|
  {
    if k < |opts| - 1 {
      var q := opts[..|opts| - 1];
      assert q[k] == opts[k];
      TagResolverInstalled(fn, q, k);
    }
  }

  /** WithTranslator then one rule option with a trimmed non-blank rule name. */
  lemma TranslatorThenRule(vs: map<string, Check>, reg: Registry, t: Translator, prefix: string, o: Opt)
    requires o.AddRule?
    ensures RulesAfter(vs, [SetTranslator(t, prefix), o]) == vs[o.tag := o.check]
    ensures MessagesAfter(reg, t, [SetTranslator(t, prefix), o]) == Register(reg, o.messages, Key(prefix, o.tag))
  {
    var opts := [SetTranslator(t, prefix), o];
    assert opts[..1] == [SetTranslator(t, prefix)] && opts[..1][..0] == [];
    assert SetupAfter(opts[..1]) == Setup(t, prefix);
    assert MessagesAfter(reg, t, opts[..1]) == reg;
    assert RulesAfter(vs, opts[..1]) == vs;
  }

  /** Registering a one-locale map is one AddMessage. */
  lemma RegisterSingle(reg: Registry, l: string, m: string, key: string)
    ensures Register(reg, map[l := m], key) == reg[(l, key) := m]
  {
    RegisteredAll(reg[(l, key) := m], reg, map[l := m], key);
  }

  /**
    WithTranslator(t, prefix) followed by a With*Validator option given nil
    messages: the engine gets the option's checker under its rule, and the
    translator gets exactly one new message, the built-in English one, under
    locale "" and the prefixed rule key.
   */
  lemma DefaultTranslationEndToEnd(vs: map<string, Check>, reg: Registry, t: Translator, prefix: string, b: Builtin, rule: seq<string>, external: Check)
    ensures var o := WithValidator(b, None, rule, external);
      && RulesAfter(vs, [WithTranslator(t, prefix), o]) == vs[o.tag := Checker(b, external)]
      && MessagesAfter(reg, t, [WithTranslator(t, prefix), o]) == reg[("", Key(TrimSpace(prefix), o.tag)) := DefaultMessage(b)]
  {
    var o := WithValidator(b, None, rule, external);
    TranslatorThenRule(vs, reg, t, TrimSpace(prefix), o);
    RegisterSingle(reg, "", DefaultMessage(b), Key(TrimSpace(prefix), o.tag));
  }
}
