/**
  The error aggregate of error.go: a map field -> (rule -> message) that
  AddError fills in place, an optional internal error, and the views derived
  from them. Go iterates maps in no fixed order, so the views are specified up
  to the order in which fields and rules are visited.
 */
module Aggregate {
  import opened Wrappers
  import opened Utils

  /** An internal (non-validation) error; only its text is modelled. */
  datatype EngineError = EngineError(text: string)

  /** field -> rule -> message */
  type FieldErrors = map<string, map<string, string>>

  /** No field maps to an empty rule map. */
  ghost predicate NoEmptyField(m: FieldErrors) {
    forall f :: f in m ==> m[f] != map[]
  }

  /** The change AddError makes to the map: the entry (field, rule) is set to `msg`. */
  function Insert(m: FieldErrors, field: string, rule: string, msg: string): (r: FieldErrors)
    ensures r.Keys == m.Keys + {field}
  {
    if field in m then m[field := m[field][rule := msg]] else m[field := map[rule := msg]]
  }

  /**
    Insert sets the one entry (field, rule), inserted or overwritten, keeps
    every other entry as it was, adds nothing else, and never leaves a field
    with an empty rule map.
   */
  lemma InsertEffect(m: FieldErrors, field: string, rule: string, msg: string)
    ensures var r := Insert(m, field, rule, msg);
      && rule in r[field] && r[field][rule] == msg
      && (forall f, q :: f in m && q in m[f] && (f, q) != (field, rule) ==> f in r && q in r[f] && r[f][q] == m[f][q])
      && (forall f, q :: f in r && q in r[f] ==> (f, q) == (field, rule) || (f in m && q in m[f]))
      && (NoEmptyField(m) ==> NoEmptyField(r))
  {
    var r := Insert(m, field, rule, msg);
    if field !in m {
      assert rule in r[field];
    }
  }

  /** One AddError call: field, rule and the (single) message argument. */
  datatype Entry = Entry(field: string, rule: string, message: string)

  /** The map after AddError(e.field, e.rule, e.message) for each entry in turn. */
  function AddAll(m: FieldErrors, es: seq<Entry>): FieldErrors
  {
    if es == [] then m
    else
      var e := es[|es| - 1];
      Insert(AddAll(m, es[..|es| - 1]), e.field, e.rule, ResolveParams("", [e.message]))
  }

  /** One more call: the fold over the first i + 1 entries inserts entry i into the fold over the first i. */
  lemma AddAllStep(m: FieldErrors, es: seq<Entry>, i: nat)
    requires i < |es|
    ensures AddAll(m, es[..i + 1]) == Insert(AddAll(m, es[..i]), es[i].field, es[i].rule, ResolveParams("", [es[i].message]))
  {
    assert es[..i + 1][..i] == es[..i];
  }

  /** Adding keeps every field's rule map non-empty. */
  lemma {:induction false} AddAllNoEmptyField(m: FieldErrors, es: seq<Entry>)
    requires NoEmptyField(m)
    ensures NoEmptyField(AddAll(m, es))
  {
    if es != [] {
      var e := es[|es| - 1];
      AddAllNoEmptyField(m, es[..|es| - 1]);
      InsertEffect(AddAll(m, es[..|es| - 1]), e.field, e.rule, ResolveParams("", [e.message]));
    }
  }

  /** After the calls, every added (field, rule) pair is present. */
  lemma {:induction false} AddAllFailedOn(m: FieldErrors, es: seq<Entry>, k: nat)
    requires k < |es|
    ensures es[k].field in AddAll(m, es) && es[k].rule in AddAll(m, es)[es[k].field]
  {
    var e := es[|es| - 1];
    InsertEffect(AddAll(m, es[..|es| - 1]), e.field, e.rule, ResolveParams("", [e.message]));
    if k < |es| - 1 {
      AddAllFailedOn(m, es[..|es| - 1], k);
    }
  }

  /**
    Last write wins: the message stored for a pair is the trimmed message of
    the last call that named that pair.
   */
  lemma {:induction false} AddAllLastWins(m: FieldErrors, es: seq<Entry>, k: nat)
    requires k < |es|
    requires forall j :: k < j < |es| ==> (es[j].field, es[j].rule) != (es[k].field, es[k].rule)
    ensures es[k].field in AddAll(m, es) && es[k].rule in AddAll(m, es)[es[k].field]
    ensures AddAll(m, es)[es[k].field][es[k].rule] == ResolveParams("", [es[k].message])
  {
    var e := es[|es| - 1];
    InsertEffect(AddAll(m, es[..|es| - 1]), e.field, e.rule, ResolveParams("", [e.message]));
    if k < |es| - 1 {
      AddAllLastWins(m, es[..|es| - 1], k);
    }
  }

  /** Nothing else appears: each pair of the result was already there or was added by some call. */
  lemma {:induction false} AddAllOnly(m: FieldErrors, es: seq<Entry>, f: string, q: string)
    requires f in AddAll(m, es) && q in AddAll(m, es)[f]
    ensures (f in m && q in m[f]) || exists j :: 0 <= j < |es| && es[j].field == f && es[j].rule == q
  {
    if es != [] {
      var e := es[|es| - 1];
      InsertEffect(AddAll(m, es[..|es| - 1]), e.field, e.rule, ResolveParams("", [e.message]));
      if (f, q) != (e.field, e.rule) {
        AddAllOnly(m, es[..|es| - 1], f, q);
        if !(f in m && q in m[f]) {
          var j :| 0 <= j < |es| - 1 && es[..|es| - 1][j].field == f && es[..|es| - 1][j].rule == q;
          assert es[j] == es[..|es| - 1][j];
        }
      }
    }
  }

  /** Pairs not named by any call keep what they had. */
  lemma {:induction false} AddAllUntouched(m: FieldErrors, es: seq<Entry>, f: string, q: string)
    requires f in m && q in m[f]
    requires forall j :: 0 <= j < |es| ==> (es[j].field, es[j].rule) != (f, q)
    ensures f in AddAll(m, es) && q in AddAll(m, es)[f] && AddAll(m, es)[f][q] == m[f][q]
  {
    if es != [] {
      var e := es[|es| - 1];
      AddAllUntouched(m, es[..|es| - 1], f, q);
      InsertEffect(AddAll(m, es[..|es| - 1]), e.field, e.rule, ResolveParams("", [e.message]));
    }
  }

  // ---- views ----

  /** The messages of `errs`, taken in the rule order `order`. */
  function Values(errs: map<string, string>, order: seq<string>): (r: seq<string>)
    requires forall j :: 0 <= j < |order| ==> order[j] in errs
    ensures |r| == |order| && forall j :: 0 <= j < |order| ==> r[j] == errs[order[j]]
  {
    if order == [] then [] else Values(errs, order[..|order| - 1]) + [errs[order[|order| - 1]]]
  }

  /** `xs` lists every element of `s` exactly once. */
  ghost predicate IsOrder(xs: seq<string>, s: set<string>) {
    multiset(xs) == multiset(s)
  }

  /** An order of a set has one position per element, and holds only elements of the set. */
  lemma IsOrderSize(xs: seq<string>, s: set<string>)
    requires IsOrder(xs, s)
    ensures |xs| == |s|
    ensures forall j :: 0 <= j < |xs| ==> xs[j] in s
  {
    assert |multiset(xs)| == |xs| && |multiset(s)| == |s|;
    forall j | 0 <= j < |xs|
      ensures xs[j] in s
    {
      assert xs[j] in multiset(xs);
    }
  }

  /** Visiting one more element of `all` extends an order of the visited part. */
  lemma OrderStep(xs: seq<string>, all: set<string>, todo: set<string>, x: string)
    requires todo <= all && x in todo && multiset(xs) == multiset(all - todo)
    ensures multiset(xs + [x]) == multiset(all - (todo - {x}))
  {
    assert all - (todo - {x}) == (all - todo) + {x};
  }

  /** Visits the rules of `errs` in some order, collecting the rule names. */
  method ListRules(errs: map<string, string>) returns (rules: seq<string>)
    ensures IsOrder(rules, errs.Keys)
    ensures forall j :: 0 <= j < |rules| ==> rules[j] in errs
  {
    rules := [];
    var rest := errs.Keys;
    while rest != {}
      invariant rest <= errs.Keys
      invariant multiset(rules) == multiset(errs.Keys - rest)
      invariant forall j :: 0 <= j < |rules| ==> rules[j] in errs
      decreases rest
    {
      var rule :| rule in rest;
      OrderStep(rules, errs.Keys, rest, rule);
      rules := rules + [rule];
      rest := rest - {rule};
    }
    assert errs.Keys - rest == errs.Keys;
  }

  /** Visits the rules of `errs` in some order, collecting their messages. */
  method ListMessages(errs: map<string, string>) returns (messages: seq<string>, ghost order: seq<string>)
    ensures IsOrder(order, errs.Keys)
    ensures forall j :: 0 <= j < |order| ==> order[j] in errs
    ensures messages == Values(errs, order)
  {
    messages := [];
    order := [];
    var rest := errs.Keys;
    while rest != {}
      invariant rest <= errs.Keys
      invariant multiset(order) == multiset(errs.Keys - rest)
      invariant forall j :: 0 <= j < |order| ==> order[j] in errs
      invariant messages == Values(errs, order)
      decreases rest
    {
      var rule :| rule in rest;
      OrderStep(order, errs.Keys, rest, rule);
      messages := messages + [errs[rule]];
      order := order + [rule];
      assert order[..|order| - 1] == order[..|order| - 1];
      rest := rest - {rule};
    }
    assert errs.Keys - rest == errs.Keys;
  }

  /** Visits the rules of `errs` in some order, writing one "    rule: message" line each. */
  method WriteRules(errs: map<string, string>) returns (text: string, ghost order: seq<string>)
    ensures IsOrder(order, errs.Keys)
    ensures forall j :: 0 <= j < |order| ==> order[j] in errs
    ensures text == RuleLines(errs, order)
  {
    text := [];
    order := [];
    var rest := errs.Keys;
    while rest != {}
      invariant rest <= errs.Keys
      invariant multiset(order) == multiset(errs.Keys - rest)
      invariant forall j :: 0 <= j < |order| ==> order[j] in errs
      invariant text == RuleLines(errs, order)
      decreases rest
    {
      var rule :| rule in rest;
      OrderStep(order, errs.Keys, rest, rule);
      text := text + "    " + rule + ": " + errs[rule] + "\n";
      order := order + [rule];
      assert order[..|order| - 1] == order[..|order| - 1];
      rest := rest - {rule};
    }
    assert errs.Keys - rest == errs.Keys;
  }

  /** The rendering of the rules `rules` of one field: one "    rule: message" line each. */
  function RuleLines(errs: map<string, string>, rules: seq<string>): string
    requires forall i :: 0 <= i < |rules| ==> rules[i] in errs
  {
    if rules == [] then []
    else
      var r := rules[|rules| - 1];
      RuleLines(errs, rules[..|rules| - 1]) + "    " + r + ": " + errs[r] + "\n"
  }

  /** The rendering of the fields `fields`, the i-th with its rules in the order `orders[i]`. */
  function Render(m: FieldErrors, fields: seq<string>, orders: seq<seq<string>>): string
    requires Listed(m, fields, orders)
  {
    if fields == [] then []
    else
      var n := |fields| - 1;
      Render(m, fields[..n], orders[..n]) + fields[n] + ":\n" + RuleLines(m[fields[n]], orders[n])
  }

  /** `orders[i]` lists the rules of field `fields[i]` of `m` once each. */
  ghost predicate Listed(m: FieldErrors, fields: seq<string>, orders: seq<seq<string>>) {
    && |fields| == |orders|
    && (forall i :: 0 <= i < |fields| ==> fields[i] in m && IsOrder(orders[i], m[fields[i]].Keys))
    && (forall i :: 0 <= i < |fields| ==> forall j :: 0 <= j < |orders[i]| ==> orders[i][j] in m[fields[i]])
  }

  /** Moreover `fields` lists the fields of `m` once each. */
  ghost predicate Layout(m: FieldErrors, fields: seq<string>, orders: seq<seq<string>>) {
    Listed(m, fields, orders) && IsOrder(fields, m.Keys)
  }

  /** Rendering one more field appends its header line and its rule lines. */
  lemma RenderAppend(m: FieldErrors, fields: seq<string>, orders: seq<seq<string>>, field: string, order: seq<string>)
    requires Listed(m, fields, orders)
    requires field in m && IsOrder(order, m[field].Keys) && forall j :: 0 <= j < |order| ==> order[j] in m[field]
    ensures Listed(m, fields + [field], orders + [order])
    ensures Render(m, fields + [field], orders + [order]) == Render(m, fields, orders) + field + ":\n" + RuleLines(m[field], order)
  {
    assert (fields + [field])[..|fields|] == fields && (orders + [order])[..|orders|] == orders;
  }

  /** How many times `c` occurs in `s`. */
  function Count(c: char, s: string): nat {
    if s == [] then 0 else Count(c, s[..|s| - 1]) + (if s[|s| - 1] == c then 1 else 0)
  }

  /** A character that does not occur is counted zero times. */
  lemma {:induction false} CountAbsent(c: char, s: string)
    requires forall i :: 0 <= i < |s| ==> s[i] != c
    ensures Count(c, s) == 0
  {
    if s != [] {
      CountAbsent(c, s[..|s| - 1]);
    }
  }

  lemma {:induction false} CountAppend(c: char, a: string, b: string)
    ensures Count(c, a + b) == Count(c, a) + Count(c, b)
    decreases |b|
  {
    if b == [] {
      assert a + b == a;
    } else {
      assert (a + b)[..|a + b| - 1] == a + b[..|b| - 1];
      CountAppend(c, a, b[..|b| - 1]);
    }
  }

  /** No field, rule or message contains a line break. */
  ghost predicate SingleLine(m: FieldErrors) {
    forall f :: f in m ==> Count('\n', f) == 0 && forall r :: r in m[f] ==> Count('\n', r) == 0 && Count('\n', m[f][r]) == 0
  }

  /** The number of rules of the listed fields. */
  function RuleCount(m: FieldErrors, fields: seq<string>): nat
    requires forall i :: 0 <= i < |fields| ==> fields[i] in m
  {
    if fields == [] then 0 else RuleCount(m, fields[..|fields| - 1]) + |m[fields[|fields| - 1]]|
  }

  /** One rule line adds exactly one line break. */
  lemma RuleLineCount(head: string, r: string, msg: string)
    requires Count('\n', r) == 0 && Count('\n', msg) == 0
    ensures Count('\n', head + "    " + r + ": " + msg + "\n") == Count('\n', head) + 1
  {
    CountAbsent('\n', "    ");
    CountAbsent('\n', ": ");
    assert Count('\n', "\n") == Count('\n', "\n"[..0]) + 1;
    CountAppend('\n', head + "    " + r + ": " + msg, "\n");
    CountAppend('\n', head + "    " + r + ": ", msg);
    CountAppend('\n', head + "    " + r, ": ");
    CountAppend('\n', head + "    ", r);
    CountAppend('\n', head, "    ");
  }

  /** One field header adds exactly one line break before the field's rule lines. */
  lemma FieldLineCount(head: string, f: string, body: string)
    requires Count('\n', f) == 0
    ensures Count('\n', head + f + ":\n" + body) == Count('\n', head) + 1 + Count('\n', body)
  {
    CountAbsent('\n', ":");
    CountAppend('\n', ":", "\n");
    assert Count('\n', "\n") == Count('\n', "\n"[..0]) + 1;
    CountAppend('\n', head + f + ":\n", body);
    CountAppend('\n', head + f, ":\n");
    CountAppend('\n', head, f);
  }

  lemma {:induction false} RuleLinesCount(errs: map<string, string>, rules: seq<string>)
    requires forall i :: 0 <= i < |rules| ==> rules[i] in errs
    requires forall r :: r in errs ==> Count('\n', r) == 0 && Count('\n', errs[r]) == 0
    ensures Count('\n', RuleLines(errs, rules)) == |rules|
  {
    if rules != [] {
      var r := rules[|rules| - 1];
      RuleLinesCount(errs, rules[..|rules| - 1]);
      RuleLineCount(RuleLines(errs, rules[..|rules| - 1]), r, errs[r]);
    }
  }

  /**
    The text rendering has one line per field and one per (field, rule) pair,
    provided no field, rule or message contains a line break itself.
   */
  lemma {:induction false} RenderLineCount(m: FieldErrors, fields: seq<string>, orders: seq<seq<string>>)
    requires Layout(m, fields, orders)
    requires SingleLine(m)
    ensures Count('\n', Render(m, fields, orders)) == |m| + RuleCount(m, fields)
  {
    assert |multiset(fields)| == |fields| && |multiset(m.Keys)| == |m.Keys|;
    RenderLineCountPrefix(m, fields, orders);
  }

  lemma {:induction false} RenderLineCountPrefix(m: FieldErrors, fields: seq<string>, orders: seq<seq<string>>)
    requires Listed(m, fields, orders)
    requires SingleLine(m)
    ensures Count('\n', Render(m, fields, orders)) == |fields| + RuleCount(m, fields)
  {
    if fields != [] {
      var n := |fields| - 1;
      var f := fields[n];
      assert Listed(m, fields[..n], orders[..n]);
      RenderLineCountPrefix(m, fields[..n], orders[..n]);
      RuleLinesCount(m[f], orders[n]);
      IsOrderSize(orders[n], m[f].Keys);
      FieldLineCount(Render(m, fields[..n], orders[..n]), f, RuleLines(m[f], orders[n]));
    }
  }

  /** vErrors: the aggregate one validation call fills and returns. */
  class VErrors {
    var interr: Option<EngineError>
    var valerr: FieldErrors

    /** Every failed field has at least one failed rule. */
    ghost predicate Valid()
      reads this
    {
      NoEmptyField(valerr)
    }

    /** NewError(err): an aggregate holding only `err` (which may itself be nil). */
    constructor NewError(err: Option<EngineError>)
      ensures Valid() && interr == err && valerr == map[]
    {
      interr := err;
      valerr := map[];
    }

    /** NewEmptyError(): an aggregate with neither an internal error nor validation errors. */
    constructor NewEmptyError()
      ensures Valid() && interr == None && valerr == map[]
    {
      interr := None;
      valerr := map[];
    }

    predicate HasError()
      reads this
    {
      interr.Some? || |valerr| > 0
    }

    predicate HasInternalError()
      reads this
    {
      interr.Some?
    }

    predicate HasValidationErrors()
      reads this
    {
      |valerr| > 0
    }

    predicate IsFailed(field: string)
      reads this
    {
      field in valerr
    }

    /** A lookup in a missing field's (nil) map finds nothing. */
    predicate IsFailedOn(field: string, rule: string)
      reads this
    {
      field in valerr && rule in valerr[field]
    }

    function InternalError(): Option<EngineError>
      reads this
    {
      interr
    }

    function Errors(): FieldErrors
      reads this
    {
      valerr
    }

    /** AddError(field, rule, message...): stores resolveParams("", message...) under (field, rule). */
    method AddError(field: string, rule: string, message: seq<string>)
      requires Valid()
      modifies this
      ensures Valid()
      ensures interr == old(interr)
      ensures valerr == Insert(old(valerr), field, rule, ResolveParams("", message))
      ensures IsFailed(field) && IsFailedOn(field, rule)
    {
      var msg := ResolveParams("", message);
      InsertEffect(valerr, field, rule, msg);
      if field in valerr {
        valerr := valerr[field := valerr[field][rule := msg]];
      } else {
        valerr := valerr[field := map[rule := msg]];
      }
    }

    /** Messages(): for each failed field, the messages of its rules, in some rule order. */
    method Messages() returns (messages: map<string, seq<string>>)
      ensures messages.Keys == valerr.Keys
      ensures forall f :: f in messages ==>
        exists order :: IsOrder(order, valerr[f].Keys) && (forall j :: 0 <= j < |order| ==> order[j] in valerr[f]) && messages[f] == Values(valerr[f], order)
    {
      messages := map[];
      var todo := valerr.Keys;
      while todo != {}
        invariant todo <= valerr.Keys
        invariant messages.Keys == valerr.Keys - todo
        invariant forall f :: f in messages ==>
          exists order :: IsOrder(order, valerr[f].Keys) && (forall j :: 0 <= j < |order| ==> order[j] in valerr[f]) && messages[f] == Values(valerr[f], order)
        decreases todo
      {
        var field :| field in todo;
        var list, order := ListMessages(valerr[field]);
        messages := messages[field := list];
        todo := todo - {field};
      }
    }

    /** Rules(): for each failed field, its rules in some order, each once. */
    method Rules() returns (rules: map<string, seq<string>>)
      ensures rules.Keys == valerr.Keys
      ensures forall f :: f in rules ==> IsOrder(rules[f], valerr[f].Keys)
    {
      rules := map[];
      var todo := valerr.Keys;
      while todo != {}
        invariant todo <= valerr.Keys
        invariant rules.Keys == valerr.Keys - todo
        invariant forall f :: f in rules ==> IsOrder(rules[f], valerr[f].Keys)
        decreases todo
      {
        var field :| field in todo;
        var list := ListRules(valerr[field]);
        rules := rules[field := list];
        todo := todo - {field};
      }
    }

    /**
      String(): "field:" on a line of its own for each field, followed by one
      "    rule: message" line for each of its rules; fields and rules in some order.
     */
    method String() returns (s: string)
      ensures exists fields, orders :: Layout(valerr, fields, orders) && s == Render(valerr, fields, orders)
    {
      s := [];
      ghost var fields: seq<string> := [];
      ghost var orders: seq<seq<string>> := [];
      var todo := valerr.Keys;
      while todo != {}
        invariant todo <= valerr.Keys
        invariant Listed(valerr, fields, orders)
        invariant multiset(fields) == multiset(valerr.Keys - todo)
        invariant s == Render(valerr, fields, orders)
        decreases todo
      {
        var field :| field in todo;
        var block, order := WriteRules(valerr[field]);
        RenderAppend(valerr, fields, orders, field, order);
        OrderStep(fields, valerr.Keys, todo, field);
        s := s + field + ":\n" + block;
        fields := fields + [field];
        orders := orders + [order];
        todo := todo - {field};
      }
      assert valerr.Keys - todo == valerr.Keys;
    }
  }

  /** HasError is exactly "an internal error or some validation error". */
  lemma HasErrorIsEither(e: VErrors)
    ensures e.HasError() <==> e.HasInternalError() || e.HasValidationErrors()
  {
  }

  /** A fresh empty aggregate reports no error of any kind; one made by NewError reports only the internal one. */
  lemma NewAggregates(err: EngineError)
    ensures forall e: VErrors :: e.interr == None && e.valerr == map[] ==>
      !e.HasError() && !e.HasInternalError() && !e.HasValidationErrors()
    ensures forall e: VErrors :: e.interr == Some(err) && e.valerr == map[] ==>
      e.HasError() && e.HasInternalError() && !e.HasValidationErrors()
  {
  }

  /** Under the invariant, a field has failed exactly when it has failed on some rule. */
  lemma FailedIffSomeRule(e: VErrors, field: string)
    requires e.Valid()
    ensures e.IsFailed(field) <==> exists rule :: e.IsFailedOn(field, rule)
  {
    if e.IsFailed(field) {
      var rule :| rule in e.valerr[field];
      assert e.IsFailedOn(field, rule);
    }
  }

  /** Under the invariant, there are validation errors exactly when some (field, rule) pair has failed. */
  lemma ValidationErrorsIffSomePair(e: VErrors)
    requires e.Valid()
    ensures e.HasValidationErrors() <==> exists field, rule :: e.IsFailedOn(field, rule)
  {
    if e.HasValidationErrors() {
      var field :| field in e.valerr;
      var rule :| rule in e.valerr[field];
      assert e.IsFailedOn(field, rule);
    }
  }
}
