/**
  What the validator core sees of the goi18n translator: a registry of message
  templates keyed by (locale, key), and Plural, whose template lookup and
  substitution are not modelled and are given by the function `render`.
 */
module I18n {
  import opened Strconv

  /** A value passed to a template: a string, an int64 or a float64. */
  datatype Arg = Text(s: string) | Int(i: int) | Flt(f: Float)

  type Registry = map<(string, string), string>

  /** goi18n.Translator. */
  class Translator {
    var messages: Registry
    /** Plural's rendering: from the registry, the locale, the key, the count and the arguments. */
    const render: (Registry, string, string, int, map<string, Arg>) -> string

    constructor (render: (Registry, string, string, int, map<string, Arg>) -> string)
      ensures messages == map[] && this.render == render
    {
      messages := map[];
      this.render := render;
    }

    /** AddMessage(locale, key, message): registers `message` under (locale, key). */
    method AddMessage(locale: string, key: string, message: string)
      modifies this
      ensures messages == old(messages)[(locale, key) := message]
    {
      messages := messages[(locale, key) := message];
    }

    /** Plural(locale, key, count, args): the message rendered from the current registry. */
    function Plural(locale: string, key: string, count: int, args: map<string, Arg>): string
      reads this
    {
      render(messages, locale, key, count, args)
    }
  }

  /**
    `r` is `reg` after AddMessage(l, key, messages[l]) for the locales `l` of
    `messages` in `done`: those entries are set, every other entry of `reg`
    is kept, and nothing else is added.
   */
  predicate Registered(r: Registry, reg: Registry, messages: map<string, string>, key: string, done: set<string>) {
    && (forall l :: l in messages && l in done ==> (l, key) in r && r[(l, key)] == messages[l])
    && (forall k :: k in reg && !(k.1 == key && k.0 in messages && k.0 in done) ==> k in r && r[k] == reg[k])
    && (forall k :: k in r ==> k in reg || (k.1 == key && k.0 in messages && k.0 in done))
  }

  /** The registry after AddMessage(l, key, messages[l]) for every locale l of `messages`, in any order. */
  function Register(reg: Registry, messages: map<string, string>, key: string): (r: Registry)
    ensures Registered(r, reg, messages, key, messages.Keys)
  {
    map k | k in reg.Keys + (set l | l in messages :: (l, key)) :: if k.1 == key && k.0 in messages then messages[k.0] else reg[k]
  }

  /** Nothing registered yet. */
  lemma RegisteredNone(reg: Registry, messages: map<string, string>, key: string)
    ensures Registered(reg, reg, messages, key, {})
  {
  }

  /** One more AddMessage, for a locale of `messages`, registers one more locale. */
  lemma RegisteredStep(r: Registry, reg: Registry, messages: map<string, string>, key: string, done: set<string>, l: string)
    requires Registered(r, reg, messages, key, done) && l in messages
    ensures Registered(r[(l, key) := messages[l]], reg, messages, key, done + {l})
  {
  }

  /** Once every locale is registered, the order did not matter: the result is Register's. */
  lemma RegisteredAll(r: Registry, reg: Registry, messages: map<string, string>, key: string)
    requires Registered(r, reg, messages, key, messages.Keys)
    ensures r == Register(reg, messages, key)
  {
    var g := Register(reg, messages, key);
    assert r.Keys == g.Keys;
  }
}
