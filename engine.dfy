/**
  What the validator core sees of the go-playground validation engine: a
  registry of rule checkers, an optional tag-name function, and the outcome of
  one validation run (nil, a list of violations, or some other error). The
  engine's own validation logic is not modelled; its output is an input here.
 */
module Playground {
  import opened Wrappers

  /** A rule checker: the field's value as a string and the rule's parameter. */
  type Check = (string, string) -> bool

  /** reflect.StructField as the tag-name function sees it: the Go name and the parsed struct tag. */
  datatype StructField = StructField(name: string, tags: map<string, string>)

  /** reflect.StructTag.Get: the value under `key`, or "" when the key is absent. */
  function TagGet(f: StructField, key: string): (r: string)
    ensures key !in f.tags ==> r == ""
    ensures key in f.tags ==> r == f.tags[key]
  {
    if key in f.tags then f.tags[key] else ""
  }

  /**
    One validator.FieldError: Field() (the resolved name), StructField() (the
    Go name), Tag() (the failed rule), Param() and Error() (the engine's text).
   */
  datatype Record = Record(field: string, structField: string, tag: string, param: string, text: string)

  /** The error a validation run returns. */
  datatype Outcome = Nil | Violations(records: seq<Record>) | Other(error: string)

  /** validator.Validate: the parts of its state the core writes. */
  class Validate {
    var validations: map<string, Check>
    var tagNameFunc: Option<StructField -> string>

    constructor ()
      ensures validations == map[] && tagNameFunc == None
    {
      validations := map[];
      tagNameFunc := None;
    }

    /** RegisterValidation(tag, fn): `fn` becomes the checker of `tag`. */
    method RegisterValidation(tag: string, fn: Check)
      modifies this
      ensures validations == old(validations)[tag := fn]
      ensures tagNameFunc == old(tagNameFunc)
    {
      validations := validations[tag := fn];
    }

    /** RegisterTagNameFunc(fn): `fn` names the fields in later violations. */
    method RegisterTagNameFunc(fn: StructField -> string)
      modifies this
      ensures tagNameFunc == Some(fn)
      ensures validations == old(validations)
    {
      tagNameFunc := Some(fn);
    }
  }
}
