/**
  The helpers of utils.go: picking a default rule name or message, splitting a
  string into code points, and the coercion of a rule parameter to a number.
 */
module Utils {
  import opened Wrappers
  import opened Text
  import opened Strconv

  /**
    resolveParams(fallback, vals...): the first value, trimmed, unless it is
    missing or blank; the fallback otherwise. Later values are never looked at.
   */
  function ResolveParams(fallback: string, vals: seq<string>): (r: string)
    ensures |vals| > 0 && !AllSpace(vals[0]) ==> r == TrimSpace(vals[0]) && r != []
    ensures |vals| == 0 || AllSpace(vals[0]) ==> r == fallback
  {
    if |vals| > 0 then TrimSpaceEmpty(vals[0]); (if TrimSpace(vals[0]) != "" then TrimSpace(vals[0]) else fallback)
    else fallback
  }

  /** Only the first value is consulted. */
  lemma ResolveParamsFirstOnly(fallback: string, first: string, rest: seq<string>)
    ensures ResolveParams(fallback, [first] + rest) == ResolveParams(fallback, [first])
  {
  }

  /** The result is never blank when the fallback is not blank, and never has surrounding spaces when the fallback has none. */
  lemma ResolveParamsTrimmed(fallback: string, vals: seq<string>)
    requires Trimmed(fallback)
    ensures Trimmed(ResolveParams(fallback, vals))
    ensures fallback != [] ==> ResolveParams(fallback, vals) != []
  {
  }

  /**
    resolveMessages(messages, def): a present map (even an empty one) is
    returned as it is; a nil map becomes the single entry "" -> def.
   */
  function ResolveMessages(messages: Option<map<string, string>>, def: string): (r: map<string, string>)
    ensures messages.Some? ==> r == messages.value
    ensures messages.None? ==> r.Keys == {""} && r[""] == def
  {
    match messages
    case Some(m) => m
    case None => map["" := def]
  }

  /** The concatenation of a sequence of strings. */
  function Concat(parts: seq<string>): string {
    if parts == [] then [] else Concat(parts[..|parts| - 1]) + parts[|parts| - 1]
  }

  /** toChars: one single-code-point string per code point of `s`, in order. */
  method ToChars(s: string) returns (result: seq<string>)
    ensures |result| == |s|
    ensures forall i :: 0 <= i < |s| ==> result[i] == [s[i]]
    ensures Concat(result) == s
  {
    result := [];
    var i := 0;
    while i < |s|
      invariant 0 <= i <= |s|
      invariant |result| == i
      invariant forall k :: 0 <= k < i ==> result[k] == [s[k]]
      invariant Concat(result) == s[..i]
    {
      ghost var before := result;
      result := result + [[s[i]]];
      assert result[..|result| - 1] == before;
      assert s[..i + 1] == s[..i] + [s[i]];
      i := i + 1;
    }
    assert s[..i] == s;
  }

  /**
    The two pointers parseNumeric returns: `i` is the *int64, `f` the
    *float64, and None is Go's nil.
   */
  datatype Numeric = Numeric(i: Option<int>, f: Option<Float>)

  /**
    parseNumeric as written: it hands back the int64 when ParseInt FAILS, and
    (nil, nil) when it succeeds; the float is returned only when ParseInt
    succeeded and ParseFloat failed, carrying ParseFloat's error value 0.
   */
  function ParseNumeric(v: string): Numeric {
    var p := ParseInt(v);
    if p.err.Some? then Numeric(Some(p.value), None)
    else if !FloatSyntax(v) then Numeric(None, Some(Finite(0.0)))
    else Numeric(None, None)
  }

  /** The float pointer is never set: the float branch needs ParseInt to succeed and ParseFloat to fail. */
  lemma ParseNumericNeverFloat(v: string)
    ensures ParseNumeric(v).f == None
  {
    ParseIntMeaning(v);
    if IntSyntax(v) {
      IntSyntaxIsFloatSyntax(v);
    }
  }

  /** Every string ParseInt accepts (an optional sign and digits within int64) gives (nil, nil): it is NOT coerced. */
  lemma ParseNumericAccepted(v: string)
    requires IntSyntax(v) && InInt64(SignedValue(v))
    ensures ParseNumeric(v) == Numeric(None, None)
  {
    ParseIntMeaning(v);
    IntSyntaxIsFloatSyntax(v);
  }

  /**
    Every string ParseInt rejects gives a non-nil int pointer holding
    ParseInt's error value: 0 after a syntax error, the clamped bound after a
    range error.
   */
  lemma ParseNumericRejected(v: string)
    requires !(IntSyntax(v) && InInt64(SignedValue(v)))
    ensures ParseNumeric(v).i.Some? && ParseNumeric(v).f == None
    ensures IntSyntax(v) ==> ParseNumeric(v).i.value == if SignedValue(v) > 0 then MaxInt64 else MinInt64
    ensures !IntSyntax(v) && !LeadingOverflow(v) ==> ParseNumeric(v).i.value == 0
  {
    ParseIntMeaning(v);
  }

  /** Concrete cases: "5" is left uncoerced; "abc", "" and "5.7" all give the int pointer 0. */
  lemma ParseNumericExamples()
    ensures ParseNumeric("5") == Numeric(None, None)
    ensures ParseNumeric("abc") == Numeric(Some(0), None)
    ensures ParseNumeric("") == Numeric(Some(0), None)
    ensures ParseNumeric("5.7") == Numeric(Some(0), None)
  {
    ParseNumericAccepted("5");
    ParseNumericRejected("abc");
    ParseNumericRejected("");
    ParseNumericRejected("5.7");
  }

  /**
    The coercion the function's name and comment promise: the int64 when
    ParseInt succeeds, else the float64 when ParseFloat succeeds, else neither.
   */
  function ParseNumericIntended(v: string): (r: Numeric)
    ensures IntSyntax(v) && InInt64(SignedValue(v)) ==> r == Numeric(Some(SignedValue(v)), None)
    ensures !(IntSyntax(v) && InInt64(SignedValue(v))) ==> r.i == None && (r.f.Some? <==> FloatSyntax(v))
  {
    ParseIntMeaning(v);
    var p := ParseInt(v);
    if p.err.None? then Numeric(Some(p.value), None)
    else Numeric(None, ParseFloat(v))
  }

  /** The two readings disagree on every string ParseInt accepts, e.g. "5". */
  lemma ParseNumericDiffersFromIntended(v: string)
    requires IntSyntax(v) && InInt64(SignedValue(v))
    ensures ParseNumeric(v) != ParseNumericIntended(v)
  {
    ParseNumericAccepted(v);
  }
}
