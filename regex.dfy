/**
  The fragment of Go's regexp syntax the format checkers use: a pattern
  anchored at both ends (`^...$`, where `$` is the end of the text) that is a
  concatenation of character classes, each repeated between a minimum and an
  optional maximum number of times (`[0-9]{9}`, `[0-9]{1,10}`, `[a-z]+`, a
  literal `0` being the class `[0-0]` repeated once).
 */
module Pattern {
  import opened Wrappers
  import opened Text

  /** One range `lo-hi` of a bracketed class. */
  datatype Range = Range(lo: char, hi: char)

  /** A class repeated `min` to `max` times; `max == None` is unbounded (`+` is {1,}). */
  datatype Piece = Piece(cls: seq<Range>, min: nat, max: Option<nat>)

  predicate InClass(c: char, cls: seq<Range>) {
    exists i :: 0 <= i < |cls| && cls[i].lo <= c <= cls[i].hi
  }

  predicate AllInClass(s: string, cls: seq<Range>) {
    forall i :: 0 <= i < |s| ==> InClass(s[i], cls)
  }

  /** MatchString of the anchored pattern `ps`: some split of `s` gives each piece an allowed number of its characters. */
  predicate Match(ps: seq<Piece>, s: string)
    decreases |ps|, |s|, 1
  {
    if ps == [] then s == []
    else Repeat(ps[0], ps[1..], s, 0)
  }

  /** `n` copies of `p` have been read: stop here and match `rest`, or read one more copy. */
  predicate Repeat(p: Piece, rest: seq<Piece>, s: string, n: nat)
    decreases |rest| + 1, |s|, 0
  {
    (n >= p.min && Match(rest, s))
    || (|s| > 0 && InClass(s[0], p.cls) && (p.max.None? || n < p.max.value) && Repeat(p, rest, s[1..], n + 1))
  }

  /** The last piece, after `n` copies: the remaining text is all of its class, and the total count is within bounds. */
  lemma {:induction false} RepeatLast(p: Piece, s: string, n: nat)
    requires p.max.None? || n <= p.max.value
    ensures Repeat(p, [], s, n) <==>
      AllInClass(s, p.cls) && n + |s| >= p.min && (p.max.None? || n + |s| <= p.max.value)
    decreases |s|
  {
    if s != [] && (p.max.None? || n < p.max.value) {
      RepeatLast(p, s[1..], n + 1);
      if AllInClass(s, p.cls) {
        assert AllInClass(s[1..], p.cls) by {
          forall i | 0 <= i < |s[1..]| ensures InClass(s[1..][i], p.cls) { assert s[1..][i] == s[i + 1]; }
        }
      }
      if Repeat(p, [], s, n) && !Match([], s) {
        assert InClass(s[0], p.cls);
        assert AllInClass(s, p.cls) by {
          forall i | 0 <= i < |s| ensures InClass(s[i], p.cls) {
            if i > 0 { assert s[i] == s[1..][i - 1]; }
          }
        }
      }
    }
  }

  /** A piece read exactly once: one character of its class, then the rest of the pattern. */
  lemma Single(cls: seq<Range>, rest: seq<Piece>, s: string)
    ensures Match([Piece(cls, 1, Some(1))] + rest, s) <==> |s| > 0 && InClass(s[0], cls) && Match(rest, s[1..])
  {
    var p := Piece(cls, 1, Some(1));
    var ps := [p] + rest;
    assert ps[0] == p && ps[1..] == rest;
    assert Match(ps, s) == Repeat(p, rest, s, 0);
    if |s| > 0 {
      assert Repeat(p, rest, s[1..], 1) == Match(rest, s[1..]);
    }
  }

  /** A single-piece pattern matches exactly the texts of its class of an allowed length. */
  lemma Only(p: Piece, s: string)
    ensures Match([p], s) <==> AllInClass(s, p.cls) && |s| >= p.min && (p.max.None? || |s| <= p.max.value)
  {
    assert [p][1..] == [];
    RepeatLast(p, s, 0);
  }

  /** `[0-9]` */
  const DigitClass: seq<Range> := [Range('0', '9')]

  /** A single literal character. */
  function Lit(c: char): seq<Range> {
    [Range(c, c)]
  }

  lemma DigitClassMeaning(s: string)
    ensures AllInClass(s, DigitClass) <==> AllDigits(s)
  {
    if AllDigits(s) {
      forall i | 0 <= i < |s| ensures InClass(s[i], DigitClass) { assert DigitClass[0].lo <= s[i] <= DigitClass[0].hi; }
    }
  }

  lemma LitMeaning(c: char, d: char)
    ensures InClass(d, Lit(c)) <==> d == c
  {
    if d == c { assert Lit(c)[0].lo <= d <= Lit(c)[0].hi; }
  }

  /** `[0-9]{n}` */
  function Digits(n: nat): Piece {
    Piece(DigitClass, n, Some(n))
  }

  /** A pattern of exactly `n` digits matches exactly the n-digit texts. */
  lemma DigitsMeaning(n: nat, s: string)
    ensures Match([Digits(n)], s) <==> |s| == n && AllDigits(s)
  {
    Only(Digits(n), s);
    DigitClassMeaning(s);
  }
}
