/**
  The segment parser `parse_name_` (blockscope.py:63-84): one comma-separated
  segment of a specifier string becomes a token (name, modifier), or an error.
 */
module Specifier {
  import opened Wrappers
  import opened Objects
  import opened Text

  /** No modifier, `?` (optional), `~` (None when absent), `*` (wildcard). */
  datatype Modifier = Plain | Opt | Def | Wild

  /** `(name, modifier)`; the wildcard token carries no name, `(None, '*')`. */
  datatype Token = Token(name: Option<string>, mfr: Modifier)

  /** The character that spells a modifier at the end of a segment. */
  function Suffix(m: Modifier): (r: string) {
    match m
    case Plain => ""
    case Opt => "?"
    case Def => "~"
    case Wild => "*"
  }

  /** The trimmed segment `t` ends with the modifier character `c`. */
  predicate Marked(t: string, c: char) {
    t != [] && t[|t| - 1] == c
  }

  /** What precedes the last character of `t`, right-trimmed. */
  function Front(t: string): (r: string)
    requires t != []
    ensures |r| < |t| && r == t[..|r|]
  {
    RStrip(t[..|t| - 1])
  }

  /** What a parse result always satisfies: the wildcard, and only it, has no
      name; every name is an identifier; `~` never stands on `_`; every error
      is a grammar error. */
  predicate WellFormed(p: Result<Token, Error>) {
    match p
    case Success(tok) =>
      (tok.name.None? <==> tok.mfr == Wild) &&
      (tok.name.Some? ==> IsIdentifier(tok.name.value)) &&
      (tok.mfr == Def ==> tok.name != Some("_"))
    case Failure(e) => IsGrammarError(e)
  }

  type Parsed = p: Result<Token, Error> | WellFormed(p) witness Failure(EmptyName)

  /** `parse_name_`: trim the segment, reject it when nothing is left, and
      classify what remains. */
  function ParseSegment(seg: string): (r: Parsed)
    ensures r == Failure(EmptyName) <==> Strip(seg) == []
    ensures Strip(seg) != [] ==> r == Classify(Strip(seg))
  {
    var t := Strip(seg);
    if |t| == 0 then Failure(EmptyName)
    else
      var r := Classify(t);
      assert r.Failure? ==> r.error != EmptyName;
      r
  }

  /** The rest of `parse_name_`, on a trimmed, non-empty segment `t`: split
      off a trailing `?` or `~` and right-trim what is left; a trailing `*`
      must stand alone or after `_`; any name must be an identifier. */
  function Classify(t: string): (r: Parsed)
    requires t != [] && Trimmed(t)
    // a '?' or '~' with nothing before it
    ensures r.Failure? && r.error.EmptyNameBefore? <==>
              (Marked(t, '?') || Marked(t, '~')) && Front(t) == []
    ensures r.Failure? && r.error.EmptyNameBefore? ==> Marked(t, r.error.mfr)
    // '~' on the placeholder
    ensures r == Failure(PlaceholderDefault) <==> Marked(t, '~') && Front(t) == "_"
    // the wildcard: '*' alone or after '_'; '*' after anything else
    ensures r.Success? && r.value.mfr == Wild <==>
              Marked(t, '*') && (Front(t) == [] || Front(t) == "_")
    ensures r.Failure? && r.error.MisplacedWildcard? <==>
              Marked(t, '*') && Front(t) != [] && Front(t) != "_"
    ensures r.Failure? && r.error.MisplacedWildcard? ==> r.error.segment == t
    // a name: what the segment holds before its modifier (an identifier, by
    // the type Parsed)
    ensures r.Success? && r.value.mfr == Plain ==> r.value.name.value == t
    ensures r.Success? && r.value.mfr in {Opt, Def} ==> r.value.name.value == Front(t)
    ensures r.Success? && r.value.mfr == Opt ==> Marked(t, '?')
    ensures r.Success? && r.value.mfr == Def ==> Marked(t, '~')
    ensures r.Failure? ==> r.error != EmptyName
    ensures r.Failure? && r.error.InvalidIdentifier? ==> !IsIdentifier(r.error.name)
  {
    var mfr := t[|t| - 1];
    if mfr == '?' || mfr == '~' then
      var n := Front(t);
      if |n| == 0 then Failure(EmptyNameBefore(mfr))
      else if mfr == '~' && n == "_" then Failure(PlaceholderDefault)
      else if !IsIdentifier(n) then Failure(InvalidIdentifier(n))
      else Success(Token(Some(n), if mfr == '?' then Opt else Def))
    else if mfr == '*' then
      var rem := Front(t);
      if |rem| != 0 && rem != "_" then Failure(MisplacedWildcard(t))
      else Success(Token(None, Wild))
    else if !IsIdentifier(t) then Failure(InvalidIdentifier(t))
    else Success(Token(Some(t), Plain))
  }

  /** `map(parse_name_, segments)`: the parse of each segment, in order. The
      binding step consults the k-th result only when it reaches the k-th
      segment, so a segment it never reaches has no effect. */
  function ParseAll(segs: seq<string>): (r: seq<Parsed>)
    ensures |r| == |segs|
    ensures forall k :: 0 <= k < |segs| ==> r[k] == ParseSegment(segs[k])
  {
    if segs == [] then [] else [ParseSegment(segs[0])] + ParseAll(segs[1..])
  }

  /** Every identifier, with any modifier but `*` (and not `~` on `_`),
      written with any whitespace around it and before its modifier, parses
      back to exactly that name and modifier. */
  lemma ParseSpelled(w1: string, n: string, w2: string, m: Modifier, w3: string)
    requires IsIdentifier(n) && m != Wild && (m == Def ==> n != "_")
    requires AllSpace(w1) && AllSpace(w2) && AllSpace(w3)
    requires m == Plain ==> w2 == []
    ensures ParseSegment(w1 + n + w2 + Suffix(m) + w3) == Success(Token(Some(n), m))
  {
    var seg := w1 + n + w2 + Suffix(m) + w3;
    var x := n + w2 + Suffix(m);
    StripSpelled(w1, n, w2, m, w3);
    if m != Plain {
      FrontSpelled(n, w2, m);
    } else {
      assert x == n;
    }
    ParseNamed(seg, n, m);
  }

  lemma StripSpelled(w1: string, n: string, w2: string, m: Modifier, w3: string)
    requires IsIdentifier(n)
    requires AllSpace(w1) && AllSpace(w2) && AllSpace(w3)
    requires m == Plain ==> w2 == []
    requires m != Wild
    ensures Strip(w1 + n + w2 + Suffix(m) + w3) == n + w2 + Suffix(m)
  {
    var x := n + w2 + Suffix(m);
    IdentifierTrimmed(n);
    assert w1 + n + w2 + Suffix(m) + w3 == w1 + x + w3;
    assert Trimmed(x) by {
      if m == Plain { assert x == n; }
    }
    StripPadded(w1, x, w3);
  }

  lemma FrontSpelled(n: string, w2: string, m: Modifier)
    requires IsIdentifier(n) && AllSpace(w2) && m != Plain
    ensures Marked(n + w2 + Suffix(m), Suffix(m)[0]) && Front(n + w2 + Suffix(m)) == n
  {
    var x := n + w2 + Suffix(m);
    IdentifierTrimmed(n);
    assert x[..|x| - 1] == n + w2;
    RStripPadded(n, w2);
  }

  /** The parse of a segment whose trimmed form is a name and a modifier. */
  lemma ParseNamed(seg: string, n: string, m: Modifier)
    requires IsIdentifier(n) && m != Wild && (m == Def ==> n != "_")
    requires m == Plain ==> Strip(seg) == n
    requires m != Plain ==> Marked(Strip(seg), Suffix(m)[0]) && Front(Strip(seg)) == n
    ensures ParseSegment(seg) == Success(Token(Some(n), m))
  {
    var t := Strip(seg);
    if m == Plain {
      ClassifyPlain(n);
    } else {
      ClassifyMarked(t, n, m);
    }
  }

  /** An identifier with no modifier classifies as itself. */
  lemma ClassifyPlain(n: string)
    requires IsIdentifier(n)
    ensures n != [] && Trimmed(n) && Classify(n) == Success(Token(Some(n), Plain))
  {
    IdentifierTrimmed(n);
    UnmarkedIdentifier(n);
  }

  /** An identifier before `?`, or before `~` unless it is `_`, classifies as
      that name with that modifier. */
  lemma ClassifyMarked(t: string, n: string, m: Modifier)
    requires t != [] && Trimmed(t)
    requires IsIdentifier(n) && (m == Opt || m == Def) && (m == Def ==> n != "_")
    requires Marked(t, Suffix(m)[0]) && Front(t) == n
    ensures Classify(t) == Success(Token(Some(n), m))
  {
  }

  /** An identifier carries no modifier character at its end. */
  lemma UnmarkedIdentifier(n: string)
    requires IsIdentifier(n)
    ensures !Marked(n, '?') && !Marked(n, '~') && !Marked(n, '*')
  {
    if |n| > 1 {
      assert IsIdChar(n[|n| - 1]);
    }
  }

  /** `*` and `_*`, with any whitespace around them, parse to the wildcard. */
  lemma ParseWildSpelled(w1: string, p: string, w2: string, w3: string)
    requires p == [] || p == "_"
    requires AllSpace(w1) && AllSpace(w2) && AllSpace(w3)
    ensures ParseSegment(w1 + p + w2 + "*" + w3) == Success(Token(None, Wild))
  {
    var t := StripWild(w1, p, w2, w3);
    assert Marked(t, '*');
  }

  /** The trimmed form of a spelled wildcard, and what precedes its `*`. */
  lemma StripWild(w1: string, p: string, w2: string, w3: string) returns (t: string)
    requires p == [] || p == "_"
    requires AllSpace(w1) && AllSpace(w2) && AllSpace(w3)
    ensures t == Strip(w1 + p + w2 + "*" + w3) && t != [] && t[|t| - 1] == '*' && Front(t) == p
  {
    var seg := w1 + p + w2 + "*" + w3;
    if p == [] {
      t := "*";
      assert seg == (w1 + w2) + t + w3;
      assert AllSpace(w1 + w2);
      StripPadded(w1 + w2, t, w3);
    } else {
      t := p + w2 + "*";
      assert seg == w1 + t + w3;
      assert Trimmed(t);
      StripPadded(w1, t, w3);
      assert t[..|t| - 1] == p + w2;
      RStripPadded(p, w2);
    }
  }
}
