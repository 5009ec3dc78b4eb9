/**
  Concrete instances of the general results, one per behaviour exercised by
  the repository's test suite (test/test_blockscope.py): how single segments
  split, and what the pairing loop does with parsed specifiers and values.
 */
module Cases {
  import opened Wrappers
  import opened Objects
  import opened Text
  import opened Specifier
  import opened Binding
  import opened Scope

  /** `'x,,n'` and `'x,n,'` have an empty segment. */
  lemma SplitKeepsEmptySegments()
    ensures Split("x,,n", ',') == ["x", "", "n"]
    ensures Split("x,n,", ',') == ["x", "n", ""]
  {
    assert Join(["x", "", "n"], ',') == "x,,n";
    SplitJoin(["x", "", "n"], ',');
    assert Join(["x", "n", ""], ',') == "x,n,";
    SplitJoin(["x", "n", ""], ',');
  }

  /** `Local('x,y', (1, 2, 3))`: x and y are set before the surplus 3 is found. */
  lemma TooManyValues()
    ensures Bind(map[], [Success(Token(Some("x"), Plain)), Success(Token(Some("y"), Plain))],
                 [Int(1), Int(2), Int(3)]) ==
            Outcome(map["x" := Int(1), "y" := Int(2)], Some(NoNameFor(Int(3))))
  {
  }

  /** `Local('x,y, z, n', (1, 2, 3))`: n has no value and no modifier. */
  lemma TooFewValues()
    ensures Bind(map[], [Success(Token(Some("x"), Plain)), Success(Token(Some("y"), Plain)),
                         Success(Token(Some("z"), Plain)), Success(Token(Some("n"), Plain))],
                 [Int(1), Int(2), Int(3)]).err == Some(NoValueFor("n"))
  {
  }

  /** `Local('x,,n', (1, 2, 3))`: x is bound before the empty segment is met. */
  lemma ErrorAfterBinding()
    ensures Bind(map[], [Success(Token(Some("x"), Plain)), Failure(EmptyName),
                         Success(Token(Some("n"), Plain))],
                 [Int(1), Int(2), Int(3)]) ==
            Outcome(map["x" := Int(1)], Some(EmptyName))
  {
  }

  /** `Local('x?, y?, z~, n?', (1, 2, 3))`: the optional n is left unset. */
  lemma Modifiers()
    ensures Bind(map[], [Success(Token(Some("x"), Opt)), Success(Token(Some("y"), Opt)),
                         Success(Token(Some("z"), Def)), Success(Token(Some("n"), Opt))],
                 [Int(1), Int(2), Int(3)]) ==
            Outcome(map["x" := Int(1), "y" := Int(2), "z" := Int(3)], None)
  {
  }

  /** `Local('x, y, z, n~', (1, 2, 3))`: the defaulted n becomes None. */
  lemma DefaultWithoutValue()
    ensures Bind(map[], [Success(Token(Some("x"), Plain)), Success(Token(Some("y"), Plain)),
                         Success(Token(Some("z"), Plain)), Success(Token(Some("n"), Def))],
                 [Int(1), Int(2), Int(3)]) ==
            Outcome(map["x" := Int(1), "y" := Int(2), "z" := Int(3), "n" := NoneVal], None)
  {
  }

  /** A str source yields its characters as one-character strs. */
  lemma HelloChars()
    ensures SourceValues(Str("hello")) == [Str("h"), Str("e"), Str("l"), Str("l"), Str("o")]
  {
  }

  /** `Local('x, _, y, *', "hello")`, with the values of HelloChars: the placeholder skips 'e', the
      wildcard drops the rest. */
  lemma CharsWithWildcard()
    ensures Bind(map[], [Success(Token(Some("x"), Plain)), Success(Token(Some("_"), Plain)),
                         Success(Token(Some("y"), Plain)), Success(Token(None, Wild))],
                 [Str("h"), Str("e"), Str("l"), Str("l"), Str("o")]) ==
            Outcome(map["x" := Str("h"), "y" := Str("l")], None)
  {
  }

  /** `Local('x,*', 42)`: a value that cannot be iterated is one value. */
  lemma ScalarWithWildcard()
    ensures Bind(map[], [Success(Token(Some("x"), Plain)), Success(Token(None, Wild))],
                 SourceValues(Int(42))) ==
            Outcome(map["x" := Int(42)], None)
  {
  }

  /** `Local('x, _', (1,))`: a plain `_` needs a value like any plain name. */
  lemma PlaceholderWithoutValue()
    ensures Bind(map[], [Success(Token(Some("x"), Plain)), Success(Token(Some("_"), Plain))],
                 [Int(1)]) ==
            Outcome(map["x" := Int(1)], Some(NoValueFor("_")))
  {
  }

  /** `'*,23'`: the invalid segment after the wildcard is never consulted. */
  lemma WildcardFirst()
    ensures Bind(map[], [Success(Token(None, Wild)), Failure(InvalidIdentifier("23"))],
                 [Int(1), Int(2), Int(3)]) ==
            Outcome(map[], None)
  {
  }

  /** Neither an identifier nor whitespace contains a comma. */
  lemma NoComma(s: string)
    requires IsIdentifier(s) || AllSpace(s)
    ensures ',' !in s
  {
    forall k | 0 <= k < |s| ensures s[k] != ',' {
      if IsIdentifier(s) {
        if k > 0 { assert IsIdChar(s[k]); }
      } else {
        assert IsSpace(s[k]);
      }
    }
  }

  /** Regrouping a comma-joined text. */
  lemma CommaAssoc(p0: string, p1: string, p2: string)
    ensures p0 + "," + p1 + "," + p2 == p0 + "," + (p1 + "," + p2)
  {
    assert p0 + "," + p1 + "," + p2 == (p0 + ",") + (p1 + ",") + p2;
  }

  /** A comma-free text splits into itself alone. */
  lemma SplitNone(p: string)
    requires ',' !in p
    ensures Split(p, ',') == [p]
  {
    SplitJoin([p], ',');
  }

  /** A comma-free head before a comma is the first part of the split. */
  lemma SplitCons(p: string, s: string)
    requires ',' !in p
    ensures Split(p + "," + s, ',') == [p] + Split(s, ',')
  {
    var parts := [p] + Split(s, ',');
    assert parts[1..] == Split(s, ',');
    assert Join(parts, ',') == p + "," + s;
    SplitJoin(parts, ',');
  }

  /** Three comma-free segments joined by commas split back into themselves. */
  lemma SplitThree(p0: string, p1: string, p2: string)
    requires ',' !in p0 && ',' !in p1 && ',' !in p2
    ensures Split(p0 + "," + p1 + "," + p2, ',') == [p0, p1, p2]
  {
    SplitNone(p2);
    SplitCons(p1, p2);
    SplitCons(p0, p1 + "," + p2);
    CommaAssoc(p0, p1, p2);
  }

  /** Four comma-free segments joined by commas split back into themselves. */
  lemma SplitFour(p0: string, p1: string, p2: string, p3: string)
    requires ',' !in p0 && ',' !in p1 && ',' !in p2 && ',' !in p3
    ensures Split(p0 + "," + p1 + "," + p2 + "," + p3, ',') == [p0, p1, p2, p3]
  {
    SplitThree(p1, p2, p3);
    SplitCons(p0, p1 + "," + p2 + "," + p3);
    CommaAssoc(p0, p1 + "," + p2, p3);
    CommaAssoc(p0, p1, p2);
  }

  /** A name after blanks parses to that name with no modifier. */
  lemma ParsePlain(w: string, n: string)
    requires AllSpace(w) && IsIdentifier(n)
    ensures ParseSegment(w + n) == Success(Token(Some(n), Plain))
  {
    IdentifierTrimmed(n);
    StripPadded(w, n, []);
    assert w + n + [] == w + n;
    ParseNamed(w + n, n, Plain);
  }

  /** A `*` after blanks parses to the wildcard. */
  lemma ParseStar(w: string)
    requires AllSpace(w)
    ensures ParseSegment(w + "*") == Success(Token(None, Wild))
  {
    assert w + [] + [] + "*" + [] == w + "*";
    var t := StripWild(w, [], [], []);
    assert Marked(t, '*');
  }

  /** The parse of three segments, segment by segment. */
  lemma ParseThree(s0: string, s1: string, s2: string)
    ensures ParseAll([s0, s1, s2]) == [ParseSegment(s0), ParseSegment(s1), ParseSegment(s2)]
  {
  }

  /** The parse of four segments, segment by segment. */
  lemma ParseFour(s0: string, s1: string, s2: string, s3: string)
    ensures ParseAll([s0, s1, s2, s3]) == [ParseSegment(s0), ParseSegment(s1), ParseSegment(s2), ParseSegment(s3)]
  {
    var segs := [s0, s1, s2, s3];
    assert segs[1..] == [s1, s2, s3];
    assert ParseAll(segs) == [ParseSegment(s0)] + ParseAll([s1, s2, s3]);
    ParseThree(s1, s2, s3);
    PrependToThree(ParseSegment(s0), ParseSegment(s1), ParseSegment(s2), ParseSegment(s3));
  }

  lemma AppendNothing<T>(a: T, b: T)
    ensures [a, b] + [] == [a, b]
  {
  }

  lemma AppendPair<T>(a: T, b: T, c: T, d: T)
    ensures [a, b] + [c, d] == [a, b, c, d]
  {
  }

  lemma PrependToThree<T>(a: T, b: T, c: T, d: T)
    ensures [a] + [b, c, d] == [a, b, c, d]
  {
  }

  /** `'x, _, y, *'`, for any identifiers in place of x and y and any blanks
      after the commas, splits and parses to x, `_`, y and the wildcard. */
  lemma ParseNamesAndWildcard(x: string, y: string, w: string)
    requires IsIdentifier(x) && IsIdentifier(y) && AllSpace(w)
    ensures ParseAll(Split(x + "," + w + "_," + w + y + "," + w + "*", ',')) ==
            [Success(Token(Some(x), Plain)), Success(Token(Some("_"), Plain)),
             Success(Token(Some(y), Plain)), Success(Token(None, Wild))]
  {
    NoComma(x);
    NoComma(y);
    NoComma(w);
    assert x + "," + w + "_," + w + y + "," + w + "*" == x + "," + (w + "_") + "," + (w + y) + "," + (w + "*");
    SplitFour(x, w + "_", w + y, w + "*");
    ParseFour(x, w + "_", w + y, w + "*");
    ParsePlain([], x);
    assert [] + x == x;
    ParsePlain(w, "_");
    ParsePlain(w, y);
    ParseStar(w);
  }

  /** `'a,b,_'`, for any identifiers in place of a and b. */
  lemma ParseTwoNamesAndPlaceholder(a: string, b: string)
    requires IsIdentifier(a) && IsIdentifier(b)
    ensures ParseAll(Split(a + "," + b + ",_", ',')) ==
            [Success(Token(Some(a), Plain)), Success(Token(Some(b), Plain)), Success(Token(Some("_"), Plain))]
  {
    NoComma(a);
    NoComma(b);
    assert a + "," + b + ",_" == a + "," + b + "," + "_";
    SplitThree(a, b, "_");
    ParseThree(a, b, "_");
    ParsePlain([], a);
    assert [] + a == a;
    ParsePlain([], b);
    assert [] + b == b;
    ParsePlain([], "_");
    assert [] + "_" == "_";
  }

  /** A specifier str followed by its value source: the positional loop binds
      the parsed specifier to the source, then goes on with the rest. */
  lemma RunSpecifier(attrs: map<string, Value>, s: string, source: Value, rest: seq<Value>)
    ensures var step := Bind(attrs, ParseAll(Split(s, ',')), SourceValues(source));
            Run(attrs, None, [Str(s), source] + rest) ==
            if step.err.Some? then step else Run(step.attrs, None, rest)
  {
    RegroupTwo(Str(s), source, rest);
    RunStr(attrs, s, [source] + rest);
    RunPending(attrs, Split(s, ','), source, rest);
  }

  /** A str with no pending specifier becomes the pending specifier. */
  lemma RunStr(attrs: map<string, Value>, s: string, more: seq<Value>)
    ensures Run(attrs, None, [Str(s)] + more) == Run(attrs, Some(Split(s, ',')), more)
  {
    assert ([Str(s)] + more)[1..] == more;
  }

  lemma RegroupTwo<T>(a: T, b: T, rest: seq<T>)
    ensures [a, b] + rest == [a] + ([b] + rest)
  {
  }

  /** A pending specifier is bound to the next argument, then the loop goes on. */
  lemma RunPending(attrs: map<string, Value>, segs: seq<string>, source: Value, rest: seq<Value>)
    ensures var step := Bind(attrs, ParseAll(segs), SourceValues(source));
            Run(attrs, Some(segs), [source] + rest) ==
            if step.err.Some? then step else Run(step.attrs, None, rest)
  {
    assert ([source] + rest)[1..] == rest;
  }

  /** `'x, _, y, *'` on five values binds x to the first and y to the third;
      the placeholder consumes the second and the wildcard drops the rest. */
  lemma BindPlaceholderWildcard(x: string, y: string, v0: Value, v1: Value, v2: Value, v3: Value, v4: Value)
    requires IsIdentifier(x) && IsIdentifier(y) && x != "_" && y != "_"
    ensures Bind(map[], [Success(Token(Some(x), Plain)), Success(Token(Some("_"), Plain)),
                         Success(Token(Some(y), Plain)), Success(Token(None, Wild))],
                 [v0, v1, v2, v3, v4]) ==
            Outcome(map[x := v0, y := v2], None)
  {
    var toks: seq<Parsed> := [Success(Token(Some(x), Plain)), Success(Token(Some("_"), Plain)),
                              Success(Token(Some(y), Plain)), Success(Token(None, Wild))];
    var vals := [v0, v1, v2, v3, v4];
    assert Bind(map[], toks, vals) == Bind(map[x := v0], toks[1..], vals[1..]);
    assert Bind(map[x := v0], toks[1..], vals[1..]) == Bind(map[x := v0], toks[2..], vals[2..]);
    assert Bind(map[x := v0], toks[2..], vals[2..]) == Bind(map[x := v0, y := v2], toks[3..], vals[3..]);
  }

  /** The second specifier of the chained case binds 1 and 2 and skips 3. */
  lemma BindOneTwo(attrs: map<string, Value>, a: string, b: string)
    requires IsIdentifier(a) && IsIdentifier(b) && a != "_" && b != "_"
    ensures Bind(attrs, [Success(Token(Some(a), Plain)), Success(Token(Some(b), Plain)), Success(Token(Some("_"), Plain))],
                 SourceValues(List([Int(1), Int(2), Int(3)]))) ==
            Outcome(attrs[a := Int(1)][b := Int(2)], None)
  {
    var toks: seq<Parsed> := [Success(Token(Some(a), Plain)), Success(Token(Some(b), Plain)),
                              Success(Token(Some("_"), Plain))];
    var ints: seq<Value> := [Int(1), Int(2), Int(3)];
    assert Bind(attrs, toks, ints) == Bind(attrs[a := Int(1)], toks[1..], ints[1..]);
    assert Bind(attrs[a := Int(1)], toks[1..], ints[1..]) == Bind(attrs[a := Int(1)][b := Int(2)], toks[2..], ints[2..]);
  }

  /** `Local('x, _, y, *', "hello", 'a,b,_', (1, 2, 3))`: the first specifier
      takes 'h' and 'l' from the str, the second takes 1 and 2 from the tuple,
      whatever the names and the blanks after the commas. */
  lemma ChainedSpecifiers(x: string, y: string, a: string, b: string, w: string)
    requires IsIdentifier(x) && IsIdentifier(y) && IsIdentifier(a) && IsIdentifier(b)
    requires x != "_" && y != "_" && a != "_" && b != "_"
    requires AllSpace(w)
    ensures Run(map[], None, [Str(x + "," + w + "_," + w + y + "," + w + "*"), Str("hello"),
                              Str(a + "," + b + ",_"), List([Int(1), Int(2), Int(3)])]) ==
            Outcome(map[x := Str("h"), y := Str("l"), a := Int(1), b := Int(2)], None)
  {
    var s1 := x + "," + w + "_," + w + y + "," + w + "*";
    var s2 := a + "," + b + ",_";
    var tuple := List([Int(1), Int(2), Int(3)]);
    var m1 := map[x := Str("h"), y := Str("l")];
    ParseNamesAndWildcard(x, y, w);
    HelloChars();
    BindPlaceholderWildcard(x, y, Str("h"), Str("e"), Str("l"), Str("l"), Str("o"));
    RunSpecifier(map[], s1, Str("hello"), [Str(s2), tuple]);
    ParseTwoNamesAndPlaceholder(a, b);
    BindOneTwo(m1, a, b);
    RunSpecifier(m1, s2, tuple, []);
    AppendPair(Str(s1), Str("hello"), Str(s2), tuple);
    AppendNothing(Str(s2), tuple);
  }

  /** `'x,n, '`, and `'x,n,'` when w is empty: two names, then a blank
      segment that is the empty-name error. */
  lemma ParseTwoNamesAndBlank(x: string, n: string, w: string)
    requires IsIdentifier(x) && IsIdentifier(n) && AllSpace(w)
    ensures ParseAll(Split(x + "," + n + "," + w, ',')) ==
            [Success(Token(Some(x), Plain)), Success(Token(Some(n), Plain)), Failure(EmptyName)]
  {
    NoComma(x);
    NoComma(n);
    NoComma(w);
    SplitThree(x, n, w);
    ParseThree(x, n, w);
    ParsePlain([], x);
    assert [] + x == x;
    ParsePlain([], n);
    assert [] + n == n;
    StripPadded(w, [], []);
    assert w + [] + [] == w;
  }

  /** Two names bind 1 and 2 before the error in the third parse result. */
  lemma BindTwoThenError(x: string, n: string)
    requires IsIdentifier(x) && IsIdentifier(n) && x != "_" && n != "_"
    ensures Bind(map[], [Success(Token(Some(x), Plain)), Success(Token(Some(n), Plain)), Failure(EmptyName)],
                 SourceValues(List([Int(1), Int(2), Int(3)]))) ==
            Outcome(map[x := Int(1), n := Int(2)], Some(EmptyName))
  {
    var toks: seq<Parsed> := [Success(Token(Some(x), Plain)), Success(Token(Some(n), Plain)), Failure(EmptyName)];
    var ints: seq<Value> := [Int(1), Int(2), Int(3)];
    assert Bind(map[], toks, ints) == Bind(map[x := Int(1)], toks[1..], ints[1..]);
    assert Bind(map[x := Int(1)], toks[1..], ints[1..]) == Bind(map[x := Int(1), n := Int(2)], toks[2..], ints[2..]);
  }

  /** `Local('x,n, ', (1, 2, 3))`, and `'x,n,'` when w is empty: x and n are
      bound before the blank last segment fails with the empty-name error. */
  lemma BlankLastSegment(x: string, n: string, w: string)
    requires IsIdentifier(x) && IsIdentifier(n) && x != "_" && n != "_"
    requires AllSpace(w)
    ensures Run(map[], None, [Str(x + "," + n + "," + w), List([Int(1), Int(2), Int(3)])]) ==
            Outcome(map[x := Int(1), n := Int(2)], Some(EmptyName))
  {
    var s := x + "," + n + "," + w;
    var ints: seq<Value> := [Int(1), Int(2), Int(3)];
    ParseTwoNamesAndBlank(x, n, w);
    BindTwoThenError(x, n);
    RunSpecifier(map[], s, List(ints), []);
    AppendNothing(Str(s), List(ints));
  }
}
