/**
  The binding step of `Local.__init__` (blockscope.py:93-118): the parsed
  segments of one specifier are paired with the values of the argument that
  follows it, the way `zip_longest` pairs them, and each pair is bound,
  skipped, defaulted or rejected according to the token's modifier.

  The segments arrive as the stream of their parse results
  (`Specifier.ParseAll`); the pairing looks at one result per step, so a
  segment after a wildcard or after an error is never consulted.
 */
module Binding {
  import opened Wrappers
  import opened Objects
  import opened Text
  import opened Specifier

  /** The attributes after a step and the error it raised, if any. Bindings
      made before an error are kept. */
  datatype Outcome = Outcome(attrs: map<string, Value>, err: Option<Error>)

  /** Nothing is removed from `before`, and every key whose value differs is
      an identifier other than the placeholder `_`. */
  predicate OnlyNamesChanged(before: map<string, Value>, after: map<string, Value>) {
    (forall key :: key in before ==> key in after) &&
    (forall key :: key in after ==>
       (key in before && after[key] == before[key]) || (IsIdentifier(key) && key != "_"))
  }

  /** The placeholder `_` consumes a value and binds nothing. */
  function Consume(attrs: map<string, Value>, name: string, v: Value): (r: map<string, Value>) {
    if name == "_" then attrs else attrs[name := v]
  }

  /** The pairing loop. An empty `vals` is the `fillvalue` of `zip_longest`:
      the tokens have outlasted the values. */
  function Bind(attrs: map<string, Value>, toks: seq<Parsed>, vals: seq<Value>): (r: Outcome)
    decreases |toks| + |vals|
  {
    if toks == [] then
      if vals == [] then Outcome(attrs, None) else Outcome(attrs, Some(NoNameFor(vals[0])))
    else
      match toks[0]
      case Failure(e) => Outcome(attrs, Some(e))
      case Success(tok) =>
        if vals == [] then
          if tok.mfr == Wild then Outcome(attrs, None)
          else if tok.mfr == Opt then Bind(attrs, toks[1..], [])
          else if tok.mfr == Def then Bind(Consume(attrs, tok.name.value, NoneVal), toks[1..], [])
          else Outcome(attrs, Some(NoValueFor(tok.name.value)))
        else if tok.mfr == Wild then Outcome(attrs, None)
        else Bind(Consume(attrs, tok.name.value, vals[0]), toks[1..], vals[1..])
  }

  /** A specifier only ever adds or overwrites identifiers other than `_`,
      never removes an attribute, and fails only with a grammar error, an
      unmatched value or a missing value. */
  lemma {:induction false} BindChangesOnlyNames(attrs: map<string, Value>, toks: seq<Parsed>, vals: seq<Value>)
    ensures OnlyNamesChanged(attrs, Bind(attrs, toks, vals).attrs)
    ensures Bind(attrs, toks, vals).err.Some? ==>
              var e := Bind(attrs, toks, vals).err.value;
              IsGrammarError(e) || e.NoNameFor? || e.NoValueFor?
    decreases |toks| + |vals|
  {
    if toks != [] && toks[0].Success? {
      var tok := toks[0].value;
      if vals == [] {
        if tok.mfr == Opt {
          BindChangesOnlyNames(attrs, toks[1..], []);
        } else if tok.mfr == Def {
          var a := Consume(attrs, tok.name.value, NoneVal);
          BindChangesOnlyNames(a, toks[1..], []);
          OnlyNamesChangedTrans(attrs, a, Bind(a, toks[1..], []).attrs);
        }
      } else if tok.mfr != Wild {
        var a := Consume(attrs, tok.name.value, vals[0]);
        BindChangesOnlyNames(a, toks[1..], vals[1..]);
        OnlyNamesChangedTrans(attrs, a, Bind(a, toks[1..], vals[1..]).attrs);
      }
    }
  }

  lemma OnlyNamesChangedTrans(a: map<string, Value>, b: map<string, Value>, c: map<string, Value>)
    requires OnlyNamesChanged(a, b) && OnlyNamesChanged(b, c)
    ensures OnlyNamesChanged(a, c)
  {
  }

  /** Every token parsed and is named (no wildcard). */
  predicate AllNamed(toks: seq<Parsed>) {
    forall k :: 0 <= k < |toks| ==> toks[k].Success? && toks[k].value.mfr != Wild
  }

  /** Every token parsed and carries `?` or `~`. */
  predicate AllOptional(toks: seq<Parsed>) {
    forall k :: 0 <= k < |toks| ==> toks[k].Success? && toks[k].value.mfr in {Opt, Def}
  }

  /** The name of a parsed, named token. */
  function NameOf(p: Parsed): (n: string)
    requires p.Success? && p.value.mfr != Wild
    ensures IsIdentifier(n)
  {
    p.value.name.value
  }

  /** When every one of the first tokens has a value, binding them first and
      the rest afterwards is binding everything: what the first tokens bound
      stays bound, whatever happens later. */
  lemma {:induction false} BindPrefix(attrs: map<string, Value>, t1: seq<Parsed>, t2: seq<Parsed>,
                                      v1: seq<Value>, v2: seq<Value>)
    requires |t1| == |v1| && AllNamed(t1)
    ensures Bind(attrs, t1, v1).err == None
    ensures Bind(attrs, t1 + t2, v1 + v2) == Bind(Bind(attrs, t1, v1).attrs, t2, v2)
    decreases |t1|
  {
    if t1 != [] {
      var a := Consume(attrs, NameOf(t1[0]), v1[0]);
      assert (t1 + t2)[0] == t1[0] && (t1 + t2)[1..] == t1[1..] + t2;
      assert (v1 + v2)[0] == v1[0] && (v1 + v2)[1..] == v1[1..] + v2;
      assert AllNamed(t1[1..]) by {
        forall k | 0 <= k < |t1| - 1 ensures t1[1..][k] == t1[k + 1] { }
      }
      BindPrefix(a, t1[1..], t2, v1[1..], v2);
    } else {
      assert t1 + t2 == t2 && v1 + v2 == v2;
    }
  }

  /** `key` is the name of token `k`, and no later token names it again. */
  predicate LastBinder(toks: seq<Parsed>, k: int, key: string)
    requires AllNamed(toks)
  {
    0 <= k < |toks| && NameOf(toks[k]) == key &&
    forall j :: k < j < |toks| ==> NameOf(toks[j]) != key
  }

  /** Some token names `key`. */
  predicate Names(toks: seq<Parsed>, key: string)
    requires AllNamed(toks)
  {
    exists k :: 0 <= k < |toks| && NameOf(toks[k]) == key
  }

  /** With exactly one value per token and no wildcard, binding succeeds; each
      name other than `_` holds the value at the position of its last
      occurrence, no other name is added, and names the specifier does not
      mention keep their values. */
  lemma {:induction false} BindExact(attrs: map<string, Value>, toks: seq<Parsed>, vals: seq<Value>)
    requires AllNamed(toks) && |vals| == |toks|
    ensures Bind(attrs, toks, vals).err == None
    ensures forall k, key :: LastBinder(toks, k, key) && key != "_" ==>
              key in Bind(attrs, toks, vals).attrs && Bind(attrs, toks, vals).attrs[key] == vals[k]
    ensures forall key :: key in Bind(attrs, toks, vals).attrs <==>
              key in attrs || (key != "_" && Names(toks, key))
    ensures forall key :: key in attrs && (key == "_" || !Names(toks, key)) ==>
              Bind(attrs, toks, vals).attrs[key] == attrs[key]
    decreases |toks|
  {
    if toks != [] {
      var n := |toks| - 1;
      var t1, v1 := toks[..n], vals[..n];
      BindLast(attrs, toks, vals);
      BindExact(attrs, t1, v1);
      var mid := Bind(attrs, t1, v1).attrs;
      var name := NameOf(toks[n]);
      var r := Bind(attrs, toks, vals).attrs;
      forall k, key | LastBinder(toks, k, key) && key != "_"
        ensures key in r && r[key] == vals[k]
      {
        if k < n {
          assert t1[k] == toks[k];
          assert LastBinder(t1, k, key) by {
            forall j | k < j < n ensures t1[j] == toks[j] { }
          }
        }
      }
      forall key ensures key in r <==> key in attrs || (key != "_" && Names(toks, key)) {
        NamesLast(toks, key);
      }
      forall key | key in attrs && (key == "_" || !Names(toks, key)) ensures r[key] == attrs[key] {
        NamesLast(toks, key);
      }
    }
  }

  /** Binding one value per token is binding all but the last, then the last. */
  lemma BindLast(attrs: map<string, Value>, toks: seq<Parsed>, vals: seq<Value>)
    requires AllNamed(toks) && |vals| == |toks| && toks != []
    ensures AllNamed(toks[..|toks| - 1])
    ensures Bind(attrs, toks, vals) ==
              Outcome(Consume(Bind(attrs, toks[..|toks| - 1], vals[..|toks| - 1]).attrs,
                              NameOf(toks[|toks| - 1]), vals[|toks| - 1]), None)
  {
    var n := |toks| - 1;
    var t1, v1 := toks[..n], vals[..n];
    assert AllNamed(t1) by {
      forall k | 0 <= k < n ensures t1[k] == toks[k] { }
    }
    BindPrefix(attrs, t1, [toks[n]], v1, [vals[n]]);
    assert t1 + [toks[n]] == toks && v1 + [vals[n]] == vals;
    var mid := Bind(attrs, t1, v1).attrs;
    assert Bind(mid, [toks[n]], [vals[n]]) == Bind(Consume(mid, NameOf(toks[n]), vals[n]), [], []);
  }

  /** A name occurs among the tokens when it occurs before the last one or is the last one. */
  lemma NamesLast(toks: seq<Parsed>, key: string)
    requires AllNamed(toks) && toks != []
    requires AllNamed(toks[..|toks| - 1])
    ensures Names(toks, key) <==> Names(toks[..|toks| - 1], key) || NameOf(toks[|toks| - 1]) == key
  {
    var t1 := toks[..|toks| - 1];
    if Names(toks, key) && NameOf(toks[|toks| - 1]) != key {
      var k :| 0 <= k < |toks| && NameOf(toks[k]) == key;
      assert t1[k] == toks[k];
    }
    if Names(t1, key) {
      var k :| 0 <= k < |t1| && NameOf(t1[k]) == key;
      assert t1[k] == toks[k];
    }
  }

  /** Values beyond the last token, with no wildcard among the tokens: the
      first unmatched value is reported. */
  lemma BindSurplus(attrs: map<string, Value>, toks: seq<Parsed>, vals: seq<Value>)
    requires AllNamed(toks) && |vals| > |toks|
    ensures Bind(attrs, toks, vals).err == Some(NoNameFor(vals[|toks|]))
  {
    var n := |toks|;
    BindPrefix(attrs, toks, [], vals[..n], vals[n..]);
    assert toks + [] == toks && vals[..n] + vals[n..] == vals;
  }

  /** `key` is the name of a `~` token. */
  predicate Defaults(toks: seq<Parsed>, key: string) {
    exists k :: 0 <= k < |toks| && toks[k] == Success(Token(Some(key), Def))
  }

  /** With no value left, `?` tokens are skipped and `~` tokens are bound to
      None, without error; what follows them is bound on the attributes so
      obtained. */
  lemma {:induction false} BindWithoutValues(attrs: map<string, Value>, pre: seq<Parsed>, rest: seq<Parsed>)
    requires AllOptional(pre)
    ensures Bind(attrs, pre, []).err == None
    ensures Bind(attrs, pre + rest, []) == Bind(Bind(attrs, pre, []).attrs, rest, [])
    ensures forall key :: key in Bind(attrs, pre, []).attrs <==> key in attrs || Defaults(pre, key)
    ensures forall key :: Defaults(pre, key) ==> Bind(attrs, pre, []).attrs[key] == NoneVal
    ensures forall key :: key in attrs && !Defaults(pre, key) ==>
              Bind(attrs, pre, []).attrs[key] == attrs[key]
    decreases |pre|
  {
    if pre == [] {
      assert pre + rest == rest;
    } else {
      var tok := pre[0].value;
      var a := if tok.mfr == Def then Consume(attrs, tok.name.value, NoneVal) else attrs;
      assert Bind(attrs, pre, []) == Bind(a, pre[1..], []);
      assert (pre + rest)[0] == pre[0] && (pre + rest)[1..] == pre[1..] + rest;
      assert AllOptional(pre[1..]) by {
        forall k | 0 <= k < |pre| - 1 ensures pre[1..][k] == pre[k + 1] { }
      }
      BindWithoutValues(a, pre[1..], rest);
      forall key ensures Defaults(pre, key) <==> Defaults(pre[1..], key) || pre[0] == Success(Token(Some(key), Def)) {
        if Defaults(pre, key) {
          var k :| 0 <= k < |pre| && pre[k] == Success(Token(Some(key), Def));
          if k > 0 { assert pre[1..][k - 1] == pre[k]; }
        }
        if Defaults(pre[1..], key) {
          var k :| 0 <= k < |pre| - 1 && pre[1..][k] == Success(Token(Some(key), Def));
          assert pre[1..][k] == pre[k + 1];
        }
      }
    }
  }

  /** A plain token, `_` included, with no value left is an error naming it;
      the `?` and `~` tokens before it have been applied. */
  lemma MissingValue(attrs: map<string, Value>, pre: seq<Parsed>, tok: Parsed, rest: seq<Parsed>)
    requires AllOptional(pre)
    requires tok.Success? && tok.value.mfr == Plain
    ensures Bind(attrs, pre + [tok] + rest, []) ==
              Outcome(Bind(attrs, pre, []).attrs, Some(NoValueFor(NameOf(tok))))
  {
    BindWithoutValues(attrs, pre, [tok] + rest);
    assert pre + [tok] + rest == pre + ([tok] + rest);
    assert ([tok] + rest)[0] == tok;
  }

  /** A token at which the pairing stops: a parse error or the wildcard. */
  predicate Stops(p: Parsed) {
    p.Failure? || p.value.mfr == Wild
  }

  /** Segments after a wildcard or an unparsable segment are never consulted:
      whatever they are, the outcome is the same. */
  lemma {:induction false} NothingAfterStop(attrs: map<string, Value>, pre: seq<Parsed>, stop: Parsed,
                                            rest: seq<Parsed>, vals: seq<Value>)
    requires Stops(stop)
    ensures Bind(attrs, pre + [stop] + rest, vals) == Bind(attrs, pre + [stop], vals)
    decreases |pre|
  {
    var s := pre + [stop] + rest;
    var t := pre + [stop];
    if pre == [] {
      assert s[0] == t[0] == stop;
    } else {
      assert s[0] == t[0] == pre[0];
      assert s[1..] == pre[1..] + [stop] + rest && t[1..] == pre[1..] + [stop];
      match pre[0]
      case Failure(_) =>
      case Success(tok) =>
        if vals == [] {
          if tok.mfr == Opt {
            NothingAfterStop(attrs, pre[1..], stop, rest, vals);
          } else if tok.mfr == Def {
            NothingAfterStop(Consume(attrs, tok.name.value, NoneVal), pre[1..], stop, rest, vals);
          }
        } else if tok.mfr != Wild {
          NothingAfterStop(Consume(attrs, tok.name.value, vals[0]), pre[1..], stop, rest, vals[1..]);
        }
    }
  }

  function Min(a: int, b: int): (r: int) { if a < b then a else b }

  /** A wildcard ends the pairing: binding up to it is binding the tokens
      before it against the values they can take, and the values left over
      are dropped without error. */
  lemma {:induction false} WildcardTruncates(attrs: map<string, Value>, pre: seq<Parsed>, wild: Parsed,
                                             vals: seq<Value>)
    requires wild.Success? && wild.value.mfr == Wild
    ensures Bind(attrs, pre + [wild], vals) == Bind(attrs, pre, vals[..Min(|pre|, |vals|)])
    decreases |pre|
  {
    var cut := vals[..Min(|pre|, |vals|)];
    var t := pre + [wild];
    if pre == [] {
      assert t[0] == wild && cut == [];
    } else {
      assert t[0] == pre[0] && t[1..] == pre[1..] + [wild];
      match pre[0]
      case Failure(_) =>
      case Success(tok) =>
        if vals == [] {
          assert cut == [];
          if tok.mfr == Opt {
            WildcardTruncates(attrs, pre[1..], wild, vals);
          } else if tok.mfr == Def {
            WildcardTruncates(Consume(attrs, tok.name.value, NoneVal), pre[1..], wild, vals);
          }
        } else if tok.mfr != Wild {
          assert cut[0] == vals[0];
          assert cut[1..] == vals[1..][..Min(|pre| - 1, |vals| - 1)];
          WildcardTruncates(Consume(attrs, tok.name.value, vals[0]), pre[1..], wild, vals[1..]);
        }
    }
  }

  /** With a value for every token before the wildcard, binding succeeds and
      the values after them are discarded. */
  lemma WildcardDiscards(attrs: map<string, Value>, pre: seq<Parsed>, wild: Parsed, vals: seq<Value>)
    requires wild.Success? && wild.value.mfr == Wild
    requires AllNamed(pre) && |vals| >= |pre|
    ensures Bind(attrs, pre + [wild], vals) == Outcome(Bind(attrs, pre, vals[..|pre|]).attrs, None)
  {
    WildcardTruncates(attrs, pre, wild, vals);
    BindPrefix(attrs, pre, [], vals[..|pre|], []);
    assert pre + [] == pre && vals[..|pre|] + [] == vals[..|pre|];
  }
}
