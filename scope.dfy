/**
  The `Local` namespace object (blockscope.py:10-139): its constructor walks
  the positional arguments, pairs each specifier string with the argument
  after it, copies other arguments as (name, value) pairs, and finally applies
  the keyword arguments; leaving the `with` block erases every attribute.
 */
module Scope {
  import opened Wrappers
  import opened Objects
  import opened Text
  import opened Specifier
  import opened Binding

  /** `for j in items: setattr(j[0], j[1])`: each item must have elements 0
      and 1, and element 0 must be a str; later items overwrite earlier ones. */
  function SetItems(attrs: map<string, Value>, items: seq<Value>): (r: Outcome)
    ensures forall key :: key in attrs ==> key in r.attrs
    ensures r.err.Some? ==> r.err.value.NotAPair? || r.err.value.NameNotString?
    decreases |items|
  {
    if items == [] then Outcome(attrs, None)
    else
      match (Subscript(items[0], 0), Subscript(items[0], 1))
      case (Some(k), Some(v)) =>
        if k.Str? then SetItems(attrs[k.s := v], items[1..])
        else Outcome(attrs, Some(NameNotString(k)))
      case _ => Outcome(attrs, Some(NotAPair(items[0])))
  }

  /** An argument with no specifier pending (blockscope.py:119-125): a dict is
      copied item by item; any other iterable must yield (name, value) pairs;
      anything else is a TypeError. No grammar or binding error can arise. */
  function PassThrough(attrs: map<string, Value>, arg: Value): (r: Outcome)
    ensures forall key :: key in attrs ==> key in r.attrs
    ensures r.err.Some? ==> !IsGrammarError(r.err.value) &&
                            !r.err.value.NoNameFor? && !r.err.value.NoValueFor?
    ensures r.err == Some(NotIterable(arg)) <==> arg.NoneVal? || arg.Int?
  {
    if arg.Dict? then SetItems(attrs, ItemTuples(arg.items))
    else
      match Iterate(arg)
      case None => Outcome(attrs, Some(NotIterable(arg)))
      case Some(items) => SetItems(attrs, items)
  }

  /** All keys of a dict are str and no two are equal. */
  predicate StringKeys(items: seq<(Value, Value)>) {
    (forall k :: 0 <= k < |items| ==> items[k].0.Str?) &&
    (forall j, k :: 0 <= j < k < |items| ==> items[j].0 != items[k].0)
  }

  /** Some entry of the dict has the str key `key`. */
  predicate HasKey(items: seq<(Value, Value)>, key: string) {
    exists k :: 0 <= k < |items| && items[k].0 == Str(key)
  }

  /** A dict with str keys is copied entry by entry: every key becomes an
      attribute holding its value, and no other attribute changes. */
  lemma PassThroughDict(attrs: map<string, Value>, items: seq<(Value, Value)>)
    requires StringKeys(items)
    ensures PassThrough(attrs, Dict(items)).err == None
    ensures forall k :: 0 <= k < |items| ==>
              items[k].0.s in PassThrough(attrs, Dict(items)).attrs &&
              PassThrough(attrs, Dict(items)).attrs[items[k].0.s] == items[k].1
    ensures forall key :: key in PassThrough(attrs, Dict(items)).attrs <==> key in attrs || HasKey(items, key)
    ensures forall key :: key in attrs && !HasKey(items, key) ==>
              PassThrough(attrs, Dict(items)).attrs[key] == attrs[key]
  {
    DictValues(attrs, items);
    DictKeys(attrs, items);
    DictKeeps(attrs, items);
  }

  /** Copying a dict is copying its first entry, then the rest. */
  lemma DictStep(attrs: map<string, Value>, items: seq<(Value, Value)>)
    requires items != [] && items[0].0.Str?
    ensures PassThrough(attrs, Dict(items)) ==
            PassThrough(attrs[items[0].0.s := items[0].1], Dict(items[1..]))
  {
    assert ItemTuples(items) == [List([items[0].0, items[0].1])] + ItemTuples(items[1..]);
    assert ItemTuples(items)[1..] == ItemTuples(items[1..]);
  }

  lemma StringKeysTail(items: seq<(Value, Value)>)
    requires StringKeys(items) && items != []
    ensures StringKeys(items[1..])
    ensures !HasKey(items[1..], items[0].0.s)
    ensures forall key :: HasKey(items, key) <==> items[0].0 == Str(key) || HasKey(items[1..], key)
  {
    var rest := items[1..];
    forall j | 0 <= j < |rest| ensures rest[j] == items[j + 1] { }
    forall key ensures HasKey(items, key) <==> items[0].0 == Str(key) || HasKey(rest, key) {
      if HasKey(items, key) {
        var k :| 0 <= k < |items| && items[k].0 == Str(key);
        if k > 0 { assert rest[k - 1] == items[k]; }
      }
      if HasKey(rest, key) {
        var k :| 0 <= k < |rest| && rest[k].0 == Str(key);
        assert rest[k] == items[k + 1];
      }
    }
  }

  lemma {:induction false} DictValues(attrs: map<string, Value>, items: seq<(Value, Value)>)
    requires StringKeys(items)
    ensures PassThrough(attrs, Dict(items)).err == None
    ensures forall k :: 0 <= k < |items| ==>
              items[k].0.s in PassThrough(attrs, Dict(items)).attrs &&
              PassThrough(attrs, Dict(items)).attrs[items[k].0.s] == items[k].1
    decreases |items|
  {
    if items != [] {
      var rest := items[1..];
      var a := attrs[items[0].0.s := items[0].1];
      DictStep(attrs, items);
      StringKeysTail(items);
      DictValues(a, rest);
      DictKeeps(a, rest);
      forall k | 0 < k < |items| ensures items[k] == rest[k - 1] { }
    }
  }

  lemma {:induction false} DictKeys(attrs: map<string, Value>, items: seq<(Value, Value)>)
    requires StringKeys(items)
    ensures forall key :: key in PassThrough(attrs, Dict(items)).attrs <==> key in attrs || HasKey(items, key)
    decreases |items|
  {
    if items != [] {
      DictStep(attrs, items);
      StringKeysTail(items);
      DictKeys(attrs[items[0].0.s := items[0].1], items[1..]);
    }
  }

  lemma {:induction false} DictKeeps(attrs: map<string, Value>, items: seq<(Value, Value)>)
    requires StringKeys(items)
    ensures forall key :: key in attrs && !HasKey(items, key) ==>
              PassThrough(attrs, Dict(items)).attrs[key] == attrs[key]
    decreases |items|
  {
    if items != [] {
      DictStep(attrs, items);
      StringKeysTail(items);
      DictKeeps(attrs[items[0].0.s := items[0].1], items[1..]);
    }
  }

  /** An item of an iterable of pairs: a tuple whose element 0 is a str
      (further elements are never read). */
  predicate IsPair(v: Value) {
    v.List? && |v.elems| >= 2 && v.elems[0].Str?
  }

  function PairName(v: Value): (r: string)
    requires IsPair(v)
  {
    v.elems[0].s
  }

  predicate AllPairs(items: seq<Value>) {
    forall k :: 0 <= k < |items| ==> IsPair(items[k])
  }

  /** Some item names `key`. */
  predicate PairNamed(items: seq<Value>, key: string)
    requires AllPairs(items)
  {
    exists k :: 0 <= k < |items| && PairName(items[k]) == key
  }

  /** Item `k` names `key`, and no later item names it again. */
  predicate LastPair(items: seq<Value>, k: int, key: string)
    requires AllPairs(items)
  {
    0 <= k < |items| && PairName(items[k]) == key &&
    forall j :: k < j < |items| ==> PairName(items[j]) != key
  }

  /** An iterable of (str, value) pairs is copied without error: each name
      holds the value of its last item, no other attribute is added, and the
      attributes it does not name keep their values. */
  lemma PassThroughPairs(attrs: map<string, Value>, items: seq<Value>)
    requires AllPairs(items)
    ensures PassThrough(attrs, List(items)).err == None
    ensures forall k, key :: LastPair(items, k, key) ==>
              key in PassThrough(attrs, List(items)).attrs &&
              PassThrough(attrs, List(items)).attrs[key] == items[k].elems[1]
    ensures forall key :: key in PassThrough(attrs, List(items)).attrs <==> key in attrs || PairNamed(items, key)
    ensures forall key :: key in attrs && !PairNamed(items, key) ==>
              PassThrough(attrs, List(items)).attrs[key] == attrs[key]
  {
    PairsValues(attrs, items);
    PairsKeys(attrs, items);
    PairsKeeps(attrs, items);
  }

  /** Copying pairs is copying the first, then the rest. */
  lemma PairStep(attrs: map<string, Value>, items: seq<Value>)
    requires AllPairs(items) && items != []
    ensures AllPairs(items[1..])
    ensures SetItems(attrs, items) == SetItems(attrs[PairName(items[0]) := items[0].elems[1]], items[1..])
    ensures forall key :: PairNamed(items, key) <==> PairName(items[0]) == key || PairNamed(items[1..], key)
  {
    var rest := items[1..];
    forall j | 0 <= j < |rest| ensures rest[j] == items[j + 1] { }
    forall key ensures PairNamed(items, key) <==> PairName(items[0]) == key || PairNamed(rest, key) {
      if PairNamed(items, key) {
        var k :| 0 <= k < |items| && PairName(items[k]) == key;
        if k > 0 { assert rest[k - 1] == items[k]; }
      }
      if PairNamed(rest, key) {
        var k :| 0 <= k < |rest| && PairName(rest[k]) == key;
        assert rest[k] == items[k + 1];
      }
    }
  }

  lemma {:induction false} PairsValues(attrs: map<string, Value>, items: seq<Value>)
    requires AllPairs(items)
    ensures SetItems(attrs, items).err == None
    ensures forall k, key :: LastPair(items, k, key) ==>
              key in SetItems(attrs, items).attrs && SetItems(attrs, items).attrs[key] == items[k].elems[1]
    decreases |items|
  {
    if items != [] {
      var rest := items[1..];
      var a := attrs[PairName(items[0]) := items[0].elems[1]];
      PairStep(attrs, items);
      PairsValues(a, rest);
      PairsKeeps(a, rest);
      forall k, key | LastPair(items, k, key)
        ensures key in SetItems(attrs, items).attrs && SetItems(attrs, items).attrs[key] == items[k].elems[1]
      {
        if k > 0 {
          assert rest[k - 1] == items[k];
          assert LastPair(rest, k - 1, key) by {
            forall j | k - 1 < j < |rest| ensures rest[j] == items[j + 1] { }
          }
        } else {
          assert !PairNamed(rest, key) by {
            forall j | 0 <= j < |rest| ensures PairName(rest[j]) != key {
              assert rest[j] == items[j + 1];
            }
          }
        }
      }
    }
  }

  lemma {:induction false} PairsKeys(attrs: map<string, Value>, items: seq<Value>)
    requires AllPairs(items)
    ensures forall key :: key in SetItems(attrs, items).attrs <==> key in attrs || PairNamed(items, key)
    decreases |items|
  {
    if items != [] {
      PairStep(attrs, items);
      PairsKeys(attrs[PairName(items[0]) := items[0].elems[1]], items[1..]);
    }
  }

  lemma {:induction false} PairsKeeps(attrs: map<string, Value>, items: seq<Value>)
    requires AllPairs(items)
    ensures forall key :: key in attrs && !PairNamed(items, key) ==>
              SetItems(attrs, items).attrs[key] == attrs[key]
    decreases |items|
  {
    if items != [] {
      PairStep(attrs, items);
      PairsKeeps(attrs[PairName(items[0]) := items[0].elems[1]], items[1..]);
    }
  }

  /** The constructor's loop over the positional arguments (blockscope.py:86-125).
      `pending` holds the segments of a specifier string that still waits for
      its value argument (`var_names`). */
  function Run(attrs: map<string, Value>, pending: Option<seq<string>>, args: seq<Value>): (r: Outcome)
    decreases |args|
  {
    if args == [] then Outcome(attrs, None)
    else if pending.None? && args[0].Str? then Run(attrs, Some(Split(args[0].s, ',')), args[1..])
    else
      var step := if pending.Some? then Bind(attrs, ParseAll(pending.value), SourceValues(args[0]))
                  else PassThrough(attrs, args[0]);
      if step.err.Some? then step else Run(step.attrs, None, args[1..])
  }

  /** Positional arguments only add or overwrite attributes: none that
      existed before is removed, whether or not an error stops the loop. */
  lemma {:induction false} RunKeepsAttributes(attrs: map<string, Value>, pending: Option<seq<string>>,
                                              args: seq<Value>)
    ensures forall key :: key in attrs ==> key in Run(attrs, pending, args).attrs
    decreases |args|
  {
    if args != [] {
      if pending.None? && args[0].Str? {
        RunKeepsAttributes(attrs, Some(Split(args[0].s, ',')), args[1..]);
      } else {
        if pending.Some? {
          BindChangesOnlyNames(attrs, ParseAll(pending.value), SourceValues(args[0]));
        }
        var step := if pending.Some? then Bind(attrs, ParseAll(pending.value), SourceValues(args[0]))
                    else PassThrough(attrs, args[0]);
        if step.err.None? {
          RunKeepsAttributes(step.attrs, None, args[1..]);
        }
      }
    }
  }

  /** The specifier still waiting for a value once `args` are consumed, when
      no error intervenes. */
  function PendingAfter(pending: Option<seq<string>>, args: seq<Value>): (r: Option<seq<string>>)
    decreases |args|
  {
    if args == [] then pending
    else if pending.None? && args[0].Str? then PendingAfter(Some(Split(args[0].s, ',')), args[1..])
    else PendingAfter(None, args[1..])
  }

  /** A specifier string with no argument after it is never parsed nor used:
      adding one at the end changes nothing. */
  lemma {:induction false} TrailingSpecifierIgnored(attrs: map<string, Value>, pending: Option<seq<string>>,
                                                    args: seq<Value>, spec: string)
    requires PendingAfter(pending, args).None?
    ensures Run(attrs, pending, args + [Str(spec)]) == Run(attrs, pending, args)
    decreases |args|
  {
    var all := args + [Str(spec)];
    if args == [] {
      assert all == [Str(spec)];
      assert Run(attrs, None, all) == Run(attrs, Some(Split(spec, ',')), []);
    } else {
      assert all[0] == args[0] && all[1..] == args[1..] + [Str(spec)];
      if pending.None? && args[0].Str? {
        TrailingSpecifierIgnored(attrs, Some(Split(args[0].s, ',')), args[1..], spec);
      } else {
        var step := if pending.Some? then Bind(attrs, ParseAll(pending.value), SourceValues(args[0]))
                    else PassThrough(attrs, args[0]);
        if step.err.None? {
          TrailingSpecifierIgnored(step.attrs, None, args[1..], spec);
        }
      }
    }
  }

  /** The whole constructor: positional arguments, then keyword arguments,
      which therefore win on a name collision (blockscope.py:127-128). */
  function Construct(attrs: map<string, Value>, args: seq<Value>, kwargs: map<string, Value>): (r: Outcome)
    ensures r.err.None? ==> forall key :: key in kwargs ==> key in r.attrs && r.attrs[key] == kwargs[key]
    ensures r.err.None? ==> forall key :: key in r.attrs && key !in kwargs ==> key in Run(attrs, None, args).attrs
    ensures r.err.None? ==> forall key :: key in Run(attrs, None, args).attrs && key !in kwargs ==>
                              key in r.attrs && r.attrs[key] == Run(attrs, None, args).attrs[key]
    ensures r.err.Some? ==> r == Run(attrs, None, args)
  {
    var p := Run(attrs, None, args);
    if p.err.Some? then p else Outcome(p.attrs + kwargs, None)
  }

  /** What `zip_longest` still has to offer from `vals` at position `i`. */
  function Drop(vals: seq<Value>, i: nat): (r: seq<Value>) {
    if i <= |vals| then vals[i..] else []
  }

  /** The scope object. Its attributes (`__dict__`) are a map from names to
      values. */
  class Local {
    var attrs: map<string, Value>

    /** A fresh object has no attributes. */
    constructor ()
      ensures attrs == map[]
    {
      attrs := map[];
    }

    /** `__init__(*args, **kwargs)`. When it raises, the attributes set before
        the error remain. */
    method Init(args: seq<Value>, kwargs: map<string, Value>) returns (err: Option<Error>)
      modifies this
      ensures Outcome(attrs, err) == Construct(old(attrs), args, kwargs)
    {
      err := Positional(args);
      if err.None? {
        SetKeywords(kwargs);
      }
    }

    /** The loop over the positional arguments (blockscope.py:86-125): a str
        with no specifier pending becomes the pending specifier; the next
        argument is its value source; any other argument is passed through. */
    method Positional(args: seq<Value>) returns (err: Option<Error>)
      modifies this
      ensures Outcome(attrs, err) == Run(old(attrs), None, args)
    {
      ghost var goal := Run(attrs, None, args);
      var pending: Option<seq<string>> := None;
      var k := 0;
      while k < |args|
        invariant 0 <= k <= |args|
        invariant goal == Run(attrs, pending, args[k..])
      {
        var arg := args[k];
        assert args[k..][0] == arg && args[k..][1..] == args[k + 1..];
        if pending.None? && arg.Str? {
          pending := Some(Split(arg.s, ','));
        } else {
          if pending.Some? {
            err := BindSpecifier(pending.value, arg);
          } else {
            err := Unpack(arg);
          }
          if err.Some? {
            return;
          }
          pending := None;
        }
        k := k + 1;
      }
      err := None;
    }

    /** `for k, v in kwargs.items(): setattr(self, k, v)` (blockscope.py:127-128). */
    method SetKeywords(kwargs: map<string, Value>)
      modifies this
      ensures attrs == old(attrs) + kwargs
    {
      ghost var positional := attrs;
      var rest := kwargs.Keys;
      while rest != {}
        invariant rest <= kwargs.Keys
        invariant attrs == positional + map key | key in kwargs.Keys - rest :: kwargs[key]
        decreases rest
      {
        var key :| key in rest;
        SetAttr(key, kwargs[key]);
        rest := rest - {key};
      }
      assert kwargs.Keys - rest == kwargs.Keys;
    }

    /** One specifier and its value source (blockscope.py:90-118). Parsing
        a segment is pure, so parsing every segment up front and consuming
        the results in order gives the same bindings and the same first error
        as the lazy `map` inside `zip_longest`. */
    method BindSpecifier(segs: seq<string>, source: Value) returns (err: Option<Error>)
      modifies this
      ensures Outcome(attrs, err) == Bind(old(attrs), ParseAll(segs), SourceValues(source))
    {
      var toks := ParseAll(segs);
      var vals := SourceValues(source);
      err := BindTokens(toks, vals);
    }

    /** The `zip_longest` loop (blockscope.py:104-118): the i-th parse result
        meets the i-th value, or `_NotPresent` on the shorter side. */
    method BindTokens(toks: seq<Parsed>, vals: seq<Value>) returns (err: Option<Error>)
      modifies this
      ensures Outcome(attrs, err) == Bind(old(attrs), toks, vals)
    {
      ghost var goal := Bind(attrs, toks, vals);
      var i := 0;
      while i < |toks| || i < |vals|
        invariant 0 <= i <= |toks|
        invariant goal == Bind(attrs, toks[i..], Drop(vals, i))
        decreases |toks| - i
      {
        if i == |toks| {
          return Some(NoNameFor(vals[i]));
        }
        var p := toks[i];
        assert toks[i..][0] == p && toks[i..][1..] == toks[i + 1..];
        if p.Failure? {
          return Some(p.error);
        }
        var tok := p.value;
        if i >= |vals| {
          // no value left; a '~' token is never the placeholder, so it binds
          assert Drop(vals, i) == [] && Drop(vals, i + 1) == [];
          if tok.mfr == Wild {
            break;
          } else if tok.mfr == Opt {
            i := i + 1;
            continue;
          } else if tok.mfr == Def {
            SetAttr(tok.name.value, NoneVal);
            i := i + 1;
            continue;
          } else {
            return Some(NoValueFor(tok.name.value));
          }
        }
        var val := vals[i];
        assert Drop(vals, i)[0] == val && Drop(vals, i)[1..] == Drop(vals, i + 1);
        if tok.mfr == Wild {
          break;
        }
        if tok.name.value == "_" {
          i := i + 1;
          continue;
        }
        SetAttr(tok.name.value, val);
        i := i + 1;
      }
      err := None;
    }

    /** An argument with no specifier pending (blockscope.py:119-125). */
    method Unpack(arg: Value) returns (err: Option<Error>)
      modifies this
      ensures Outcome(attrs, err) == PassThrough(old(attrs), arg)
    {
      var items: seq<Value>;
      if arg.Dict? {
        items := ItemTuples(arg.items);
      } else {
        var it := Iterate(arg);
        if it.None? {
          return Some(NotIterable(arg));
        }
        items := it.value;
      }
      err := SetPairs(items);
    }

    /** `for j in items: setattr(self, j[0], j[1])` (blockscope.py:124-125). */
    method SetPairs(items: seq<Value>) returns (err: Option<Error>)
      modifies this
      ensures Outcome(attrs, err) == SetItems(old(attrs), items)
    {
      ghost var goal := SetItems(attrs, items);
      var k := 0;
      while k < |items|
        invariant 0 <= k <= |items|
        invariant goal == SetItems(attrs, items[k..])
      {
        assert items[k..][0] == items[k] && items[k..][1..] == items[k + 1..];
        var key := Subscript(items[k], 0);
        var v := Subscript(items[k], 1);
        if key.None? || v.None? {
          return Some(NotAPair(items[k]));
        }
        if !key.value.Str? {
          return Some(NameNotString(key.value));
        }
        SetAttr(key.value.s, v.value);
        k := k + 1;
      }
      err := None;
    }

    /** `setattr(local, name, v)`: always succeeds, overwriting. */
    method SetAttr(name: string, v: Value)
      modifies this
      ensures attrs == old(attrs)[name := v]
    {
      attrs := attrs[name := v];
    }

    /** `local.name`: the attribute's value, or AttributeError when the scope
        holds no such attribute (blockscope.py:130-132). */
    function GetAttr(name: string): (r: Result<Value, Error>)
      reads this
      ensures r.Success? <==> name in attrs
      ensures r.Success? ==> r.value == attrs[name]
      ensures r.Failure? ==> r.error == NoAttribute(name)
    {
      if name in attrs then Success(attrs[name]) else Failure(NoAttribute(name))
    }

    /** `__enter__`: the `with` block uses the object itself. */
    method Enter() returns (r: Local)
      ensures r == this
    {
      r := this;
    }

    /** `__exit__`: every attribute is erased, and the result is false, so an
        exception raised in the block is never suppressed. */
    method Exit() returns (suppress: bool)
      modifies this
      ensures attrs == map[] && !suppress
      ensures forall name :: GetAttr(name) == Failure(NoAttribute(name))
    {
      attrs := map[];
      suppress := false;
    }
  }
}
