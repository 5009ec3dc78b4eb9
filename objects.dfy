/**
  The Python objects that `Local(...)` receives as positional arguments and
  stores as attribute values, and the errors it raises.

  Python decides at run time whether an argument is a string, a dict, some
  other iterable or not iterable at all; here each of these is a variant of
  `Value`, and the decisions are functions of the variant.
 */
module Objects {
  import opened Wrappers

  /** A Python object, as far as `Local` looks into it. `List` stands for any
      iterable that is neither a string nor a dict (tuple, list, zip object,
      generator); `Dict` keeps its items in the dict's iteration order. */
  datatype Value =
    | NoneVal
    | Int(i: int)
    | Str(s: string)
    | List(elems: seq<Value>)
    | Dict(items: seq<(Value, Value)>)

  /** The AttributeError and TypeError raised while building or reading a scope. */
  datatype Error =
    | EmptyName                    // a segment that is empty once trimmed
    | EmptyNameBefore(mfr: char)   // nothing but spaces before '?' or '~'
    | PlaceholderDefault           // '_~'
    | MisplacedWildcard(segment: string) // a '*' after something other than '_'
    | InvalidIdentifier(name: string)
    | NoNameFor(value: Value)      // more values than names
    | NoValueFor(name: string)     // a required name with no value left
    | NotIterable(arg: Value)      // pass-through argument that cannot be iterated
    | NotAPair(item: Value)        // pass-through item without items [0] and [1]
    | NameNotString(key: Value)    // pass-through name that is not a str
    | NoAttribute(name: string)    // reading a name the scope does not hold

  /** The errors of the specifier grammar (raised by the segment parser). */
  predicate IsGrammarError(e: Error) {
    e.EmptyName? || e.EmptyNameBefore? || e.PlaceholderDefault? ||
    e.MisplacedWildcard? || e.InvalidIdentifier?
  }

  /** The one-character strings that iterating over a str yields. */
  function Chars(s: string): (r: seq<Value>)
    ensures |r| == |s|
    ensures forall k :: 0 <= k < |s| ==> r[k] == Str([s[k]])
  {
    if s == [] then [] else [Str([s[0]])] + Chars(s[1..])
  }

  /** The keys of a dict, in iteration order. */
  function Keys(items: seq<(Value, Value)>): (r: seq<Value>)
    ensures |r| == |items|
    ensures forall k :: 0 <= k < |items| ==> r[k] == items[k].0
  {
    if items == [] then [] else [items[0].0] + Keys(items[1..])
  }

  /** `d.items()`: each item as a two-element tuple. */
  function ItemTuples(items: seq<(Value, Value)>): (r: seq<Value>)
    ensures |r| == |items|
    ensures forall k :: 0 <= k < |items| ==> r[k] == List([items[k].0, items[k].1])
  {
    if items == [] then [] else [List([items[0].0, items[0].1])] + ItemTuples(items[1..])
  }

  /** `iter(v)`: the elements of an iterable, or None when Python raises
      TypeError because `v` is not iterable. */
  function Iterate(v: Value): (r: Option<seq<Value>>)
    ensures r.None? <==> v.NoneVal? || v.Int?
  {
    match v
    case NoneVal => None
    case Int(_) => None
    case Str(s) => Some(Chars(s))
    case List(xs) => Some(xs)
    case Dict(items) => Some(Keys(items))
  }

  /** `v[k]` for the indices 0 and 1 used on a pass-through item, or None when
      Python raises (not subscriptable, index out of range, missing key). */
  function Subscript(v: Value, k: nat): (r: Option<Value>)
    ensures v.Str? ==> (r.Some? <==> k < |v.s|)
    ensures v.List? ==> (r.Some? <==> k < |v.elems|)
    ensures v.NoneVal? || v.Int? ==> r.None?
    ensures v.Str? && k < |v.s| ==> r == Some(Str([v.s[k]]))
    ensures v.List? && k < |v.elems| ==> r == Some(v.elems[k])
    ensures v.Dict? ==> r == Lookup(v.items, Int(k))
  {
    match v
    case NoneVal => None
    case Int(_) => None
    case Str(s) => if k < |s| then Some(Str([s[k]])) else None
    case List(xs) => if k < |xs| then Some(xs[k]) else None
    case Dict(items) => Lookup(items, Int(k))
  }

  /** `d[key]` on a dict given by its items. */
  function Lookup(items: seq<(Value, Value)>, key: Value): (r: Option<Value>)
    ensures r.Some? <==> exists k :: 0 <= k < |items| && items[k].0 == key
    ensures r.Some? ==> exists k :: 0 <= k < |items| && items[k] == (key, r.value)
  {
    if items == [] then None
    else if items[0].0 == key then Some(items[0].1)
    else Lookup(items[1..], key)
  }

  /** The values a specifier is matched against: the items of a dict, the
      elements of any other iterable, and otherwise the argument alone
      (blockscope.py:94-102). */
  function SourceValues(v: Value): (r: seq<Value>)
    ensures v.Dict? ==> r == ItemTuples(v.items)
    ensures v.List? ==> r == v.elems
    ensures v.Str? ==> r == Chars(v.s)
    ensures v.NoneVal? || v.Int? ==> r == [v]
  {
    if v.Dict? then ItemTuples(v.items)
    else match Iterate(v)
      case Some(xs) => xs
      case None => [v]
  }
}
