# blockscope: a verified model of `Local`

`blockscope` provides one class, `Local`, a namespace object meant for a
`with` block. Its constructor takes positional and keyword arguments and turns
them into attributes:

- a str argument is a *specifier* such as `'x, _, y?, z~, *'`. The argument
  after it is the *value source*. The comma-separated segments are parsed one
  at a time by `parse_name_` and paired with the source's values the way
  `zip_longest` pairs them. A `_` consumes a value and binds nothing. A `?`
  name is skipped when no value is left, and a `~` name is set to None. A `*`
  stops binding and drops whatever is left.
- any other argument, when no specifier is pending, is copied: a dict entry
  by entry, any other iterable as (name, value) pairs.
- keyword arguments are applied last, so they win on a name collision.

Reading a missing attribute raises AttributeError. Leaving the `with` block
erases every attribute and never suppresses an exception.

The model has five modules:

- `Text` (text.dfy): `strip`, `rstrip`, `split` and `isidentifier`.
- `Objects` (objects.dfy): the Python values the constructor receives, and the
  run-time decisions it makes about them (iterable or not, dict or not,
  subscriptable or not).
- `Specifier` (specifier.dfy): the segment parser `parse_name_`.
- `Binding` (binding.dfy): the pairing loop, as a function over the stream of
  parse results and the values.
- `Scope` (scope.dfy): the argument loop as a function, and the class
  `Local`, whose methods update its attribute map in place. Each method is
  proved equal to the function that specifies it.

`Cases` (cases.dfy) holds concrete instances taken from the repository's test
suite. `Wrappers` (wrappers.dfy) holds `Option` and `Result`.

Parsing is lazy in the source: `map(parse_name_, ...)` runs only when
`zip_longest` pulls the next segment. In the model, `Bind` consumes the parse
results one per step. It stops at the first error or wildcard and looks at
nothing after it. A segment is parsed at most once and parsing has no side
effects, so a segment parsed here but never pulled in Python changes nothing.
Three consequences of the laziness hold in the model as they do in the code:

- for `'x,,n'`, `x` is bound before the empty-name error;
- `'*,23'` is accepted;
- a trailing specifier with no argument after it is never parsed.

## Model

| member | source | states |
|---|---|---|
| Text.IsSpace | blockscope.py:64 | the characters below 128 that `str.isspace` accepts: space, tab through carriage return, and 0x1C-0x1F (a definition; used by every strip contract) |
| Text.LStrip | blockscope.py:64 | `lstrip` returns the longest suffix not starting with whitespace; what it removes is all whitespace |
| Text.RStrip | blockscope.py:69 | `rstrip` returns the longest prefix not ending in whitespace; what it removes is all whitespace |
| Text.Strip | blockscope.py:64 | `strip` returns a string trimmed at both ends and no longer than its input |
| Text.StripSpaced | blockscope.py:64 | the input is some whitespace, then the stripped string, then some whitespace |
| Text.StripPadded | blockscope.py:64 | a trimmed string padded with any whitespace strips back to itself |
| Text.Split | blockscope.py:90 | `split(',')` returns at least one part, empty parts included; no part holds a comma; joining the parts with commas gives the input back |
| Text.SplitJoin | blockscope.py:90 | splitting undoes joining when no part holds the separator, so `Split` is the inverse of `Join` |
| Text.IsIdentifier | blockscope.py:82 | `isidentifier` over ASCII: a letter or `_`, then letters, digits and `_` (a definition; the type `Parsed` and `Binding.NameOf` state that every parsed name satisfies it) |
| Text.IdentifierTrimmed | blockscope.py:82 | an identifier is non-empty and has no whitespace at either end |
| Objects.Iterate | blockscope.py:99-102 | `iter(v)` raises TypeError exactly for None and int |
| Objects.Subscript | blockscope.py:122-125 | `j[0]` and `j[1]` fail on None and int, and on a str or sequence too short for the index; otherwise a str gives its k-th character as a str, a sequence its k-th element, and a dict the value stored under the int key k |
| Objects.Lookup | blockscope.py:125 | a dict lookup succeeds exactly when some entry has the key, and returns that entry's value |
| Objects.Chars | blockscope.py:97-100 | iterating a str yields one one-character str per character, in order |
| Objects.ItemTuples | blockscope.py:95 | a dict's `items()` yields one 2-tuple (key, value) per entry, in order |
| Objects.SourceValues | blockscope.py:94-102 | the value source is a dict's items as 2-tuples, a list's elements, a str's one-character strs, or a non-iterable as the only value |
| Specifier.ParseSegment | blockscope.py:63-66 | a segment is rejected with the empty-name error exactly when it is blank; otherwise its stripped text is classified |
| Specifier.Classify | blockscope.py:67-84 | the error "empty name before the modifier" holds exactly when a trailing `?`/`~` has only blanks before it; the placeholder-default error exactly for `_~`; the wildcard token exactly for `*` or `_*`; the misplaced-wildcard error exactly for another prefix before `*`; every name returned is the stripped text before the modifier; every parsed name is an identifier (type `Parsed`) |
| Specifier.ParseAll | blockscope.py:90 | the k-th parse result is the parse of the k-th segment |
| Specifier.ClassifyPlain | blockscope.py:80-84 | an identifier with no modifier character classifies as itself with no modifier |
| Specifier.ClassifyMarked | blockscope.py:67-84 | an identifier before `?`, or before `~` unless it is `_`, classifies as that name with that modifier |
| Specifier.ParseSpelled | blockscope.py:63-84 | every identifier with no modifier, `?` or `~` (not `_~`), written with any blanks around it, parses back to exactly that name and modifier |
| Specifier.ParseWildSpelled | blockscope.py:74-79 | `*` and `_*` with any blanks parse to the nameless wildcard token |
| Binding.Bind | blockscope.py:100-118 | the `zip_longest` loop over parse results and values, with its `break` and `continue` paths (a definition; its properties are the Binding lemmas below) |
| Binding.NameOf | blockscope.py:82-84 | the name of a parsed named token is a valid identifier |
| Binding.BindChangesOnlyNames | blockscope.py:104-116 | binding never removes an attribute and changes only identifiers other than `_`; its only errors are grammar errors, a value with no name, or a name with no value |
| Binding.BindPrefix | blockscope.py:104-116 | when the first tokens all have values, they bind without error and the rest binds on top of what they bound, so earlier bindings survive a later error |
| Binding.BindExact | blockscope.py:104-116 | with one value per token and no wildcard: no error; each name except `_` ends up with the value at its last position; no other name is added; all other attributes keep their values |
| Binding.BindSurplus | blockscope.py:105-106 | more values than tokens, with no wildcard: the error names the first unmatched value |
| Binding.BindWithoutValues | blockscope.py:107-112 | with no value left, `?` tokens are skipped and `~` tokens are set to None; nothing fails, and nothing else changes |
| Binding.MissingValue | blockscope.py:107-113 | with no value left, a plain token fails with an error naming it, `_` included; the `?`/`~` bindings before it remain |
| Binding.NothingAfterStop | blockscope.py:100-108 | segments after a wildcard or a parse error never affect the outcome |
| Binding.WildcardTruncates | blockscope.py:108-114 | binding up to a wildcard equals binding the earlier tokens against the values they can reach; values left over are dropped |
| Binding.WildcardDiscards | blockscope.py:114 | with a value for every token before the wildcard, binding succeeds and the surplus values are discarded |
| Scope.SetItems | blockscope.py:121-125 | copying (name, value) items never removes an attribute; it fails only on an item without elements 0 and 1 or a name that is not a str |
| Scope.PassThrough | blockscope.py:119-125 | copying an argument never removes an attribute; it raises TypeError for not-iterable exactly on None and int; it never raises a specifier error |
| Scope.PassThroughPairs | blockscope.py:123-125 | an iterable of (str, value) pairs is copied without error: each name holds the value of its last pair, no other attribute is added, and the attributes it names nowhere keep their values |
| Scope.PairStep | blockscope.py:124-125 | copying pairs is setting the first pair, then copying the rest |
| Scope.PairsValues | blockscope.py:124-125 | every name ends up with the value of the last pair that names it |
| Scope.PairsKeys | blockscope.py:124-125 | after copying pairs, the attributes are the old ones plus the names of the pairs |
| Scope.PairsKeeps | blockscope.py:124-125 | copying pairs leaves attributes that no pair names unchanged |
| Scope.PassThroughDict | blockscope.py:120-122 | a dict with str keys is copied without error: each key holds its value, no other key is added, and other attributes are unchanged |
| Scope.DictValues | blockscope.py:121-122 | every entry of a str-keyed dict is copied with its value |
| Scope.DictKeys | blockscope.py:121-122 | after a dict is copied, the attributes are the old ones plus the dict's keys |
| Scope.DictKeeps | blockscope.py:121-122 | a dict copy leaves attributes not among its keys unchanged |
| Scope.Run | blockscope.py:86-125 | the loop over positional arguments, with the pending specifier (a definition; `RunKeepsAttributes`, `TrailingSpecifierIgnored` and the `Cases` lemmas state its properties) |
| Scope.RunKeepsAttributes | blockscope.py:86-125 | positional arguments never remove an attribute, whether or not an error stops the loop |
| Scope.TrailingSpecifierIgnored | blockscope.py:87-91 | a specifier str with no argument after it changes nothing |
| Scope.Construct | blockscope.py:127-128 | on success every keyword argument holds its value and the other attributes come from the positional arguments; on error the outcome is that of the positional arguments |
| Scope.Local.constructor | blockscope.py:33 | a new scope has no attributes |
| Scope.Local.Init | blockscope.py:33-128 | the new attributes and the error are those of `Construct`; attributes bound before an error remain |
| Scope.Local.Positional | blockscope.py:86-125 | the loop over positional arguments, with the pending specifier, computes `Run` |
| Scope.Local.SetKeywords | blockscope.py:127-128 | after the keyword loop the attributes are the old ones overridden by the keyword arguments |
| Scope.Local.BindSpecifier | blockscope.py:90-102 | one specifier against its value source computes `Bind` on the parsed segments and `SourceValues` |
| Scope.Local.BindTokens | blockscope.py:104-118 | the `zip_longest` loop, with its `break` and `continue` paths, computes `Bind` |
| Scope.Local.Unpack | blockscope.py:119-125 | copying an argument in place computes `PassThrough` |
| Scope.Local.SetPairs | blockscope.py:121-125 | the item loop computes `SetItems` |
| Scope.Local.SetAttr | blockscope.py:116 | setting an attribute overwrites that one name and changes no other |
| Scope.Local.GetAttr | blockscope.py:130-132 | reading succeeds exactly when the name is held and returns its value; otherwise it fails with the no-attribute error for that name |
| Scope.Local.Enter | blockscope.py:134-135 | the `with` block gets the scope itself |
| Scope.Local.Exit | blockscope.py:137-139 | afterwards no attribute is left, every read fails, and the result is false, so exceptions propagate |
| Cases.SplitKeepsEmptySegments | test/test_blockscope.py:152-160 | `'x,,n'` and `'x,n,'` split with an empty segment |
| Cases.SplitCons | blockscope.py:90 | a comma-free head before a comma is the first segment, and the rest splits as before |
| Cases.RunSpecifier | blockscope.py:87-118 | a specifier str followed by its source: the loop binds the parsed segments to the source's values, stops on an error, and otherwise goes on with the remaining arguments |
| Cases.ParseNamesAndWildcard | blockscope.py:63-90 | `'x, _, y, *'`, with any identifiers for x and y and any blanks after the commas, parses to x, `_`, y and the wildcard |
| Cases.ParseTwoNamesAndPlaceholder | blockscope.py:63-90 | `'a,b,_'`, with any identifiers for a and b, parses to a, b and `_` |
| Cases.BindPlaceholderWildcard | blockscope.py:104-116 | `'x, _, y, *'` on any five values binds x to the first and y to the third; `_` consumes the second and `*` drops the rest |
| Cases.ChainedSpecifiers | test/test_blockscope.py:134-138 | `Local('x, _, y, *', "hello", 'a,b,_', (1, 2, 3))`, for any names other than `_`, ends with x = 'h', y = 'l', a = 1, b = 2 and no error |
| Cases.ParseTwoNamesAndBlank | test/test_blockscope.py:157-165 | `'x,n,'` and `'x,n, '` parse to two names and then the empty-name error |
| Cases.BlankLastSegment | test/test_blockscope.py:157-165 | `Local('x,n, ', (1, 2, 3))` and `Local('x,n,', (1, 2, 3))` bind x and n, then fail with the empty-name error |
| Cases.TooManyValues | test/test_blockscope.py:142-145 | `'x,y'` on (1, 2, 3) binds x and y, then fails on the value 3 |
| Cases.TooFewValues | test/test_blockscope.py:147-150 | `'x,y, z, n'` on (1, 2, 3) fails for n |
| Cases.ErrorAfterBinding | test/test_blockscope.py:152-155 | with an empty middle segment, x is bound before the error |
| Cases.Modifiers | test/test_blockscope.py:100-104 | `'x?, y?, z~, n?'` on (1, 2, 3) binds x, y, z and leaves n unset |
| Cases.DefaultWithoutValue | test/test_blockscope.py:88-92 | `'x, y, z, n~'` on (1, 2, 3) sets n to None |
| Cases.HelloChars | test/test_blockscope.py:130-132 | the str `"hello"` as a source yields its five characters |
| Cases.CharsWithWildcard | test/test_blockscope.py:130-132 | `'x, _, y, *'` on those characters binds x to 'h' and y to 'l' |
| Cases.ScalarWithWildcard | test/test_blockscope.py:127-128 | `'x,*'` on 42 binds x to 42 |
| Cases.PlaceholderWithoutValue | blockscope.py:107-113 | `'x, _'` on one value fails for `_` |
| Cases.WildcardFirst | blockscope.py:100-108 | `'*,23'` succeeds and binds nothing; the invalid segment is never used |

## Left out

- Unicode: `str.strip` and `str.isidentifier` are modelled on ASCII. Whitespace
  is the characters below 128 that Python's `isspace` accepts. An identifier is
  a letter or `_` followed by letters, digits and `_`.
- Error messages: only the kind of error and its payload are modelled. The
  test suite's expected messages differ from the messages the code raises (for
  example "empty attribute name" against "got empty attribute name"), so the
  texts are not checked here.
- Exception classes: AttributeError and TypeError are one `Error` type.
  Failures of `j[0]`/`j[1]` are one kind (`NotAPair`), whether Python would
  raise TypeError, IndexError or KeyError.
- Python's attribute protocol: `__dict__` is a `map<string, Value>`.
  Attributes found on the class (methods, dunder names) are not modelled, so
  `GetAttr` consults only the map.
- The `with` statement and exception propagation: `Enter` returns the object
  and `Exit` empties the map and returns false. `__exit__`'s three parameters
  are unused by the code and are left out.
- Values: only None, int, str, sequences and dicts are represented. Every
  other iterable (tuple, list, zip object, generator) is a `List`. A dict is
  its items in iteration order; key hashing is plain equality on `Value`.
- The `_NotPresent` sentinel is the end of the value sequence in `Bind`: its
  effect is the same, and no sentinel value can be mistaken for a real one.
- Scope.Local.BindSpecifier: it parses every segment before the pairing loop
  starts. The parse results are consumed in order, and parsing has no side
  effects, so the bindings and the first error are those of the lazy `map`.
  Which segments Python actually parses is not observable in the model.
- Keyword arguments: Python's dict keeps insertion order; here they are a map,
  applied in an arbitrary order. The keys are distinct, so the resulting
  attributes are the same.
