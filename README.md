# thinrecord, modelled in Dafny

`thinrecord(typename, fields, default=NO_DEFAULT, ignore_extra_kwargs=True)` is a
factory for small mutable record classes. Each class has one `__slots__` entry per
field and no instance `__dict__`. The factory checks the type name and every
field name. It accepts the fields as one comma/whitespace separated string, or as
a sequence of bare names and `(name, default)` pairs. It resolves each field's
default: the pair's own value first, then the factory default, with the sentinel
`NO_DEFAULT` meaning "none". It then generates the class text and executes it.

An instance supports a fixed protocol:

- `len`, iteration, `_items`, `repr`;
- `==` / `!=`: same class and equal value tuples;
- `<` / `<=`: tuple order within one class. `>` and `>=` are written as the
  negations of `<=` and `<`;
- `hash` always raises;
- `__getstate__` / `__setstate__`;
- indexing and index assignment;
- `_update`.

The model has these parts:

- `errors.dfy` (`Errors`): every failure the factory, the constructor and the
  protocol raise, each tagged with its Python exception class.
- `values.dfy` (`Values`): field values (`None`, integers, strings) and Python 3's
  ordering of values and of value tuples.
- `names.dfy` (`Names`): `_check_name`.
- `split.dfy` (`Split`): `fields.replace(',', ' ').split()`.
- `factory.dfy` (`Factory`): the factory's decision as pure functions. It parses
  and validates the fields, resolves defaults, and states what Python refuses
  when it compiles and executes the generated class.
- `binding.dfy` (`Binding`): how a call `cls(*pos, **kws)` binds to the generated
  `__init__` signature, in CPython's order of checks.
- `repr.dfy` (`Repr`): `repr` of values and of records, and a reader that takes
  it back.
- `thinrecord.dfy` (`ThinRecord`): the imperative part.
  - `RecordType`: a class, one object per factory call. This gives every call its
    own class identity.
  - `Record`: a class holding its `RecordType` and an `array` of slots.
  - The factory loop `CollectFields` and `Create`.
  - Construction, `__iter__`, `__setitem__`, `__setstate__`, `_update`.
  - The read-only protocol, as functions over `Rec` (an instance's class and
    value tuple).
- `laws.dfy` (`RecordLaws`): what the protocol promises, proved over the model.
- `scenarios.dfy` (`ScenarioNames`, `Scenarios`): concrete calls taken from the repository's tests.

The code is followed where it and the documentation disagree:

- **Field order.** Parameters are not reordered. The generated signature lists
  the fields in declared order (thinrecord.py:79-86). A field without a default
  that follows one with a default therefore makes the generated text fail to
  compile, and the factory raises SyntaxError. The model reports this as
  `DefaultBeforeRequired`. It does not move the required field to the front.
- **Python version.** Python 3 semantics are modelled:
  - Python 3's keyword list;
  - ordering `None`, or an `int` against a `str`, raises TypeError;
  - `zip` is an iterator.
  The tests compare `_items()` with a list, a Python 2 habit. The model gives
  `_items` as the sequence of pairs.

## Model

| member | source | states |
|---|---|---|
| `Names.AllNameChars` | thinrecord.py:31 | true exactly when every character is alphanumeric or `_` |
| `Names.CheckName` | thinrecord.py:24-38 | accepts exactly a non-empty string of alphanumerics and `_` that is not a keyword and does not start with a digit; every refusal is a ValueError; the empty name is reported as such |
| `Split.CommasToSpaces` | thinrecord.py:48 | same length; every comma becomes a space, every other character stays |
| `Split.TakeWord` | thinrecord.py:48 | the longest separator-free prefix; non-empty when the text does not start with a separator |
| `Split.Words` | thinrecord.py:48 | every piece `split()` returns is non-empty and holds no whitespace (with `WordsOfWord`, `WordsAtSeparator` and `WordsKeepEverythingElse` below) |
| `Split.Tokens` | thinrecord.py:47-48 | the tokens of a string specification are non-empty and hold neither whitespace nor a comma |
| `Split.WordsKeepEverythingElse` | thinrecord.py:48 | gluing the pieces back together gives exactly the non-whitespace characters of the input, in order |
| `Split.SplitJoinRoundTrip` | thinrecord.py:48 | splitting words joined by single spaces gives the words back |
| `Split.WordsOfWord` | thinrecord.py:48 | a string without whitespace splits into itself alone |
| `Split.WordsAtSeparator` | thinrecord.py:48 | every whitespace character is a break: splitting `a + c + b` at a whitespace `c` gives the pieces of `a` followed by those of `b`; with `WordsOfWord` this fixes `split()` on every input |
| `Factory.Elements` | thinrecord.py:47-51 | a sequence specification is walked as given; a string specification becomes bare names, each non-empty and free of commas and whitespace, which together hold exactly the string's characters other than commas and whitespace, in order |
| `Factory.AddField` | thinrecord.py:51-70 | one loop pass accepts an element iff it unpacks into a valid, non-reserved name not seen before; it then appends the name and records the pair's own default, else the factory's, unless that is the sentinel; every refusal is a ValueError |
| `Factory.ParseFields` | thinrecord.py:51-70 | the loop yields one name per element, and every failure is a ValueError |
| `Factory.ParseFailureSticks` | thinrecord.py:51-68 | once the loop fails on an element, the factory fails with that error whatever follows |
| `Factory.ParseFieldsSucceeds` | thinrecord.py:51-68 | the loop succeeds iff every element unpacks into a valid, non-reserved name and no name repeats; the names come out in declared order |
| `Factory.DefaultResolution` | thinrecord.py:51-70 | a field has a default iff its effective default (the pair's own, else the factory's) is not the sentinel, and then it is that value; only declared fields have defaults |
| `Factory.RequiredAfterDefault` | thinrecord.py:79-86 | finds a field without a default after one with a default exactly when defaults do not form a suffix of the field list |
| `Factory.FirstIn` | thinrecord.py:104-109 | finds a field whose slot name clashes with a name the class body defines exactly when one exists |
| `Factory.TemplateCheck` | thinrecord.py:79-112 | the generated class is accepted iff its text compiles (defaults form a suffix, no parameter named `self` or `_unused_kwargs`, no field or class named `__debug__`) and no slot clashes with a class-body name; a text that does not compile is a SyntaxError; otherwise the failure is a slot clash, a ValueError |
| `Factory.Declare` | thinrecord.py:41-191 | a created class carries the validated type name, the extra-keyword policy, and a text that compiles; every factory failure is a ValueError or a SyntaxError |
| `Factory.DeclaredSpec` | thinrecord.py:41-191 | a successful factory call yields a well-formed class: valid distinct fields in declared order, each with a default iff its effective default is not the sentinel and then equal to it, defaults forming a suffix, no parameter clash, no slot clash |
| `Factory.TextMeansTokens` | thinrecord.py:47-48 | a string specification declares the same class as the list of its tokens |
| `Binding.FirstRepeated` | thinrecord.py:111 | finds a keyword passed twice exactly when the call's keywords are not distinct |
| `Binding.Lookup` | thinrecord.py:111 | a keyword's value is found exactly when the keyword was passed |
| `Binding.BindKeywords` | thinrecord.py:111 | the keyword pass keeps what was bound before, and every failure in it is a TypeError |
| `Binding.Missing` | thinrecord.py:79-86 | lists no field exactly when every field past the positional ones is given by keyword or has a default |
| `Binding.Bind` | thinrecord.py:111-112 | a successful call yields one value per declared field; every failed call raises TypeError |
| `Binding.BindKeywordsSpec` | thinrecord.py:79-86 | the keyword pass succeeds iff no keyword is `self`, no keyword names a field already bound, and a strict class gets only field names; it then binds exactly the keywords that name fields, to the values passed |
| `Binding.BindSucceeds` | thinrecord.py:79-112 | a call succeeds iff keywords are distinct, there are no more positional arguments than fields, no keyword is `self`, no field is given twice, a strict class gets no unknown keyword, and every field past the positional ones is given by keyword or has a default |
| `Binding.BindValues` | thinrecord.py:111-112 | every slot is assigned once: from its positional argument, else from its keyword, else from its resolved default |
| `Binding.KnownOnlyKeys` | thinrecord.py:84-85 | dropping the keywords that name no parameter keeps exactly the keywords that are `self` or name fields, and keeps them distinct |
| `Binding.ExtraKeywordsIgnored` | thinrecord.py:84-85 | with `ignore_extra_kwargs`, a call behaves exactly as if the keywords naming no parameter had not been passed |
| `Binding.StrictRejectsExtra` | thinrecord.py:84-85 | without `ignore_extra_kwargs`, a keyword naming no field makes the call raise TypeError |
| `Binding.SelfKeywordRefused` | thinrecord.py:111 | a keyword named `self` makes every call raise TypeError, whatever the extra-keyword policy |
| `Binding.StateRoundTrip` | thinrecord.py:164-168 | calling the class positionally with a value tuple of the right length rebuilds exactly that tuple |
| `Values.StrLess` | thinrecord.py:143-156 | string `<`: at the first index where the strings differ it is the code-point order of those characters; when one is a prefix of the other, the shorter is below; so no string is below itself |
| `Values.StrLessTransitive` | thinrecord.py:143-145 | string `<` (code point by code point, a proper prefix first) is transitive |
| `Values.StrLessConnected` | thinrecord.py:143-145 | two different strings are ordered one way or the other |
| `Values.ValueCompare` | thinrecord.py:143-156 | two values compare iff both are ints or both are strs, otherwise TypeError; ints answer by integer `<` / `<=`, strs by string `<` (and, for `<=`, equality) |
| `Values.TupleCompare` | thinrecord.py:143-156 | tuple comparison is decided by the first index where the tuples differ, comparing those two values with the operator; when one tuple is a prefix of the other it compares the lengths; it raises only TypeError |
| `Values.AlignedCompareSucceeds` | thinrecord.py:143-156 | tuples whose items agree in type position by position compare without raising (a sufficient condition, not a necessary one) |
| `Values.TupleLessIrreflexive` | thinrecord.py:143-156 | `t < t` is false and `t <= t` is true, for any tuple |
| `Values.TupleLessTransitive` | thinrecord.py:143-145 | tuple `<` is transitive |
| `Values.TupleLessAsymmetric` | thinrecord.py:143-145 | if `xs < ys` then `ys < xs` answers false |
| `Values.TupleLessConnected` | thinrecord.py:143-145 | wherever `xs < ys` answers for two different tuples, `ys < xs` answers too, and one of them is true |
| `Values.AlignedLessConnected` | thinrecord.py:143-145 | two different type-aligned tuples are always ordered one way or the other |
| `Values.LessOrEqualIsLessOrEqual` | thinrecord.py:152-154 | tuple `<=` raises iff `<` does, and otherwise is `<` or `==` |
| `Values.TupleCompareConverse` | thinrecord.py:143-156 | `xs <= ys` raises iff `ys < xs` does, and otherwise is its negation |
| `Repr.DigitsRoundTrip` | thinrecord.py:135 | the decimal digits of a natural number read back as that number |
| `Repr.IntRepr` | thinrecord.py:135 | `repr` of an int is a minus sign exactly when it is negative, then decimal digits with no leading zero (a single `0` for zero) |
| `Repr.IntReprRoundTrip` | thinrecord.py:135 | `repr` of an int, followed by anything but a digit, reads back as that int |
| `Repr.StrRepr` | thinrecord.py:135 | `repr` of a str sits between two equal quotes, double quotes exactly when the text holds a single quote and no double quote |
| `Repr.StrReprRoundTrip` | thinrecord.py:135 | `repr` of a str (quote choice, escapes) reads back as that str, and reading stops at its closing quote |
| `Repr.UnescapeEscape` | thinrecord.py:135 | the escaped body of a string, followed by its quote, reads back as the string and stops at that quote |
| `Repr.ValueRepr` | thinrecord.py:135 | the first character of `repr(v)` tells the kind of value: `N` for None, a quote for a str, a minus or a digit for an int |
| `Repr.ValueReprRoundTrip` | thinrecord.py:135 | `repr` of any field value reads back as that value: distinct values have distinct text |
| `Repr.ParseItemsRoundTrip` | thinrecord.py:91 | the `f1=repr(v1), ...` list, closed by `)`, reads back as the values in declared order |
| `Repr.RecordRepr` | thinrecord.py:134-135 | `repr` of a record starts with the type name and `(` and ends with `)` |
| `Repr.RecordReprRoundTrip` | thinrecord.py:134-135 | `Typename(f1=repr(v1), ...)` reads back, given the class, as the values in declared order |
| `Repr.ReprInjective` | thinrecord.py:134-135 | two records of one class with the same `repr` hold the same values |
| `ThinRecord.RecordType.constructor` | thinrecord.py:104-109 | the class keeps the name, declared fields, defaults and extra-keyword policy it was made from |
| `ThinRecord.RecordType.Call` | thinrecord.py:111-112 | calling the class raises exactly the binding error, or returns a new instance of this class whose slots hold the bound values |
| `ThinRecord.Record.constructor` | thinrecord.py:111-112 | a new instance of the given class whose slots hold the given values |
| `ThinRecord.Record.Assign` | thinrecord.py:88-90 | the body of `__init__` leaves every slot holding its bound value |
| `ThinRecord.Record.Iter` | thinrecord.py:114-120 | iteration yields the slot values in declared order, and as many as `len` says |
| `ThinRecord.Record.SetItem` | thinrecord.py:173-177 | a slice raises TypeError; an index out of range raises IndexError; both change nothing; otherwise only the indexed slot changes (negative indices count from the end) |
| `ThinRecord.Record.SetState` | thinrecord.py:167-168 | re-runs the constructor with the state as positional arguments: on success the slots hold the bound values, on failure the binding error is raised and nothing changes |
| `ThinRecord.Record.Update` | thinrecord.py:126-128 | a call Python refuses (a repeated keyword, or `self`) raises TypeError and changes nothing; otherwise the new slots and the error are what the written loop over keyword names produces from the old slots |
| `ThinRecord.Len` | thinrecord.py:114-115 | `len` is the number of declared fields, as many as the values an instance exports and the items it lists |
| `ThinRecord.GetState` | thinrecord.py:164-165 | the exported state, passed back positionally to the class, rebuilds exactly the instance's values |
| `ThinRecord.Items` | thinrecord.py:122-124 | `_items()` has the field names as keys, in declared order, each with its field's value |
| `ThinRecord.ToRepr` | thinrecord.py:134-135 | `repr` of an instance reads back, given its class, as the instance's values |
| `ThinRecord.Eq` | thinrecord.py:137-138 | `==` holds iff same class, same number of values, and equal values slot by slot |
| `ThinRecord.Ne` | thinrecord.py:140-141 | `!=` holds iff the classes differ or some slot differs |
| `ThinRecord.Lt` | thinrecord.py:143-147 | `<` raises TypeError for another class and raises only TypeError; within one class it is `tuple(self) < tuple(other)`, so the first differing values decide it, and no instance is below one equal to it |
| `ThinRecord.Le` | thinrecord.py:152-156 | `<=` raises TypeError for another class and raises only TypeError; within one class it is `tuple(self) <= tuple(other)`, so the first differing values decide it, and every instance is at most one equal to it |
| `ThinRecord.Gt` | thinrecord.py:158-159 | `a > b`, written as `not a <= b`, raises TypeError for another class, and within one class answers as `b < a`, raising in the same cases |
| `ThinRecord.Ge` | thinrecord.py:149-150 | `a >= b`, written as `not a < b`, raises TypeError for another class, and within one class answers as `b <= a`, raising in the same cases |
| `ThinRecord.Hash` | thinrecord.py:161-162 | hashing always raises TypeError |
| `ThinRecord.Resolve` | thinrecord.py:170-177 | an index is accepted iff `-len <= i < len`, and then names position `i` or `i + len` |
| `ThinRecord.Clamp` | thinrecord.py:171 | a slice bound: absent, the default; otherwise counted from the end when negative, then clamped to `0..len` |
| `ThinRecord.GetItem` | thinrecord.py:170-171 | an index yields `tuple(self)[i]` (negative from the end) or raises IndexError; a slice yields the values from the adjusted lower bound up to the adjusted upper bound, none when the bounds cross |
| `ThinRecord.IndexOf` | thinrecord.py:177 | the position of a field name in `_fields` |
| `ThinRecord.UpdateRefusal` | thinrecord.py:126 | Python refuses an `_update` call iff a keyword repeats or one is named `self`, with TypeError |
| `ThinRecord.UpdateAsWritten` | thinrecord.py:126-128 | the loop as written keeps the number of slots, succeeds iff every keyword name is two characters long and starts with a field's one-letter name, and fails with ValueError or AttributeError |
| `ThinRecord.IntendedUpdate` | thinrecord.py:126-128 | the intended loop succeeds iff every keyword names a field, keeps the number of slots, and otherwise raises AttributeError |
| `ThinRecord.CollectFields` | thinrecord.py:51-70 | the imperative loop over the field elements computes exactly the specified parse, with the same first error |
| `ThinRecord.Create` | thinrecord.py:41-202 | the factory raises exactly the specified error, or returns a new, well-formed class holding the specified declaration |
| `RecordLaws.ItemsAreFieldsAndValues` | thinrecord.py:122-132 | `_items()` lists `_fields` in order, and the mapping built from it gives each field its own value |
| `RecordLaws.ItemsRebuild` | thinrecord.py:122-124 | calling the class with an instance's items as keywords rebuilds exactly its values |
| `RecordLaws.EqIsClassAndValueEquality` | thinrecord.py:137-141 | `==` holds iff same class and equal value tuples, and is an equivalence; `!=` is always its negation |
| `RecordLaws.LessIsStrictOrder` | thinrecord.py:143-145 | `<` within one class is irreflexive, asymmetric and transitive |
| `RecordLaws.LessOrEqualIsLessOrEq` | thinrecord.py:152-154 | `<=` within one class is `<` or `==`, raising exactly when `<` does |
| `RecordLaws.Trichotomy` | thinrecord.py:143-145 | for two instances of one class, whenever `a < b` answers, `b < a` answers too, and exactly one of `a < b`, `a == b`, `b < a` holds |
| `RecordLaws.AlignedTrichotomy` | thinrecord.py:143-145 | instances of one class whose values agree in type field by field always compare without raising, and so satisfy trichotomy |
| `RecordLaws.SubscriptsReadTheTuple` | thinrecord.py:170-171 | `r[i]`, `r[i - len]` and `r[i:i+1]` read slot `i`; `r[:]` is the whole tuple |
| `RecordLaws.ReprDeterminesInstance` | thinrecord.py:134-135 | `repr` reads back as the value tuple; two instances of one class with the same `repr` are equal |
| `RecordLaws.RestoreOwnState` | thinrecord.py:164-168 | `r.__setstate__(r.__getstate__())` succeeds and leaves `r` unchanged |
| `RecordLaws.CopyThroughState` | thinrecord_tests.py:30-32 | an instance rebuilt from its class and exported state is a new object equal to the original |
| `RecordLaws.SameArgumentsTwoClasses` | thinrecord_tests.py:46-54 | two factory calls with the same arguments give classes whose instances, built alike, hold equal values yet compare unequal |
| `RecordLaws.UpdateAsWrittenStoresNameCharacters` | thinrecord.py:126-128 | `_update` as written keeps the number of slots, and each slot keeps its value or receives a one-character string; the loop reads only the keyword names, never the values passed |
| `RecordLaws.UpdateAsWrittenMissesKeywords` | thinrecord.py:126-128 | `_update(x=5)` on a record with field `x` raises ValueError and leaves `x` alone; the intended update sets it to 5 |
| `RecordLaws.IntendedUpdateSetsFields` | thinrecord.py:126-128 | the intended `_update` sets each named field to the value passed for it and leaves the others alone |
| `Scenarios.TokensOfXYX` | thinrecord_tests.py:65 | `'x y x'` splits into `x`, `y`, `x` |
| `Scenarios.CommaSpaceSplits` | thinrecord.py:47-48 | the specification `'x, y'`, which the comma replacement turns into two separators in a row, gives the fields `x` and `y` |
| `Scenarios.RepeatedFieldRefused` | thinrecord_tests.py:65 | `'x y x'` is refused as a duplicate field |
| `Scenarios.KeywordFieldRefused` | thinrecord_tests.py:66 | `for` is refused as a keyword |
| `Scenarios.HelperNameRefused` | thinrecord_tests.py:67 | `_fields` is refused as a helper name |
| `Scenarios.MalformedElementRefused` | thinrecord_tests.py:70-72 | an element that does not unpack into two items is refused; an empty type name is reported before any field |
| `Scenarios.DefaultThenRequiredRefused` | thinrecord.py:79-91 | `[('x', 2), 'y']` with no factory default makes the generated signature fail to compile |
| `Scenarios.DefaultsResolved` | thinrecord_tests.py:80 | `[('x', 2), 'y']` with factory default 3 gives `x` the default 2 and `y` the default 3 |
| `Scenarios.DefaultsFillTheRest` | thinrecord_tests.py:80 | calling that class with `4` gives `[4, 3]` |
| `Scenarios.ExplicitSentinelMakesRequired` | thinrecord_tests.py:84 | `('x', NO_DEFAULT)` overrides the factory default, and calling with no argument raises TypeError |
| `Scenarios.KeywordFillsLaterField` | thinrecord_tests.py:85 | the factory makes `['x', ('y', 10), 'z']` with default -1 into a class on which `(z=0)` gives `[-1, 10, 0]` |
| `Scenarios.DebugClassRefused` | thinrecord.py:104 | a class named `__debug__` passes name validation but its text does not compile |
| `Scenarios.ExtraKeywordDropped` | thinrecord_tests.py:88 | `(x=3, y=4)` on fields `x` gives `[3]` |
| `Scenarios.ExtraKeywordRefused` | thinrecord_tests.py:89 | a strict class refuses `y=4` with TypeError |
| `Scenarios.PointOrder` | thinrecord.py:143-147 | `Point(1, 2) < Point(1, 3)` is true, and ordering `Point(1, 2)` against an instance of another class raises TypeError |
| `Scenarios.MixedTailOrder` | thinrecord.py:143-145 | `P(1, None) < P(2, 'a')` is true: the first differing values decide, although the tuples are not type-aligned |
| `Scenarios.ReprOfMixedValues` | thinrecord_tests.py:24-25 | `repr(P(1, '2'))` with fields `P`, `x` is `P(P=1, x='2')` |

## Left out

- The generated source text is not modelled, and neither are `exec`, the namespace
  holding the defaults, `cls._source`, the `__module__` patch through
  `sys._getframe`, or the `OrderedDict` / `__builtins__` import fallbacks. The
  model keeps only what the executed class does. It also keeps what compiling
  and executing the text refuses: a required parameter after a defaulted one, a
  parameter named `self` or `_unused_kwargs`, a field or type name `__debug__`
  (which Python 3 refuses to assign), and a slot that clashes with a class-body
  name.
- `__dict__` is not modelled as its own member. It is the mapping built from
  `_items()`, and `RecordLaws.ItemsAreFieldsAndValues` states what it maps.
- Pickling itself (byte I/O) is left out. Only `__getstate__` / `__setstate__`
  are modelled. `RecordLaws.CopyThroughState` rebuilds the copy by calling the
  class with the state positionally. That is what `__setstate__` runs, though
  pickle first allocates the object without calling `__init__`.
- `six` and Python 2 behaviour are left out: `string_types`, Python 2 keywords,
  mixed-type ordering, and `zip` returning a list.
- Subclassing generated classes is left out. So are `isinstance` checks against
  subclasses, and comparisons with objects that are not instances of a generated
  class.
- Field values are limited to `None`, integers and strings. Floats, booleans,
  nested records and arbitrary objects are not modelled.
- `Names.CheckName`: `str.isalnum` and `str.isdigit` are modelled on ASCII only.
  Python accepts non-ASCII letters and digits.
- Type names that shadow a global the class text looks up are not modelled.
  `class {typename}` binds the type name in the namespace where the methods
  find their globals, so the class replaces that global:
  - `isinstance` (thinrecord.py:138, 144, 153, 174);
  - `getattr` (thinrecord.py:120) and `setattr` (thinrecord.py:128, 177);
  - `zip` (thinrecord.py:124), `slice` (thinrecord.py:174) and `TypeError`
    (thinrecord.py:146, 155, 162, 175);
  - `_property`, `_tuple`, `_list` and `_MaybeOrderedDict`.

  With such a type name, `Factory.Declare` accepts the class as any other, but
  the protocol laws (`RecordLaws.EqIsClassAndValueEquality` and the rest) do not
  describe it. For example, with the type name `isinstance`, `__eq__` calls the
  record class instead of the built-in.
- `__iter__` is a generator (thinrecord.py:117-120) and `_items` returns a lazy
  `zip` (thinrecord.py:122-124). Both read the slots one at a time, as they are
  consumed. `Record.Iter` and `ThinRecord.Items` read every slot at the time of
  the call, so a slot changed while an iteration is under way is not modelled.
- The special slot names `__dict__`, `__weakref__` and `__qualname__` get
  special treatment from the class machinery, and this is not modelled.
- A field named `_source` clashes with the attribute set after class creation.
  That clash is not modelled.
- Field names that start with two underscores and do not end with two (such as
  `__x`) are mangled inside the class body: in `__slots__`, in the `__init__`
  parameters and in the assignments. `_fields` keeps the unmangled name, so
  reading such a field by name fails. The model treats them as plain names.
- Field names of the form `__name__` that the class body does not define, such
  as `__str__`, `__new__` or `__setattr__`, become slots. Each slot
  shadows the special attribute the class would inherit from `object`. The model
  accepts them as plain fields and does not model the changed special behaviour.
- A `fields` argument that is neither a string nor iterable is not modelled. A
  malformed element is one failure, `MalformedField`; the source gives different
  messages for a non-iterable element and for one of the wrong length.
- `repr` of a string escapes ASCII control characters. Non-printable non-ASCII
  characters, which Python also escapes, stand as themselves.
- Slices with a step, and slice bounds that are not integers, are not modelled.
- The timing script `performance_test.py` and the memory script
  `_memory_tester.py` measure, and compute nothing to model.

## Findings

| source | as written | input that shows it | evidently intended | confidence | as-written member | corrected member |
|---|---|---|---|---|---|---|
| thinrecord.py:126-128 | `for k, v in kwargs:` iterates the keyword names and unpacks each name string into two characters; the values passed are never read | `r._update(x=5)` on a record with field `x`: the name `x` does not unpack into two items, so it raises ValueError and `x` keeps its value | `for k, v in kwargs.items(): setattr(self, k, v)`: each named field takes the value passed | not executed | `RecordLaws.UpdateAsWrittenMissesKeywords` | `RecordLaws.IntendedUpdateSetsFields` |
