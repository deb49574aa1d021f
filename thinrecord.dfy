/** The generated classes and their instances: the factory that makes a class,
    the constructor, and the instance protocol (`len`, iteration, `_items`,
    `repr`, equality, ordering, hashing, pickling state, subscripts, `_update`). */
module ThinRecord {
  import opened Errors
  import opened Values
  import opened Names
  import opened Factory
  import opened Binding
  import opened Repr

  /** One generated class. Every factory call creates a new one, so two classes
      made from identical arguments are still two different classes. */
  class RecordType {
    const typename: string
    /** `_fields`, the same tuple as `__slots__`: the field names in declared order. */
    const fields: seq<string>
    /** The resolved defaults, bound into the generated signature. */
    const defaults: map<string, Value>
    /** Whether the signature ends in `**_unused_kwargs`. */
    const ignoreExtra: bool

    function Spec(): (s: TypeSpec)
    {
      TypeSpec(typename, fields, defaults, ignoreExtra)
    }

    ghost predicate Valid()
    {
      WellFormed(Spec())
    }

    constructor (spec: TypeSpec)
      requires WellFormed(spec)
      ensures Spec() == spec && Valid()
    {
      typename := spec.typename;
      fields := spec.names;
      defaults := spec.defaults;
      ignoreExtra := spec.ignoreExtra;
    }

    /** `cls(*pos, **kws)`: binds the arguments to the generated signature, then
        runs the body of `__init__` on a new instance. */
    method Call(pos: seq<Value>, kws: Keywords) returns (res: Result<Record>)
      requires Valid()
      ensures Bind(Spec(), pos, kws).Failure? ==> res == Failure(Bind(Spec(), pos, kws).error)
      ensures Bind(Spec(), pos, kws).Success? ==>
        && res.Success? && fresh(res.value) && fresh(res.value.slots)
        && res.value.rtype == this && res.value.Valid()
        && res.value.Values() == Bind(Spec(), pos, kws).value
    {
      match Bind(Spec(), pos, kws)
      case Failure(e) =>
        res := Failure(e);
      case Success(vals) =>
        var r := new Record(this, vals);
        res := Success(r);
    }
  }

  /** An instance: a reference to its class and one slot per declared field. */
  class Record {
    const rtype: RecordType
    const slots: array<Value>

    ghost predicate Valid()
    {
      rtype.Valid() && slots.Length == |rtype.fields|
    }

    /** `tuple(self)`: the slot values in declared order. */
    function Values(): (vs: seq<Value>)
      reads slots
    {
      slots[..]
    }

    /** What the read-only protocol methods look at: the class and `tuple(self)`. */
    function Snapshot(): (s: Rec)
      reads slots
    {
      Rec(rtype, slots[..])
    }

    /** A new instance of `rt` whose `__init__` body runs on the bound values. */
    constructor (rt: RecordType, vals: seq<Value>)
      requires rt.Valid() && |vals| == |rt.fields|
      ensures rtype == rt && Valid() && fresh(slots) && Values() == vals
    {
      rtype := rt;
      slots := new Value[|vals|];
      new;
      Assign(vals);
    }

    /** The body of `__init__`: `self.f = f` for every field, in declared order. */
    method Assign(vals: seq<Value>)
      requires slots.Length == |vals|
      modifies slots
      ensures Values() == vals
    {
      var i := 0;
      while i < |vals|
        invariant 0 <= i <= |vals|
        invariant slots[..i] == vals[..i]
      {
        slots[i] := vals[i];
        i := i + 1;
      }
    }

    /** `__iter__`: `getattr(self, f)` for each `f` in `_fields`, in order. */
    method Iter() returns (vs: seq<Value>)
      requires Valid()
      ensures vs == Values()
      ensures |vs| == Len(Snapshot())
    {
      vs := [];
      var i := 0;
      while i < |rtype.fields|
        invariant 0 <= i <= |rtype.fields|
        invariant vs == slots[..i]
      {
        vs := vs + [slots[i]];
        i := i + 1;
      }
    }

    /** `__setitem__(idx, v)`: a slice is refused; otherwise the index picks a
        name out of `_fields` (negative indices count from the end, anything
        out of range is an IndexError) and only that slot changes. */
    method SetItem(idx: Index, v: Value) returns (err: Option<Error>)
      requires Valid()
      modifies slots
      ensures idx.Range? ==> err == Some(SliceAssignment(rtype.typename)) && Values() == old(Values())
      ensures idx.At? && Resolve(idx.i, |rtype.fields|).None? ==>
        err == Some(IndexOutOfRange(idx.i)) && Values() == old(Values())
      ensures idx.At? && Resolve(idx.i, |rtype.fields|).Some? ==>
        err.None? && Values() == old(Values())[Resolve(idx.i, |rtype.fields|).value := v]
    {
      match idx
      case Range(_, _) =>
        err := Some(SliceAssignment(rtype.typename));
      case At(i) =>
        match Resolve(i, |rtype.fields|)
        case None =>
          err := Some(IndexOutOfRange(i));
        case Some(k) =>
          slots[k] := v;
          err := None;
    }

    /** `__setstate__(state)`: runs `__init__(*state)` again on this instance; a
        state the signature does not accept raises and changes nothing. */
    method SetState(state: seq<Value>) returns (err: Option<Error>)
      requires Valid()
      modifies slots
      ensures Bind(rtype.Spec(), state, []).Failure? ==>
        err == Some(Bind(rtype.Spec(), state, []).error) && Values() == old(Values())
      ensures Bind(rtype.Spec(), state, []).Success? ==>
        err.None? && Values() == Bind(rtype.Spec(), state, []).value
    {
      match Bind(rtype.Spec(), state, [])
      case Failure(e) =>
        err := Some(e);
      case Success(vals) =>
        Assign(vals);
        err := None;
    }

    /** `_update(**kws)` as written: a call Python refuses changes nothing;
        otherwise the loop walks the keyword NAMES and unpacks each name into
        `k, v`, so the values passed are never looked at. */
    method Update(kws: Keywords) returns (err: Option<Error>)
      requires Valid()
      modifies slots
      ensures UpdateRefusal(kws).Some? ==> err == UpdateRefusal(kws) && Values() == old(Values())
      ensures UpdateRefusal(kws).None? ==>
        (Values(), err) == UpdateAsWritten(rtype.fields, old(Values()), KeysOf(kws))
    {
      var refusal := UpdateRefusal(kws);
      if refusal.Some? {
        return refusal;
      }
      var keys := KeysOf(kws);
      var i := 0;
      while i < |keys|
        invariant 0 <= i <= |keys|
        invariant slots.Length == |rtype.fields|
        invariant UpdateAsWritten(rtype.fields, old(Values()), keys)
          == UpdateAsWritten(rtype.fields, Values(), keys[i..])
      {
        var key := keys[i];
        assert keys[i..][1..] == keys[i + 1..];
        if |key| != 2 {
          return Some(UnpackMismatch(key));
        }
        var k := [key[0]];
        if k !in rtype.fields {
          return Some(NoSuchAttribute(k));
        }
        slots[IndexOf(rtype.fields, k)] := StrVal([key[1]]);
        i := i + 1;
      }
      err := None;
    }
  }

  /** What the read-only protocol of an instance sees: its class and `tuple(self)`. */
  datatype Rec = Rec(rtype: RecordType, vals: seq<Value>)

  /** `__len__`: the number of declared fields, a constant of the class; for an
      instance, as many as the values it exports and the items it lists. */
  function Len(a: Rec): (n: nat)
    ensures |a.vals| == |a.rtype.fields| ==> n == |GetState(a)| && n == |Items(a)|
  {
    |a.rtype.fields|
  }

  /** `__getstate__`: the value tuple, which calling the class positionally (what
      `__setstate__` does) turns back into the same values. */
  function GetState(a: Rec): (state: seq<Value>)
    ensures |a.vals| == |a.rtype.fields| ==> Bind(a.rtype.Spec(), state, []) == Success(a.vals)
  {
    if |a.vals| == |a.rtype.fields| then StateRoundTrip(a.rtype.Spec(), a.vals); a.vals
    else a.vals
  }

  /** `_items()`: `_fields` paired with the values, in declared order: the keys
      are the field names and each carries its field's value. */
  function Items(a: Rec): (its: Keywords)
    requires |a.vals| == |a.rtype.fields|
    ensures KeysOf(its) == a.rtype.fields
    ensures forall i :: 0 <= i < |its| ==> its[i].1 == a.vals[i]
  {
    var its := seq(|a.vals|, i requires 0 <= i < |a.vals| => (a.rtype.fields[i], a.vals[i]));
    assert KeysOf(its) == a.rtype.fields;
    its
  }

  /** `__repr__`: `Typename(f1=repr(v1), ...)`, which reads back, given the
      class, as the instance's values. */
  function ToRepr(a: Rec): (text: string)
    requires |a.vals| == |a.rtype.fields|
    ensures ParseRecord(a.rtype.typename, a.rtype.fields, text) == Some(a.vals)
  {
    RecordReprRoundTrip(a.rtype.typename, a.rtype.fields, a.vals);
    RecordRepr(a.rtype.typename, a.rtype.fields, a.vals)
  }

  /** `__eq__`: the other object is an instance of the same class and the value
      tuples are equal, slot by slot. */
  function Eq(a: Rec, b: Rec): (r: bool)
    ensures r <==>
      && a.rtype == b.rtype
      && |a.vals| == |b.vals|
      && forall i :: 0 <= i < |a.vals| ==> a.vals[i] == b.vals[i]
  {
    b.rtype == a.rtype && a.vals == b.vals
  }

  /** `__ne__`: `not self.__eq__(other)`: the classes differ, or some slot does. */
  function Ne(a: Rec, b: Rec): (r: bool)
    ensures r <==>
      || a.rtype != b.rtype
      || |a.vals| != |b.vals|
      || exists i :: 0 <= i < |a.vals| && a.vals[i] != b.vals[i]
  {
    !Eq(a, b)
  }

  /** `__lt__` and `__le__`: tuple ordering within one class; another class is
      refused with TypeError. */
  function Order(a: Rec, b: Rec, op: CompareOp): (r: Result<bool>)
  {
    if b.rtype == a.rtype then TupleCompare(a.vals, b.vals, op)
    else Failure(Unorderable(op, a.rtype.typename, b.rtype.typename))
  }

  /** `__lt__`: raises TypeError for another class or for values that do not
      order. Within one class the first differing values decide, else the
      shorter tuple is below; no instance is below one equal to it. */
  function Lt(a: Rec, b: Rec): (r: Result<bool>)
    ensures a.rtype != b.rtype ==> r.Failure?
    ensures r.Failure? ==> ExceptionOf(r.error) == TypeError
    ensures Eq(a, b) ==> r == Success(false)
    ensures a.rtype == b.rtype ==> r == TupleCompare(a.vals, b.vals, Less)
    ensures a.rtype == b.rtype ==> forall k :: FirstDifference(a.vals, b.vals, k) ==> r == ValueCompare(a.vals[k], b.vals[k], Less)
  {
    TupleLessIrreflexive(a.vals);
    Order(a, b, Less)
  }

  /** `__le__`: raises TypeError for another class or for values that do not
      order. Within one class the first differing values decide, else the
      shorter tuple is below; every instance is at most one equal to it. */
  function Le(a: Rec, b: Rec): (r: Result<bool>)
    ensures a.rtype != b.rtype ==> r.Failure?
    ensures r.Failure? ==> ExceptionOf(r.error) == TypeError
    ensures Eq(a, b) ==> r == Success(true)
    ensures a.rtype == b.rtype ==> r == TupleCompare(a.vals, b.vals, LessOrEqual)
    ensures a.rtype == b.rtype ==> forall k :: FirstDifference(a.vals, b.vals, k) ==> r == ValueCompare(a.vals[k], b.vals[k], LessOrEqual)
  {
    TupleLessIrreflexive(a.vals);
    Order(a, b, LessOrEqual)
  }

  /** `not` applied to a comparison that may raise: the exception passes through. */
  function Not(r: Result<bool>): (n: Result<bool>)
  {
    match r
    case Success(b) => Success(!b)
    case Failure(e) => Failure(e)
  }

  /** `__gt__`: `not self.__le__(other)`. Although written as a negation, it
      answers as `other < self`, and raises (TypeError) in the same cases. */
  function Gt(a: Rec, b: Rec): (r: Result<bool>)
    ensures a.rtype != b.rtype ==> r.Failure?
    ensures r.Failure? ==> ExceptionOf(r.error) == TypeError
    ensures a.rtype == b.rtype ==>
      && (r.Success? <==> Lt(b, a).Success?)
      && (r.Success? ==> r.value == Lt(b, a).value)
  {
    TupleCompareConverse(a.vals, b.vals);
    Not(Le(a, b))
  }

  /** `__ge__`: `not self.__lt__(other)`. Although written as a negation, it
      answers as `other <= self`, and raises (TypeError) in the same cases. */
  function Ge(a: Rec, b: Rec): (r: Result<bool>)
    ensures a.rtype != b.rtype ==> r.Failure?
    ensures r.Failure? ==> ExceptionOf(r.error) == TypeError
    ensures a.rtype == b.rtype ==>
      && (r.Success? <==> Le(b, a).Success?)
      && (r.Success? ==> r.value == Le(b, a).value)
  {
    TupleCompareConverse(b.vals, a.vals);
    Not(Lt(a, b))
  }

  /** `__hash__`: instances are mutable and refuse to be hashed. */
  function Hash(a: Rec): (r: Result<int>)
    ensures r.Failure? && ExceptionOf(r.error) == TypeError
  {
    Failure(Unhashable(a.rtype.typename))
  }

  /** A subscript: one index, or a slice `[lo:hi]` with optional bounds. */
  datatype Index = At(i: int) | Range(lo: Option<int>, hi: Option<int>)

  /** What a subscript yields: one value, or a tuple of values. */
  datatype Item = One(v: Value) | Many(vs: seq<Value>)

  /** The position an index names in a tuple of length `n`: negative indices
      count from the end. */
  function Resolve(i: int, n: nat): (r: Option<nat>)
    ensures r.Some? <==> -(n as int) <= i < n
    ensures r.Some? ==> r.value < n && (r.value == i || r.value == i + n)
  {
    if 0 <= i < n then Some(i) else if -(n as int) <= i < 0 then Some(i + n) else None
  }

  /** A slice bound as Python adjusts it: counted from the end when negative,
      then clamped to `0..n`; a missing bound is `dflt`. */
  function Clamp(b: Option<int>, n: nat, dflt: nat): (k: nat)
    requires dflt <= n
    ensures k <= n
    ensures b.None? ==> k == dflt
    ensures b.Some? ==>
      var x := if b.value < 0 then b.value + n else b.value;
      && (0 <= x <= n ==> k == x)
      && (x < 0 ==> k == 0)
      && (x > n ==> k == n)
  {
    match b
    case None => dflt
    case Some(x) =>
      if x < 0 then (if x + n < 0 then 0 else x + n)
      else if x > n then n
      else x
  }

  /** `__getitem__(idx)`: `tuple(self)[idx]`. */
  function GetItem(a: Rec, idx: Index): (r: Result<Item>)
    ensures idx.At? ==> (r.Success? <==> -|a.vals| <= idx.i < |a.vals|)
    ensures idx.At? && r.Success? ==>
      r.value == One(a.vals[if idx.i < 0 then idx.i + |a.vals| else idx.i])
    ensures idx.At? && r.Failure? ==> ExceptionOf(r.error) == IndexError
    ensures idx.Range? ==>
      var n := |a.vals|;
      var l, h := Clamp(idx.lo, n, 0), Clamp(idx.hi, n, n);
      && r.Success? && r.value.Many?
      && |r.value.vs| == (if l < h then h - l else 0)
      && forall j :: 0 <= j < |r.value.vs| ==> r.value.vs[j] == a.vals[l + j]
  {
    match idx
    case Range(lo, hi) =>
      var n := |a.vals|;
      var l := Clamp(lo, n, 0);
      var h := Clamp(hi, n, n);
      Success(Many(if l < h then a.vals[l..h] else []))
    case At(i) =>
      match Resolve(i, |a.vals|)
      case Some(k) => Success(One(a.vals[k]))
      case None => Failure(IndexOutOfRange(i))
  }

  /** The first position of `k` in `names`. */
  function IndexOf(names: seq<string>, k: string): (i: nat)
    requires k in names
    ensures i < |names| && names[i] == k
    ensures forall j :: 0 <= j < i ==> names[j] != k
  {
    if names[0] == k then 0 else 1 + IndexOf(names[1..], k)
  }

  /** What Python refuses in a call `r._update(**kws)` before the loop runs: a
      keyword given twice, or a keyword named `self`, which the instance already
      fills. Both raise TypeError. */
  function UpdateRefusal(kws: Keywords): (r: Option<Error>)
    ensures r.None? <==> Distinct(KeysOf(kws)) && "self" !in KeysOf(kws)
    ensures r.Some? ==> ExceptionOf(r.value) == TypeError
  {
    match FirstRepeated(KeysOf(kws), {})
    case Some(k) => Some(MultipleValues(k))
    case None => if "self" in KeysOf(kws) then Some(MultipleValues("self")) else None
  }

  /** `_update` as written, over the keyword names in call order: a name that is
      not two characters long does not unpack (ValueError); otherwise its first
      character is taken as an attribute name (AttributeError unless it is a
      field) and its second character, as a string, is stored there. Stops at
      the first failure, keeping the assignments made before it. */
  function UpdateAsWritten(names: seq<string>, vals: seq<Value>, keys: seq<string>): (r: (seq<Value>, Option<Error>))
    requires |vals| == |names|
    ensures |r.0| == |vals|
    ensures r.1.None? <==> forall j :: 0 <= j < |keys| ==> |keys[j]| == 2 && [keys[j][0]] in names
    ensures r.1.Some? ==> ExceptionOf(r.1.value) == ValueError || ExceptionOf(r.1.value) == AttributeError
    decreases |keys|
  {
    if keys == [] then (vals, None)
    else
      var key := keys[0];
      if |key| != 2 then (vals, Some(UnpackMismatch(key)))
      else
        var k := [key[0]];
        if k !in names then (vals, Some(NoSuchAttribute(k)))
        else UpdateAsWritten(names, vals[IndexOf(names, k) := StrVal([key[1]])], keys[1..])
  }

  /** `_update` as evidently intended: `setattr(self, k, v)` for each keyword
      `k=v` in call order; a name that is not a field is an AttributeError. */
  function IntendedUpdate(names: seq<string>, vals: seq<Value>, kws: Keywords): (r: Result<seq<Value>>)
    requires |vals| == |names|
    ensures r.Success? <==> forall j :: 0 <= j < |kws| ==> kws[j].0 in names
    ensures r.Success? ==> |r.value| == |vals|
    ensures r.Failure? ==> ExceptionOf(r.error) == AttributeError
    decreases |kws|
  {
    if kws == [] then Success(vals)
    else if kws[0].0 !in names then Failure(NoSuchAttribute(kws[0].0))
    else IntendedUpdate(names, vals[IndexOf(names, kws[0].0) := kws[0].1], kws[1..])
  }

  /** The factory's loop over the field elements: unpack each element into a
      name and a default, validate the name, refuse a reserved or already seen
      name, then record the name and, unless it is the sentinel, the default. */
  method CollectFields(elems: seq<FieldElem>, default: DefaultArg) returns (res: Result<Parsed>)
    ensures res == ParseFields(elems, default)
  {
    var names: seq<string> := [];
    var defaults: map<string, Value> := map[];
    var seen: set<string> := {};
    var i := 0;
    while i < |elems|
      invariant 0 <= i <= |elems|
      invariant ParseFields(elems[..i], default) == Success(Parsed(names, defaults))
      invariant forall n :: n in seen <==> n in names
    {
      var key: NameArg, cur: DefaultArg;
      match elems[i] {
        case Malformed =>
          ParseStopsAtMalformed(elems, i, default, Parsed(names, defaults));
          return Failure(MalformedField);
        case Bare(n) =>
          key, cur := Name(n), default;
        case Pair(k, own) =>
          key, cur := k, own;
      }
      ParseNext(elems, i, default, Parsed(names, defaults), key, cur);
      var bad := CheckName(key);
      if bad.Some? {
        return Failure(bad.value);
      }
      var name := key.s;
      if name in Reserved {
        return Failure(ReservedFieldName(name));
      }
      if name in seen {
        return Failure(DuplicateField(name));
      }
      seen := seen + {name};
      names := names + [name];
      if cur.Given? {
        defaults := defaults[name := cur.v];
      }
      i := i + 1;
    }
    assert elems[..i] == elems;
    return Success(Parsed(names, defaults));
  }

  /** `thinrecord(typename, fields, default, ignore_extra_kwargs)`: validates the
      type name, collects the fields, then builds the class, or reports what
      Python raises. */
  method Create(typename: NameArg, fields: FieldsArg, default: DefaultArg, ignoreExtra: bool)
    returns (res: Result<RecordType>)
    ensures Declare(typename, fields, default, ignoreExtra).Failure? ==>
      res == Failure(Declare(typename, fields, default, ignoreExtra).error)
    ensures Declare(typename, fields, default, ignoreExtra).Success? ==>
      && res.Success? && fresh(res.value) && res.value.Valid()
      && res.value.Spec() == Declare(typename, fields, default, ignoreExtra).value
  {
    var bad := CheckName(typename);
    if bad.Some? {
      return Failure(bad.value);
    }
    var parsed := CollectFields(Elements(fields), default);
    if parsed.Failure? {
      return Failure(parsed.error);
    }
    var spec := TypeSpec(typename.s, parsed.value.names, parsed.value.defaults, ignoreExtra);
    var broken := TemplateCheck(spec);
    if broken.Some? {
      return Failure(broken.value);
    }
    DeclaredSpec(typename, fields, default, ignoreExtra);
    var rt := new RecordType(spec);
    return Success(rt);
  }
}
