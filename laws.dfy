/** What the instance protocol promises, stated over the values an instance
    holds: `_items` and `__dict__`, equality, ordering, subscripts, `repr`,
    pickling state and `_update`. */
module RecordLaws {
  import opened Errors
  import opened Values
  import opened Names
  import opened Factory
  import opened Binding
  import opened Repr
  import opened ThinRecord

  /** An instance of a class the factory can produce, holding one value per field. */
  ghost predicate Fits(a: Rec)
  {
    WellFormed(a.rtype.Spec()) && |a.vals| == |a.rtype.fields|
  }

  lemma {:induction false} LookupDistinct(kws: Keywords, j: nat)
    requires Distinct(KeysOf(kws)) && j < |kws|
    ensures Lookup(kws, kws[j].0) == Some(kws[j].1)
  {
    if j > 0 {
      assert KeysOf(kws)[0] != KeysOf(kws)[j];
      assert Distinct(KeysOf(kws[1..])) by {
        forall i, k | 0 <= i < k < |kws[1..]| ensures KeysOf(kws[1..])[i] != KeysOf(kws[1..])[k] {
          assert KeysOf(kws)[i + 1] != KeysOf(kws)[k + 1];
        }
      }
      LookupDistinct(kws[1..], j - 1);
    }
  }

  /** `_items()` pairs `_fields` with the values in declared order, and the
      mapping built from it (`__dict__`, `vars(r)`) gives every field its own
      value. */
  lemma ItemsAreFieldsAndValues(a: Rec)
    requires Fits(a)
    ensures KeysOf(Items(a)) == a.rtype.fields
    ensures forall i :: 0 <= i < |a.vals| ==> Lookup(Items(a), a.rtype.fields[i]) == Some(a.vals[i])
  {
    var its := Items(a);
    assert KeysOf(its) == a.rtype.fields;
    forall i | 0 <= i < |a.vals| ensures Lookup(its, a.rtype.fields[i]) == Some(a.vals[i]) {
      LookupDistinct(its, i);
    }
  }

  /** Calling the class with an instance's items as keyword arguments rebuilds
      exactly that instance's values. */
  lemma ItemsRebuild(a: Rec)
    requires Fits(a)
    ensures Bind(a.rtype.Spec(), [], Items(a)) == Success(a.vals)
  {
    var spec := a.rtype.Spec();
    var its := Items(a);
    ItemsAreFieldsAndValues(a);
    assert Distinct(KeysOf(its));
    BindSucceeds(spec, [], its);
    assert KeywordsFit(spec, 0, its, map[]);
    assert AllSupplied(spec, 0, KeysOf(its)) by {
      forall i | 0 <= i < |spec.names| ensures spec.names[i] in KeysOf(its) {
        assert KeysOf(its)[i] == spec.names[i];
      }
    }
    BindValues(spec, [], its);
    var vals := Bind(spec, [], its).value;
    assert forall i :: 0 <= i < |vals| ==> vals[i] == a.vals[i];
    assert vals == a.vals;
  }

  /** `__eq__` is an equivalence that tells classes apart, and `__ne__` is its
      exact negation. */
  lemma EqIsClassAndValueEquality(a: Rec, b: Rec, c: Rec)
    ensures Eq(a, a)
    ensures Eq(a, b) == Eq(b, a)
    ensures Eq(a, b) && Eq(b, c) ==> Eq(a, c)
    ensures Ne(a, b) != Eq(a, b)
    ensures a.rtype != b.rtype ==> !Eq(a, b)
    ensures Eq(a, b) <==> a.rtype == b.rtype && a.vals == b.vals
  {
  }

  /** `<` within one class is a strict order: irreflexive, asymmetric and
      transitive wherever it answers. */
  lemma LessIsStrictOrder(a: Rec, b: Rec, c: Rec)
    requires a.rtype == b.rtype == c.rtype
    ensures Lt(a, a) == Success(false)
    ensures Lt(a, b) == Success(true) ==> Lt(b, a) == Success(false)
    ensures Lt(a, b) == Success(true) && Lt(b, c) == Success(true) ==> Lt(a, c) == Success(true)
  {
    TupleLessIrreflexive(a.vals);
    if Lt(a, b) == Success(true) {
      TupleLessAsymmetric(a.vals, b.vals);
      if Lt(b, c) == Success(true) {
        TupleLessTransitive(a.vals, b.vals, c.vals);
      }
    }
  }

  /** `<=` within one class is `<` or `==`, and raises exactly when `<` does. */
  lemma LessOrEqualIsLessOrEq(a: Rec, b: Rec)
    requires a.rtype == b.rtype
    ensures Le(a, b).Success? == Lt(a, b).Success?
    ensures Le(a, b).Success? ==> Le(a, b).value == (Lt(a, b).value || Eq(a, b))
  {
    LessOrEqualIsLessOrEqual(a.vals, b.vals);
  }

  /** Two instances of one class: whenever `a < b` answers, `b < a` answers
      too, and exactly one of `a < b`, `a == b`, `b < a` holds. */
  lemma Trichotomy(a: Rec, b: Rec)
    requires a.rtype == b.rtype && Lt(a, b).Success?
    ensures Lt(b, a).Success?
    ensures Lt(a, b).value || Eq(a, b) || Lt(b, a).value
    ensures !(Lt(a, b).value && Eq(a, b)) && !(Lt(b, a).value && Eq(a, b))
    ensures !(Lt(a, b).value && Lt(b, a).value)
  {
    if a.vals == b.vals {
      TupleLessIrreflexive(a.vals);
    } else {
      TupleLessConnected(a.vals, b.vals);
      if Lt(a, b).value {
        TupleLessAsymmetric(a.vals, b.vals);
      }
    }
  }

  /** Values that agree in type field by field never make `<` raise, so such
      instances always satisfy trichotomy. */
  lemma AlignedTrichotomy(a: Rec, b: Rec)
    requires a.rtype == b.rtype && Aligned(a.vals, b.vals)
    ensures Lt(a, b).Success? && Lt(b, a).Success?
    ensures Lt(a, b).value || Eq(a, b) || Lt(b, a).value
    ensures !(Lt(a, b).value && Lt(b, a).value)
  {
    AlignedCompareSucceeds(a.vals, b.vals, Less);
    Trichotomy(a, b);
  }

  /** Subscripts read `tuple(self)`: index `i` and index `i - len` name the same
      value, the one-element slice at `i` holds exactly that value, and the
      full slice is the whole tuple. */
  lemma SubscriptsReadTheTuple(a: Rec, i: int)
    requires 0 <= i < |a.vals|
    ensures GetItem(a, At(i)) == Success(One(a.vals[i]))
    ensures GetItem(a, At(i - |a.vals|)) == GetItem(a, At(i))
    ensures GetItem(a, Range(Some(i), Some(i + 1))) == Success(Many([a.vals[i]]))
    ensures GetItem(a, Range(None, None)) == Success(Many(a.vals))
  {
    assert a.vals[i..i + 1] == [a.vals[i]];
    assert a.vals[0..|a.vals|] == a.vals;
  }

  /** `repr` names the class and reads back, given the class, as the instance's
      values: two instances of one class with the same `repr` are equal. */
  lemma ReprDeterminesInstance(a: Rec, b: Rec)
    requires |a.vals| == |a.rtype.fields| && |b.vals| == |b.rtype.fields|
    ensures ParseRecord(a.rtype.typename, a.rtype.fields, ToRepr(a)) == Some(a.vals)
    ensures a.rtype == b.rtype && ToRepr(a) == ToRepr(b) ==> Eq(a, b)
  {
    RecordReprRoundTrip(a.rtype.typename, a.rtype.fields, a.vals);
    if a.rtype == b.rtype && ToRepr(a) == ToRepr(b) {
      ReprInjective(a.rtype.typename, a.rtype.fields, a.vals, b.vals);
    }
  }

  /** Restoring an instance's own exported state leaves it as it was. */
  method RestoreOwnState(r: Record) returns (err: Option<Error>)
    requires r.Valid()
    modifies r.slots
    ensures err.None? && r.Values() == old(r.Values())
  {
    var state := GetState(r.Snapshot());
    StateRoundTrip(r.rtype.Spec(), state);
    err := r.SetState(state);
  }

  /** Unpickling rebuilds an instance from its class and exported state (the
      class is called positionally with the state, which is what
      `__setstate__` does); the copy is a new object equal to the original. */
  method CopyThroughState(r: Record) returns (copy: Record)
    requires r.Valid()
    ensures fresh(copy) && copy.Valid() && Eq(copy.Snapshot(), r.Snapshot())
  {
    var state := GetState(r.Snapshot());
    StateRoundTrip(r.rtype.Spec(), state);
    var res := r.rtype.Call(state, []);
    copy := res.value;
  }

  /** Two factory calls with the same arguments make two classes: instances
      built from the same arguments hold the same values yet are unequal. */
  method SameArgumentsTwoClasses(typename: NameArg, fields: FieldsArg, d: DefaultArg, ignoreExtra: bool, pos: seq<Value>, kws: Keywords)
    returns (p1: Record, p3: Record)
    requires Declare(typename, fields, d, ignoreExtra).Success?
    requires Bind(Declare(typename, fields, d, ignoreExtra).value, pos, kws).Success?
    ensures p1.Values() == p3.Values()
    ensures Ne(p1.Snapshot(), p3.Snapshot())
  {
    var t1 := Create(typename, fields, d, ignoreExtra);
    var t2 := Create(typename, fields, d, ignoreExtra);
    var r1 := t1.value.Call(pos, kws);
    var r3 := t2.value.Call(pos, kws);
    p1, p3 := r1.value, r3.value;
  }

  /** `_update` as written never stores a value it was passed: after it, every
      slot holds its old value or a one-character string cut out of a keyword
      name. */
  lemma {:induction false} UpdateAsWrittenStoresNameCharacters(names: seq<string>, vals: seq<Value>, keys: seq<string>)
    requires |vals| == |names|
    ensures |UpdateAsWritten(names, vals, keys).0| == |vals|
    ensures forall i :: 0 <= i < |vals| ==>
      || UpdateAsWritten(names, vals, keys).0[i] == vals[i]
      || (UpdateAsWritten(names, vals, keys).0[i].StrVal? && |UpdateAsWritten(names, vals, keys).0[i].s| == 1)
    decreases |keys|
  {
    if keys != [] && |keys[0]| == 2 && [keys[0][0]] in names {
      var key := keys[0];
      var next := vals[IndexOf(names, [key[0]]) := StrVal([key[1]])];
      UpdateAsWrittenStoresNameCharacters(names, next, keys[1..]);
    }
  }

  /** The input that shows it: on a record with field `x`, `_update(x=5)`
      raises ValueError (the name `x` does not unpack into two items) and leaves
      `x` alone, where the intended update sets `x` to 5. */
  lemma UpdateAsWrittenMissesKeywords()
    ensures UpdateAsWritten(["x"], [IntVal(1)], KeysOf([("x", IntVal(5))])) == ([IntVal(1)], Some(UnpackMismatch("x")))
    ensures IntendedUpdate(["x"], [IntVal(1)], [("x", IntVal(5))]) == Success([IntVal(5)])
  {
    assert KeysOf([("x", IntVal(5))]) == ["x"];
    assert IndexOf(["x"], "x") == 0;
    assert [IntVal(1)][0 := IntVal(5)] == [IntVal(5)];
  }

  /** The intended `_update`: with distinct field names and keywords that all
      name fields, it succeeds, gives each named field the value passed for it,
      and leaves the others alone. */
  lemma {:induction false} IntendedUpdateSetsFields(names: seq<string>, vals: seq<Value>, kws: Keywords)
    requires |vals| == |names|
    requires forall i, j :: 0 <= i < j < |names| ==> names[i] != names[j]
    requires Distinct(KeysOf(kws))
    requires forall j :: 0 <= j < |kws| ==> kws[j].0 in names
    ensures IntendedUpdate(names, vals, kws).Success?
    ensures var r := IntendedUpdate(names, vals, kws).value;
      && |r| == |names|
      && (forall i :: 0 <= i < |names| && Lookup(kws, names[i]).Some? ==> r[i] == Lookup(kws, names[i]).value)
      && (forall i :: 0 <= i < |names| && Lookup(kws, names[i]).None? ==> r[i] == vals[i])
    decreases |kws|
  {
    if kws != [] {
      var k := kws[0].0;
      var p := IndexOf(names, k);
      var next := vals[p := kws[0].1];
      assert Distinct(KeysOf(kws[1..])) by {
        forall i, j | 0 <= i < j < |kws[1..]| ensures KeysOf(kws[1..])[i] != KeysOf(kws[1..])[j] {
          assert KeysOf(kws)[i + 1] != KeysOf(kws)[j + 1];
        }
      }
      assert forall j :: 0 <= j < |kws[1..]| ==> kws[1..][j] == kws[j + 1];
      IntendedUpdateSetsFields(names, next, kws[1..]);
      assert k !in KeysOf(kws[1..]) by {
        forall j | 0 <= j < |kws[1..]| ensures KeysOf(kws[1..])[j] != k {
          assert KeysOf(kws)[0] != KeysOf(kws)[j + 1];
        }
      }
      assert Lookup(kws[1..], k).None?;
    }
  }
}
