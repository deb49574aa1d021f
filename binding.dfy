/** Calling a generated class: how Python binds `cls(*pos, **kws)` to the
    generated signature `__init__(self, f1, f2=<default>, ... [, **_unused_kwargs])`,
    in the order CPython applies its checks. */
module Binding {
  import opened Errors
  import opened Values
  import opened Factory

  /** Keyword arguments in the order the call passes them. */
  type Keywords = seq<(string, Value)>

  function KeysOf(kws: Keywords): (keys: seq<string>)
    ensures |keys| == |kws| && forall j :: 0 <= j < |kws| ==> keys[j] == kws[j].0
  {
    if kws == [] then [] else [kws[0].0] + KeysOf(kws[1..])
  }

  ghost predicate Distinct(keys: seq<string>)
  {
    forall i, j :: 0 <= i < j < |keys| ==> keys[i] != keys[j]
  }

  /** The first key that repeats one passed earlier (or one in `seen`): Python
      refuses such a call before the callee sees it. */
  function FirstRepeated(keys: seq<string>, seen: set<string>): (r: Option<string>)
    ensures r.None? <==> Distinct(keys) && forall j :: 0 <= j < |keys| ==> keys[j] !in seen
    decreases |keys|
  {
    if keys == [] then None
    else if keys[0] in seen then Some(keys[0])
    else
      var r := FirstRepeated(keys[1..], seen + {keys[0]});
      assert r.None? ==> Distinct(keys) by {
        if r.None? {
          forall i, j | 0 <= i < j < |keys| ensures keys[i] != keys[j] {
            if i > 0 {
              assert keys[1..][i - 1] == keys[i] && keys[1..][j - 1] == keys[j];
            } else {
              assert keys[1..][j - 1] == keys[j];
            }
          }
        }
      }
      r
  }

  /** The value passed for keyword `k`, if any (the first, were there several). */
  function Lookup(kws: Keywords, k: string): (r: Option<Value>)
    ensures r.Some? <==> k in KeysOf(kws)
  {
    if kws == [] then None
    else if kws[0].0 == k then Some(kws[0].1)
    else Lookup(kws[1..], k)
  }

  /** The callee's keyword pass: each keyword, in order, either names `self`,
      which the instance already fills (TypeError), names a field not yet bound
      (bound now), names a field bound by a positional argument or an earlier
      keyword (TypeError), or names no parameter (swallowed by
      `**_unused_kwargs` when the class ignores extras, TypeError otherwise).
      What was bound before stays bound, and every failure is a TypeError. */
  function BindKeywords(spec: TypeSpec, npos: nat, kws: Keywords, bound: map<string, Value>): (r: Result<map<string, Value>>)
    ensures r.Success? ==> bound.Keys <= r.value.Keys
    ensures r.Failure? ==> ExceptionOf(r.error) == TypeError
    decreases |kws|
  {
    if kws == [] then Success(bound)
    else
      var k := kws[0].0;
      if k == "self" then Failure(MultipleValues(k))
      else if k !in spec.names then
        if spec.ignoreExtra then BindKeywords(spec, npos, kws[1..], bound)
        else Failure(UnexpectedKeyword(k))
      else if k in spec.names[..Min(npos, |spec.names|)] || k in bound then Failure(MultipleValues(k))
      else BindKeywords(spec, npos, kws[1..], bound[k := kws[0].1])
  }

  function Min(a: nat, b: nat): (m: nat)
  {
    if a < b then a else b
  }

  /** The required parameters nothing supplied, in signature order. */
  function Missing(names: seq<string>, npos: nat, kw: map<string, Value>, defaults: map<string, Value>): (m: seq<string>)
    ensures m == [] <==> forall i :: npos <= i < |names| ==> names[i] in kw || names[i] in defaults
    decreases |names|
  {
    if names == [] then []
    else
      var rest := Missing(names[1..], if npos == 0 then 0 else npos - 1, kw, defaults);
      assert rest == [] <==> forall i :: npos <= i < |names| && i > 0 ==> names[i] in kw || names[i] in defaults by {
        forall i | 1 <= i < |names| ensures names[1..][i - 1] == names[i] { }
      }
      if npos == 0 && names[0] !in kw && names[0] !in defaults then [names[0]] + rest else rest
  }

  /** The slot values once binding succeeded: positional, else keyword, else default. */
  function Slots(spec: TypeSpec, pos: seq<Value>, kw: map<string, Value>): (vals: seq<Value>)
    requires |pos| <= |spec.names|
    requires forall i :: |pos| <= i < |spec.names| ==> spec.names[i] in kw || spec.names[i] in spec.defaults
  {
    seq(|spec.names|, i requires 0 <= i < |spec.names| =>
      if i < |pos| then pos[i]
      else if spec.names[i] in kw then kw[spec.names[i]]
      else spec.defaults[spec.names[i]])
  }

  /** `cls(*pos, **kws)`: the values assigned to the slots, in declared order, or
      the TypeError the call raises. Checks in CPython's order: a keyword given
      twice at the call site, then each keyword in turn, then too many positional
      arguments, then the required parameters still unbound. */
  function Bind(spec: TypeSpec, pos: seq<Value>, kws: Keywords): (r: Result<seq<Value>>)
    ensures r.Success? ==> |r.value| == |spec.names|
    ensures r.Failure? ==> ExceptionOf(r.error) == TypeError
  {
    match FirstRepeated(KeysOf(kws), {})
    case Some(k) => Failure(MultipleValues(k))
    case None =>
      match BindKeywords(spec, |pos|, kws, map[])
      case Failure(e) => Failure(e)
      case Success(kw) =>
        if |pos| > |spec.names| then Failure(TooManyPositional(|spec.names|, |pos|))
        else
          var missing := Missing(spec.names, |pos|, kw, spec.defaults);
          if missing != [] then Failure(MissingArguments(missing))
          else Success(Slots(spec, pos, kw))
  }

  /** No keyword names `self` or a field already bound by a positional argument
      or in `bound`, and a strict class gets only keywords that name fields. */
  ghost predicate KeywordsFit(spec: TypeSpec, npos: nat, kws: Keywords, bound: map<string, Value>)
  {
    forall j :: 0 <= j < |kws| ==>
      && kws[j].0 != "self"
      && (kws[j].0 in spec.names ==> kws[j].0 !in spec.names[..Min(npos, |spec.names|)] && kws[j].0 !in bound)
      && (!spec.ignoreExtra ==> kws[j].0 in spec.names)
  }

  /** Every field past the positional ones is named by a keyword or has a default. */
  ghost predicate AllSupplied(spec: TypeSpec, npos: nat, keys: seq<string>)
  {
    forall i :: npos <= i < |spec.names| ==> spec.names[i] in keys || spec.names[i] in spec.defaults
  }

  /** The keys after the first of a repetition-free call are repetition-free
      and differ from the first. */
  lemma DistinctTail(kws: Keywords)
    requires Distinct(KeysOf(kws)) && kws != []
    ensures Distinct(KeysOf(kws[1..]))
    ensures forall j :: 1 <= j < |kws| ==> kws[j].0 != kws[0].0
    ensures forall j :: 0 <= j < |kws[1..]| ==> kws[1..][j] == kws[j + 1]
  {
    forall i, j | 0 <= i < j < |kws[1..]| ensures KeysOf(kws[1..])[i] != KeysOf(kws[1..])[j] {
      assert KeysOf(kws)[i + 1] != KeysOf(kws)[j + 1];
    }
    forall j | 1 <= j < |kws| ensures kws[j].0 != kws[0].0 {
      assert KeysOf(kws)[0] != KeysOf(kws)[j];
    }
  }

  /** The keywords fit exactly when the first one fits and the rest fit once the
      first is bound (when it names a field). */
  lemma KeywordsFitStep(spec: TypeSpec, npos: nat, kws: Keywords, bound: map<string, Value>)
    requires Distinct(KeysOf(kws)) && kws != []
    ensures var k := kws[0].0;
      var next := if k in spec.names then bound[k := kws[0].1] else bound;
      KeywordsFit(spec, npos, kws, bound) <==>
        && k != "self"
        && (k in spec.names ==> k !in spec.names[..Min(npos, |spec.names|)] && k !in bound)
        && (!spec.ignoreExtra ==> k in spec.names)
        && KeywordsFit(spec, npos, kws[1..], next)
  {
    DistinctTail(kws);
  }

  /** The keyword pass succeeds exactly when the keywords fit. */
  lemma {:induction false} BindKeywordsSucceeds(spec: TypeSpec, npos: nat, kws: Keywords, bound: map<string, Value>)
    requires Distinct(KeysOf(kws))
    ensures BindKeywords(spec, npos, kws, bound).Success? <==> KeywordsFit(spec, npos, kws, bound)
    decreases |kws|
  {
    if kws != [] {
      var k := kws[0].0;
      DistinctTail(kws);
      KeywordsFitStep(spec, npos, kws, bound);
      if k == "self" {
      } else if k !in spec.names {
        BindKeywordsSucceeds(spec, npos, kws[1..], bound);
      } else if !(k in spec.names[..Min(npos, |spec.names|)] || k in bound) {
        BindKeywordsSucceeds(spec, npos, kws[1..], bound[k := kws[0].1]);
      }
    }
  }

  lemma KeysOfCons(kws: Keywords)
    requires kws != []
    ensures forall x :: x in KeysOf(kws) <==> x == kws[0].0 || x in KeysOf(kws[1..])
  {
    assert KeysOf(kws) == [kws[0].0] + KeysOf(kws[1..]);
  }

  /** A successful keyword pass binds exactly the keywords that name fields, to
      the values passed, and keeps what was bound before. */
  lemma {:induction false} BindKeywordsBinds(spec: TypeSpec, npos: nat, kws: Keywords, bound: map<string, Value>)
    requires Distinct(KeysOf(kws))
    requires BindKeywords(spec, npos, kws, bound).Success?
    ensures var m := BindKeywords(spec, npos, kws, bound).value;
      && (forall k :: k in m <==> k in bound || (k in spec.names && k in KeysOf(kws)))
      && (forall k :: k in bound ==> m[k] == bound[k])
      && (forall k :: k in spec.names && k in KeysOf(kws) ==> m[k] == Lookup(kws, k).value)
    decreases |kws|
  {
    if kws != [] {
      var k, v := kws[0].0, kws[0].1;
      var m := BindKeywords(spec, npos, kws, bound).value;
      DistinctTail(kws);
      KeysOfCons(kws);
      var next := if k in spec.names then bound[k := v] else bound;
      assert BindKeywords(spec, npos, kws[1..], next).Success?;
      assert m == BindKeywords(spec, npos, kws[1..], next).value;
      assert k in spec.names ==> k !in bound;
      assert k !in KeysOf(kws[1..]);
      BindKeywordsBinds(spec, npos, kws[1..], next);
      forall x | x in spec.names && x in KeysOf(kws) ensures m[x] == Lookup(kws, x).value {
        if x != k {
          assert Lookup(kws, x) == Lookup(kws[1..], x);
        }
      }
    }
  }

  /** The keyword pass succeeds exactly when the keywords fit; it then binds
      exactly the keywords that name fields, to the values passed. */
  lemma BindKeywordsSpec(spec: TypeSpec, npos: nat, kws: Keywords, bound: map<string, Value>)
    requires Distinct(KeysOf(kws))
    ensures var r := BindKeywords(spec, npos, kws, bound);
      && (r.Success? <==> KeywordsFit(spec, npos, kws, bound))
      && (r.Success? ==>
            && (forall k :: k in r.value <==> k in bound || (k in spec.names && k in KeysOf(kws)))
            && (forall k :: k in bound ==> r.value[k] == bound[k])
            && (forall k :: k in spec.names && k in KeysOf(kws) ==> r.value[k] == Lookup(kws, k).value))
  {
    BindKeywordsSucceeds(spec, npos, kws, bound);
    if BindKeywords(spec, npos, kws, bound).Success? {
      BindKeywordsBinds(spec, npos, kws, bound);
    }
  }

  /** A call succeeds exactly when: no keyword is repeated; there are no more
      positional arguments than fields; no keyword names `self` or a field a
      positional argument already filled; a strict class gets no unknown keyword;
      and every field past the positional ones is given by keyword or has a
      default. */
  lemma BindSucceeds(spec: TypeSpec, pos: seq<Value>, kws: Keywords)
    ensures Bind(spec, pos, kws).Success? <==>
      && Distinct(KeysOf(kws))
      && |pos| <= |spec.names|
      && KeywordsFit(spec, |pos|, kws, map[])
      && AllSupplied(spec, |pos|, KeysOf(kws))
  {
    if !Distinct(KeysOf(kws)) {
      assert FirstRepeated(KeysOf(kws), {}).Some?;
      return;
    }
    assert FirstRepeated(KeysOf(kws), {}).None?;
    BindKeywordsSpec(spec, |pos|, kws, map[]);
    var bk := BindKeywords(spec, |pos|, kws, map[]);
    if |pos| > |spec.names| || bk.Failure? {
      return;
    }
    SuppliedByKeywords(spec, |pos|, kws, bk.value);
  }

  /** Once the keyword pass has bound exactly the keywords that name fields,
      nothing is missing exactly when every later field is named or defaulted. */
  lemma SuppliedByKeywords(spec: TypeSpec, npos: nat, kws: Keywords, kw: map<string, Value>)
    requires forall k :: k in kw <==> k in spec.names && k in KeysOf(kws)
    ensures Missing(spec.names, npos, kw, spec.defaults) == [] <==> AllSupplied(spec, npos, KeysOf(kws))
  {
    assert forall i :: npos <= i < |spec.names| ==> (spec.names[i] in kw <==> spec.names[i] in KeysOf(kws));
  }

  /** Each slot is filled exactly once: from the positional argument at its
      place, else from the keyword naming it, else from its resolved default. */
  lemma BindValues(spec: TypeSpec, pos: seq<Value>, kws: Keywords)
    requires Bind(spec, pos, kws).Success?
    ensures var vals := Bind(spec, pos, kws).value;
      && |vals| == |spec.names|
      && (forall i :: 0 <= i < |pos| ==> vals[i] == pos[i])
      && (forall i :: |pos| <= i < |spec.names| && Lookup(kws, spec.names[i]).Some? ==>
            vals[i] == Lookup(kws, spec.names[i]).value)
      && (forall i :: |pos| <= i < |spec.names| && Lookup(kws, spec.names[i]).None? ==>
            spec.names[i] in spec.defaults && vals[i] == spec.defaults[spec.names[i]])
  {
    BindKeywordsSpec(spec, |pos|, kws, map[]);
  }

  /** The keywords that name a parameter of the signature (`self` or a field),
      in call order. */
  function KnownOnly(names: seq<string>, kws: Keywords): (r: Keywords)
    ensures |r| <= |kws|
    ensures forall j :: 0 <= j < |r| ==> r[j].0 in names || r[j].0 == "self"
  {
    if kws == [] then []
    else if kws[0].0 in names || kws[0].0 == "self" then [kws[0]] + KnownOnly(names, kws[1..])
    else KnownOnly(names, kws[1..])
  }

  lemma {:induction false} KnownOnlyBinds(spec: TypeSpec, npos: nat, kws: Keywords, bound: map<string, Value>)
    requires spec.ignoreExtra
    ensures BindKeywords(spec, npos, kws, bound) == BindKeywords(spec, npos, KnownOnly(spec.names, kws), bound)
    decreases |kws|
  {
    if kws != [] {
      KnownOnlyBinds(spec, npos, kws[1..], bound);
      KnownOnlyBinds(spec, npos, kws[1..], bound[kws[0].0 := kws[0].1]);
    }
  }

  lemma {:induction false} KnownOnlyKeys(names: seq<string>, kws: Keywords)
    ensures forall k :: k in KeysOf(KnownOnly(names, kws)) <==> k in KeysOf(kws) && (k in names || k == "self")
    ensures Distinct(KeysOf(kws)) ==> Distinct(KeysOf(KnownOnly(names, kws)))
    decreases |kws|
  {
    if kws != [] {
      KnownOnlyKeys(names, kws[1..]);
      assert KeysOf(kws) == [kws[0].0] + KeysOf(kws[1..]);
      if Distinct(KeysOf(kws)) {
        assert Distinct(KeysOf(kws[1..])) by {
          forall i, j | 0 <= i < j < |kws[1..]| ensures KeysOf(kws[1..])[i] != KeysOf(kws[1..])[j] {
            assert KeysOf(kws)[i + 1] != KeysOf(kws)[j + 1];
          }
        }
        assert kws[0].0 !in KeysOf(kws[1..]);
      }
    }
  }

  /** A class that ignores extra keywords behaves as if the keywords naming no
      parameter had never been passed. */
  lemma ExtraKeywordsIgnored(spec: TypeSpec, pos: seq<Value>, kws: Keywords)
    requires spec.ignoreExtra
    requires Distinct(KeysOf(kws))
    ensures Bind(spec, pos, kws) == Bind(spec, pos, KnownOnly(spec.names, kws))
  {
    KnownOnlyKeys(spec.names, kws);
    KnownOnlyBinds(spec, |pos|, kws, map[]);
  }

  /** A strict class rejects a call that passes a keyword naming no field. */
  lemma StrictRejectsExtra(spec: TypeSpec, pos: seq<Value>, kws: Keywords, j: nat)
    requires !spec.ignoreExtra
    requires j < |kws| && kws[j].0 !in spec.names
    ensures Bind(spec, pos, kws).Failure?
    ensures ExceptionOf(Bind(spec, pos, kws).error) == TypeError
  {
    BindSucceeds(spec, pos, kws);
  }

  /** A keyword named `self` makes every call raise TypeError, whether or not the
      class ignores extra keywords: the instance already fills `self`. */
  lemma SelfKeywordRefused(spec: TypeSpec, pos: seq<Value>, kws: Keywords, j: nat)
    requires j < |kws| && kws[j].0 == "self"
    ensures Bind(spec, pos, kws).Failure?
    ensures ExceptionOf(Bind(spec, pos, kws).error) == TypeError
  {
    BindSucceeds(spec, pos, kws);
  }

  /** Restoring exported state: calling the class with a record's value tuple
      as positional arguments gives back exactly those values. */
  lemma StateRoundTrip(spec: TypeSpec, vals: seq<Value>)
    requires |vals| == |spec.names|
    ensures Bind(spec, vals, []) == Success(vals)
  {
    assert Missing(spec.names, |vals|, map[], spec.defaults) == [];
    var slots := Slots(spec, vals, map[]);
    assert forall i :: 0 <= i < |vals| ==> slots[i] == vals[i];
    assert slots == vals;
  }
}
