/** What the factory `thinrecord(typename, fields, default, ignore_extra_kwargs)`
    decides before a class exists: name validation, field parsing, default
    resolution, and the checks Python applies when it compiles and executes
    the generated class text. */
module Factory {
  import opened Errors
  import opened Values
  import opened Names
  import opened Split

  /** A default argument: the sentinel `NO_DEFAULT`, or a real value (which may
      be `None`). */
  datatype DefaultArg = NoDefault | Given(v: Value)

  /** One element of a sequence specification: a bare name string, an object
      that unpacks into `(name, default)`, or anything else. */
  datatype FieldElem = Bare(name: string) | Pair(key: NameArg, own: DefaultArg) | Malformed

  /** The `fields` argument: one string, or a sequence of elements. */
  datatype FieldsArg = Text(text: string) | Elems(elems: seq<FieldElem>)

  /** What one factory call fixes: the class name, the declared field names in
      order, the defaults of the fields that have one, and whether unknown
      keywords are swallowed. */
  datatype TypeSpec = TypeSpec(typename: string, names: seq<string>, defaults: map<string, Value>, ignoreExtra: bool)

  /** The three accumulators of the factory loop, with `fields_seen` folded into
      the name list. */
  datatype Parsed = Parsed(names: seq<string>, defaults: map<string, Value>)

  /** Names that would shadow the generated helpers. */
  const Reserved: set<string> := {"_fields", "_items", "_update"}

  /** Names the generated class body itself binds; a slot of the same name makes
      class creation fail. */
  const ClassAttributes: set<string> := {
    "__doc__", "__module__", "__slots__", "__init__", "__len__", "__iter__",
    "__repr__", "__eq__", "__ne__", "__lt__", "__ge__", "__le__", "__gt__",
    "__hash__", "__getstate__", "__setstate__", "__getitem__", "__setitem__"
  }

  /** The elements the factory loop walks over. A string specification becomes
      bare names, each non-empty and free of commas and separators, that
      together hold exactly the characters of the string other than commas and
      separators, in order. */
  function Elements(fields: FieldsArg): (elems: seq<FieldElem>)
    ensures fields.Elems? ==> elems == fields.elems
    ensures fields.Text? ==>
      && (forall i :: 0 <= i < |elems| ==> elems[i].Bare? && IsWord(elems[i].name) && ',' !in elems[i].name)
      && Concat(BareNames(elems)) == NonSpaces(CommasToSpaces(fields.text))
  {
    match fields
    case Text(t) =>
      var ts := Tokens(t);
      BareNamesOfWords(ts);
      WordsKeepEverythingElse(CommasToSpaces(t));
      seq(|ts|, i requires 0 <= i < |ts| => Bare(ts[i]))
    case Elems(es) => es
  }

  /** The names of the bare elements, in order. */
  function BareNames(es: seq<FieldElem>): (ns: seq<string>)
  {
    if es == [] then [] else (if es[0].Bare? then [es[0].name] else []) + BareNames(es[1..])
  }

  lemma {:induction false} BareNamesOfWords(ws: seq<string>)
    ensures BareNames(seq(|ws|, i requires 0 <= i < |ws| => Bare(ws[i]))) == ws
  {
    if ws != [] {
      var es := seq(|ws|, i requires 0 <= i < |ws| => Bare(ws[i]));
      assert es[1..] == seq(|ws[1..]|, i requires 0 <= i < |ws[1..]| => Bare(ws[1..][i]));
      BareNamesOfWords(ws[1..]);
    }
  }

  /** The default a field ends up with before the sentinel is filtered out: its
      own when it comes as a pair, the factory's otherwise. */
  function EffectiveDefault(e: FieldElem, factoryDefault: DefaultArg): (d: DefaultArg)
  {
    match e
    case Pair(_, own) => own
    case _ => factoryDefault
  }

  function KeyOf(e: FieldElem): (k: Option<NameArg>)
  {
    match e
    case Bare(n) => Some(Name(n))
    case Pair(k, _) => Some(k)
    case Malformed => None
  }

  ghost predicate ValidFieldName(n: string)
  {
    ValidName(Name(n)) && n !in Reserved
  }

  /** An element the loop accepts on its own, whatever came before it. */
  ghost predicate Admissible(e: FieldElem)
  {
    KeyOf(e).Some? && KeyOf(e).value.Name? && ValidFieldName(KeyOf(e).value.s)
  }

  function ElemName(e: FieldElem): (n: string)
    requires KeyOf(e).Some? && KeyOf(e).value.Name?
  {
    KeyOf(e).value.s
  }

  /** One pass of the loop body, once the element is unpacked into a key and the
      default it carries. */
  function Admit(p: Parsed, key: NameArg, dflt: DefaultArg): (r: Result<Parsed>)
  {
    match CheckName(key)
    case Some(e) => Failure(e)
    case None =>
      var n := key.s;
      if n in Reserved then Failure(ReservedFieldName(n))
      else if n in p.names then Failure(DuplicateField(n))
      else Success(Parsed(p.names + [n], if dflt.Given? then p.defaults[n := dflt.v] else p.defaults))
  }

  /** One pass of the loop body: unpack the element, then admit it. It accepts
      an admissible element whose name is new, appends the name and records the
      effective default unless it is the sentinel. */
  function AddField(p: Parsed, e: FieldElem, factoryDefault: DefaultArg): (r: Result<Parsed>)
    ensures r.Success? <==> Admissible(e) && ElemName(e) !in p.names
    ensures r.Success? ==>
      && r.value.names == p.names + [ElemName(e)]
      && r.value.defaults ==
           if EffectiveDefault(e, factoryDefault).Given? then p.defaults[ElemName(e) := EffectiveDefault(e, factoryDefault).v] else p.defaults
    ensures r.Failure? ==> ExceptionOf(r.error) == ValueError
  {
    match e
    case Malformed => Failure(MalformedField)
    case Bare(n) => Admit(p, Name(n), factoryDefault)
    case Pair(k, own) => Admit(p, k, own)
  }

  /** The factory loop over the elements, as a left fold that stops at the first
      failure: one name per element, and every failure a ValueError. */
  function ParseFields(elems: seq<FieldElem>, factoryDefault: DefaultArg): (r: Result<Parsed>)
    ensures r.Success? ==> |r.value.names| == |elems|
    ensures r.Failure? ==> ExceptionOf(r.error) == ValueError
    decreases |elems|
  {
    if elems == [] then Success(Parsed([], map[]))
    else
      match ParseFields(elems[..|elems| - 1], factoryDefault)
      case Failure(e) => Failure(e)
      case Success(p) => AddField(p, elems[|elems| - 1], factoryDefault)
  }

  /** Once a prefix of the elements fails, the whole loop fails with that error. */
  lemma {:induction false} ParseFailureSticks(elems: seq<FieldElem>, i: nat, d: DefaultArg)
    requires i <= |elems|
    requires ParseFields(elems[..i], d).Failure?
    ensures ParseFields(elems, d) == ParseFields(elems[..i], d)
    decreases |elems| - i
  {
    if i < |elems| {
      assert elems[..i + 1][..i] == elems[..i];
      ParseFailureSticks(elems, i + 1, d);
    } else {
      assert elems[..i] == elems;
    }
  }

  /** The loop after one more element, unpacked into its name and default: it
      is the pass over that element, and a failing pass decides the whole loop. */
  lemma ParseNext(elems: seq<FieldElem>, i: nat, d: DefaultArg, p: Parsed, key: NameArg, cur: DefaultArg)
    requires i < |elems| && ParseFields(elems[..i], d) == Success(p)
    requires match elems[i]
      case Bare(n) => key == Name(n) && cur == d
      case Pair(k, own) => key == k && cur == own
      case Malformed => false
    ensures ParseFields(elems[..i + 1], d) == Admit(p, key, cur)
    ensures Admit(p, key, cur).Failure? ==> ParseFields(elems, d) == Admit(p, key, cur)
  {
    assert elems[..i + 1][..i] == elems[..i];
    if Admit(p, key, cur).Failure? {
      ParseFailureSticks(elems, i + 1, d);
    }
  }

  /** An element that does not unpack stops the loop with `MalformedField`. */
  lemma ParseStopsAtMalformed(elems: seq<FieldElem>, i: nat, d: DefaultArg, p: Parsed)
    requires i < |elems| && ParseFields(elems[..i], d) == Success(p) && elems[i].Malformed?
    ensures ParseFields(elems, d) == Failure(MalformedField)
  {
    assert elems[..i + 1][..i] == elems[..i];
    ParseFailureSticks(elems, i + 1, d);
  }

  /** The loop succeeds exactly when every element is a well-formed pair or name
      that passes validation, is not reserved, and is not repeated. */
  lemma {:induction false} ParseFieldsSucceeds(elems: seq<FieldElem>, d: DefaultArg)
    ensures ParseFields(elems, d).Success? <==>
      && (forall i :: 0 <= i < |elems| ==> Admissible(elems[i]))
      && (forall i, j :: 0 <= i < j < |elems| ==> ElemName(elems[i]) != ElemName(elems[j]))
    ensures ParseFields(elems, d).Success? ==>
      && |ParseFields(elems, d).value.names| == |elems|
      && forall i :: 0 <= i < |elems| ==> ParseFields(elems, d).value.names[i] == ElemName(elems[i])
    decreases |elems|
  {
    if elems != [] {
      var init, last := elems[..|elems| - 1], elems[|elems| - 1];
      ParseFieldsSucceeds(init, d);
      assert forall i :: 0 <= i < |init| ==> init[i] == elems[i];
      match ParseFields(init, d)
      case Failure(_) =>
      case Success(p) =>
        assert ParseFields(elems, d) == AddField(p, last, d);
        if !Admissible(last) {
          assert !Admissible(elems[|elems| - 1]);
        } else if ElemName(last) in p.names {
          var j :| 0 <= j < |p.names| && p.names[j] == ElemName(last);
          assert ElemName(elems[j]) == ElemName(elems[|elems| - 1]);
        } else {
          var q := ParseFields(elems, d).value;
          forall i | 0 <= i < |elems| ensures Admissible(elems[i]) && q.names[i] == ElemName(elems[i]) {
            if i < |init| {
              assert elems[i] == init[i];
            }
          }
          forall i, j | 0 <= i < j < |elems| ensures ElemName(elems[i]) != ElemName(elems[j]) {
            assert elems[i] == init[i];
            if j < |init| {
              assert elems[j] == init[j];
            } else {
              assert ElemName(elems[i]) == p.names[i];
            }
          }
        }
    }
  }

  /** Default resolution: after a successful loop, a field has a default exactly
      when its effective default is not the sentinel, and that default is the
      pair's own value or else the factory's. */
  lemma {:induction false} DefaultResolution(elems: seq<FieldElem>, d: DefaultArg)
    requires ParseFields(elems, d).Success?
    ensures var p := ParseFields(elems, d).value;
      && |p.names| == |elems|
      && (forall i :: 0 <= i < |elems| ==>
            (p.names[i] in p.defaults <==> EffectiveDefault(elems[i], d).Given?))
      && (forall i :: 0 <= i < |elems| && p.names[i] in p.defaults ==>
            p.defaults[p.names[i]] == EffectiveDefault(elems[i], d).v)
      && (forall n :: n in p.defaults ==> n in p.names)
    decreases |elems|
  {
    ParseFieldsSucceeds(elems, d);
    if elems != [] {
      var init, last := elems[..|elems| - 1], elems[|elems| - 1];
      assert ParseFields(init, d).Success?;
      DefaultResolution(init, d);
      ParseFieldsSucceeds(init, d);
      var p := ParseFields(init, d).value;
      assert ParseFields(elems, d) == AddField(p, last, d);
      assert forall i :: 0 <= i < |init| ==> init[i] == elems[i];
    }
  }

  ghost predicate DefaultsTrail(names: seq<string>, defaults: map<string, Value>)
  {
    forall i, j :: 0 <= i < j < |names| && names[i] in defaults ==> names[j] in defaults
  }

  /** Scans the generated signature `x, y=..., ...` for a parameter without a
      default after one with a default; `afterDefault` says whether one with a
      default has already been passed. */
  function RequiredAfterDefault(names: seq<string>, defaults: map<string, Value>, afterDefault: bool): (r: Option<string>)
    ensures r.None? <==>
      && (afterDefault ==> forall j :: 0 <= j < |names| ==> names[j] in defaults)
      && DefaultsTrail(names, defaults)
    ensures r.Some? ==> r.value in names && r.value !in defaults
    decreases |names|
  {
    if names == [] then None
    else if names[0] in defaults then RequiredAfterDefault(names[1..], defaults, true)
    else if afterDefault then Some(names[0])
    else
      var r := RequiredAfterDefault(names[1..], defaults, false);
      assert r.None? ==> DefaultsTrail(names, defaults) by {
        if r.None? {
          forall i, j | 0 <= i < j < |names| && names[i] in defaults
            ensures names[j] in defaults
          {
            assert names[1..][i - 1] == names[i] && names[1..][j - 1] == names[j];
          }
        }
      }
      r
  }

  /** The first of the names that lies in `s`. */
  function FirstIn(names: seq<string>, s: set<string>): (r: Option<string>)
    ensures r.None? <==> forall i :: 0 <= i < |names| ==> names[i] !in s
    ensures r.Some? ==> r.value in s && r.value in names
  {
    if names == [] then None
    else if names[0] in s then Some(names[0])
    else FirstIn(names[1..], s)
  }

  /** The class text built from `spec` compiles: the signature `__init__(self,
      <fields in declared order> [, **_unused_kwargs])` puts no parameter without
      a default after one with a default and repeats no parameter name, and
      neither the class nor a parameter (nor the attribute `__init__` assigns)
      is named `__debug__`. */
  ghost predicate Compiles(spec: TypeSpec)
  {
    && DefaultsTrail(spec.names, spec.defaults)
    && "self" !in spec.names
    && (spec.ignoreExtra ==> "_unused_kwargs" !in spec.names)
    && "__debug__" !in spec.names
    && spec.typename != "__debug__"
  }

  /** What Python says when it compiles and then executes the class text built
      from `spec`. A text that does not compile is a SyntaxError; once it
      compiles, creating the class fails with ValueError when a slot collides
      with a name its body defines. The checks run in the compiler's order:
      parsing the signature, then the parameter names, then `__debug__`. */
  function TemplateCheck(spec: TypeSpec): (r: Option<Error>)
    ensures r.None? <==> Compiles(spec) && forall i :: 0 <= i < |spec.names| ==> spec.names[i] !in ClassAttributes
    ensures r.Some? && !Compiles(spec) ==> ExceptionOf(r.value) == SyntaxError
    ensures r.Some? && Compiles(spec) ==>
      r.value.SlotConflict? && r.value.name in spec.names && r.value.name in ClassAttributes
  {
    match RequiredAfterDefault(spec.names, spec.defaults, false)
    case Some(n) => Some(DefaultBeforeRequired(n))
    case None =>
      if "self" in spec.names then Some(DuplicateParameter("self"))
      else if spec.ignoreExtra && "_unused_kwargs" in spec.names then Some(DuplicateParameter("_unused_kwargs"))
      else if "__debug__" in spec.names || spec.typename == "__debug__" then Some(DebugAssignment)
      else
        match FirstIn(spec.names, ClassAttributes)
        case Some(n) => Some(SlotConflict(n))
        case None => None
  }

  /** The whole factory decision: the class it would create, or what it raises.
      A class is named by the validated type name and keeps the extra-keyword
      policy; every failure is a ValueError, or a SyntaxError from compiling the
      generated text. */
  function Declare(typename: NameArg, fields: FieldsArg, factoryDefault: DefaultArg, ignoreExtra: bool): (r: Result<TypeSpec>)
    ensures r.Success? ==>
      && ValidName(typename) && r.value.typename == typename.s
      && r.value.ignoreExtra == ignoreExtra
      && Compiles(r.value)
    ensures r.Failure? ==> ExceptionOf(r.error) == ValueError || ExceptionOf(r.error) == SyntaxError
  {
    match CheckName(typename)
    case Some(e) => Failure(e)
    case None =>
      match ParseFields(Elements(fields), factoryDefault)
      case Failure(e) => Failure(e)
      case Success(p) =>
        var spec := TypeSpec(typename.s, p.names, p.defaults, ignoreExtra);
        match TemplateCheck(spec)
        case Some(e) => Failure(e)
        case None => Success(spec)
  }

  /** What every class the factory creates satisfies. */
  ghost predicate WellFormed(spec: TypeSpec)
  {
    && ValidName(Name(spec.typename))
    && (forall i :: 0 <= i < |spec.names| ==> ValidFieldName(spec.names[i]))
    && (forall i, j :: 0 <= i < j < |spec.names| ==> spec.names[i] != spec.names[j])
    && (forall n :: n in spec.defaults ==> n in spec.names)
    && Compiles(spec)
    && (forall i :: 0 <= i < |spec.names| ==> spec.names[i] !in ClassAttributes)
  }

  /** A successful factory call yields a well-formed class whose fields are the
      specification's names in declared order, with the resolved defaults. */
  lemma DeclaredSpec(typename: NameArg, fields: FieldsArg, d: DefaultArg, ignoreExtra: bool)
    requires Declare(typename, fields, d, ignoreExtra).Success?
    ensures var spec := Declare(typename, fields, d, ignoreExtra).value;
      var elems := Elements(fields);
      && WellFormed(spec)
      && spec.typename == typename.s
      && spec.ignoreExtra == ignoreExtra
      && |spec.names| == |elems|
      && (forall i :: 0 <= i < |elems| ==> Admissible(elems[i]))
      && (forall i :: 0 <= i < |elems| ==> spec.names[i] == ElemName(elems[i]))
      && (forall i :: 0 <= i < |elems| ==>
            (spec.names[i] in spec.defaults <==> EffectiveDefault(elems[i], d).Given?))
      && (forall i :: 0 <= i < |elems| && spec.names[i] in spec.defaults ==>
            spec.defaults[spec.names[i]] == EffectiveDefault(elems[i], d).v)
  {
    var elems := Elements(fields);
    ParseFieldsSucceeds(elems, d);
    DefaultResolution(elems, d);
  }

  /** A string specification declares the same class as the list of its
      comma- and whitespace-separated tokens. */
  lemma TextMeansTokens(typename: NameArg, text: string, d: DefaultArg, ignoreExtra: bool)
    ensures var ts := Tokens(text);
      Declare(typename, Text(text), d, ignoreExtra)
      == Declare(typename, Elems(seq(|ts|, i requires 0 <= i < |ts| => Bare(ts[i]))), d, ignoreExtra)
  {
  }
}
