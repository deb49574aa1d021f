/** What name validation says about the names the scenarios use. */
module ScenarioNames {
  import opened Errors
  import opened Names
  import opened Factory

  /** A one-letter name passes validation. */
  lemma LetterIsValid(n: string)
    requires |n| == 1 && IsAlnum(n[0]) && !IsDigit(n[0])
    ensures CheckName(Name(n)) == None
  {
    assert n !in Keywords;
    assert AllNameChars(n) by {
      assert n[1..] == [];
    }
  }

  lemma PIsValid()
    ensures CheckName(Name("P")) == None
  {
    LetterIsValid("P");
  }

  lemma XAndYAreFieldNames()
    ensures CheckName(Name("x")) == None && "x" !in Reserved
    ensures CheckName(Name("y")) == None && "y" !in Reserved
  {
    LetterIsValid("x");
    LetterIsValid("y");
  }

  lemma ZIsAFieldName()
    ensures CheckName(Name("z")) == None && "z" !in Reserved
  {
    LetterIsValid("z");
  }

  lemma DebugHasNameChars()
    ensures AllNameChars("__debug__")
  {
  }

  lemma DebugIsNoKeyword()
    ensures "__debug__" !in Keywords
  {
  }

  lemma DebugIsAName()
    ensures CheckName(Name("__debug__")) == None
  {
    DebugHasNameChars();
    DebugIsNoKeyword();
  }

  lemma ForIsAKeyword()
    ensures CheckName(Name("for")) == Some(KeywordName("for"))
  {
    assert AllNameChars("for");
  }

  lemma FieldsIsNoKeyword()
    ensures "_fields" !in Keywords
  {
  }

  lemma FieldsHasNameChars()
    ensures AllNameChars("_fields")
  {
  }

  lemma FieldsIsAName()
    ensures CheckName(Name("_fields")) == None && "_fields" in Reserved
  {
    FieldsIsNoKeyword();
    FieldsHasNameChars();
  }
}

/** Concrete factory calls and instance calls, each stating what Python does
    with them. */
module Scenarios {
  import opened Errors
  import opened Values
  import opened Names
  import opened Split
  import opened Factory
  import opened Binding
  import opened Repr
  import opened ThinRecord
  import opened ScenarioNames

  lemma ParseOne(e: FieldElem, d: DefaultArg)
    ensures ParseFields([e], d) == AddField(Parsed([], map[]), e, d)
  {
    assert [e][..0] == [];
  }

  lemma ParseTwo(e0: FieldElem, e1: FieldElem, d: DefaultArg)
    ensures ParseFields([e0], d).Failure? ==> ParseFields([e0, e1], d) == ParseFields([e0], d)
    ensures ParseFields([e0], d).Success? ==> ParseFields([e0, e1], d) == AddField(ParseFields([e0], d).value, e1, d)
  {
    assert [e0, e1][..1] == [e0];
  }

  lemma ParseThree(e0: FieldElem, e1: FieldElem, e2: FieldElem, d: DefaultArg)
    ensures ParseFields([e0, e1], d).Failure? ==> ParseFields([e0, e1, e2], d) == ParseFields([e0, e1], d)
    ensures ParseFields([e0, e1], d).Success? ==> ParseFields([e0, e1, e2], d) == AddField(ParseFields([e0, e1], d).value, e2, d)
  {
    assert [e0, e1, e2][..2] == [e0, e1];
  }

  lemma AdmitNew(p: Parsed, n: string, dflt: DefaultArg)
    requires CheckName(Name(n)) == None && n !in Reserved && n !in p.names
    ensures Admit(p, Name(n), dflt).Success?
    ensures Admit(p, Name(n), dflt).value.names == p.names + [n]
    ensures Admit(p, Name(n), dflt).value.defaults == if dflt.Given? then p.defaults[n := dflt.v] else p.defaults
  {
  }

  lemma NoCommasInXYX()
    ensures CommasToSpaces("x y x") == "x y x"
  {
  }

  lemma OneLetterWords()
    ensures IsWord("x") && IsWord("y")
  {
  }

  /** A string specification is split at commas and whitespace. */
  lemma TokensOfXYX()
    ensures Tokens("x y x") == ["x", "y", "x"]
  {
    NoCommasInXYX();
    OneLetterWords();
    WordsOfWordThen("x", "");
    assert "x" + "" == "x";
    WordsAfterSpace("x");
    WordsOfWordThen("y", " x");
    assert "y" + " x" == "y x";
    WordsAfterSpace("y x");
    WordsOfWordThen("x", " y x");
    assert "x" + " y x" == "x y x";
  }

  lemma ElementsOfThreeTokens(t: string, a: string, b: string, c: string)
    requires Tokens(t) == [a, b, c]
    ensures Elements(Text(t)) == [Bare(a), Bare(b), Bare(c)]
  {
    var es := Elements(Text(t));
    assert |es| == 3 && es[0] == Bare(a) && es[1] == Bare(b) && es[2] == Bare(c);
  }

  lemma ElementsOfXYX()
    ensures Elements(Text("x y x")) == [Bare("x"), Bare("y"), Bare("x")]
  {
    TokensOfXYX();
    ElementsOfThreeTokens("x y x", "x", "y", "x");
  }

  /** Bare names `x` and `y` parse into two fields. */
  lemma ParsedXY(d: DefaultArg)
    ensures ParseFields([Bare("x"), Bare("y")], d).Success?
    ensures ParseFields([Bare("x"), Bare("y")], d).value.names == ["x", "y"]
  {
    XAndYAreFieldNames();
    ParseOne(Bare("x"), d);
    AdmitNew(Parsed([], map[]), "x", d);
    var p1 := ParseFields([Bare("x")], d);
    assert p1.Success? && p1.value.names == ["x"];
    ParseTwo(Bare("x"), Bare("y"), d);
    AdmitNew(p1.value, "y", d);
  }

  /** A repeated field name in a string specification is refused. */
  lemma RepeatedFieldRefused()
    ensures Declare(Name("P"), Text("x y x"), NoDefault, true) == Failure(DuplicateField("x"))
  {
    PIsValid();
    ElementsOfXYX();
    ParsedXY(NoDefault);
    XAndYAreFieldNames();
    ParseThree(Bare("x"), Bare("y"), Bare("x"), NoDefault);
  }

  /** A keyword is refused as a field name. */
  lemma KeywordFieldRefused()
    ensures Declare(Name("P"), Elems([Bare("for")]), NoDefault, true) == Failure(KeywordName("for"))
  {
    PIsValid();
    ForIsAKeyword();
    ParseOne(Bare("for"), NoDefault);
  }

  /** A helper's name is refused as a field name. */
  lemma HelperNameRefused()
    ensures Declare(Name("P"), Elems([Bare("_fields")]), NoDefault, true) == Failure(ReservedFieldName("_fields"))
  {
    PIsValid();
    FieldsIsAName();
    ParseOne(Bare("_fields"), NoDefault);
  }

  /** An element that does not unpack into a name and a default is refused;
      the type name is checked before any field. */
  lemma MalformedElementRefused()
    ensures Declare(Name("P"), Elems([Malformed]), NoDefault, true) == Failure(MalformedField)
    ensures Declare(Name(""), Elems([Malformed]), NoDefault, true) == Failure(EmptyName)
  {
    PIsValid();
    ParseOne(Malformed, NoDefault);
  }

  /** The pair `('x', 2)` and the bare name `y` parse into two fields; `x`
      keeps its own default and `y` takes the factory's, if any. */
  lemma ParsedPairThenBare(d: DefaultArg)
    ensures ParseFields([Pair(Name("x"), Given(IntVal(2))), Bare("y")], d).Success?
    ensures ParseFields([Pair(Name("x"), Given(IntVal(2))), Bare("y")], d).value ==
      Parsed(["x", "y"], if d.Given? then map["x" := IntVal(2), "y" := d.v] else map["x" := IntVal(2)])
  {
    XAndYAreFieldNames();
    ParseOne(Pair(Name("x"), Given(IntVal(2))), d);
    AdmitNew(Parsed([], map[]), "x", Given(IntVal(2)));
    var p1 := ParseFields([Pair(Name("x"), Given(IntVal(2)))], d);
    assert p1.Success? && p1.value.names == ["x"] && p1.value.defaults == map["x" := IntVal(2)];
    ParseTwo(Pair(Name("x"), Given(IntVal(2))), Bare("y"), d);
    AdmitNew(p1.value, "y", d);
    var p2 := ParseFields([Pair(Name("x"), Given(IntVal(2))), Bare("y")], d);
    assert p2.Success? && p2.value.names == ["x", "y"];
  }

  /** A field with a default followed by one without is not reordered: the
      generated signature does not compile. */
  lemma DefaultThenRequiredRefused()
    ensures Declare(Name("P"), Elems([Pair(Name("x"), Given(IntVal(2))), Bare("y")]), NoDefault, true)
      == Failure(DefaultBeforeRequired("y"))
  {
    PIsValid();
    ParsedPairThenBare(NoDefault);
    assert RequiredAfterDefault(["x", "y"], map["x" := IntVal(2)], false) == Some("y") by {
      assert ["x", "y"][1..] == ["y"];
    }
  }

  /** A pair's own default wins over the factory default, and the factory
      default fills the bare names. */
  lemma DefaultsResolved()
    ensures Declare(Name("P"), Elems([Pair(Name("x"), Given(IntVal(2))), Bare("y")]), Given(IntVal(3)), true)
      == Success(TypeSpec("P", ["x", "y"], map["x" := IntVal(2), "y" := IntVal(3)], true))
  {
    PIsValid();
    ParsedPairThenBare(Given(IntVal(3)));
    XYCompiles(map["x" := IntVal(2), "y" := IntVal(3)], true);
  }

  /** Fields `x` and `y`, both with a default, make a class that compiles. */
  lemma XYCompiles(defaults: map<string, Value>, ignoreExtra: bool)
    requires "x" in defaults && "y" in defaults
    ensures TemplateCheck(TypeSpec("P", ["x", "y"], defaults, ignoreExtra)).None?
  {
    assert ["x", "y"][1..] == ["y"];
    assert "x" !in ClassAttributes && "y" !in ClassAttributes;
    assert FirstIn(["x", "y"], ClassAttributes) == None;
  }

  /** Positional arguments fill the first fields; the rest take their defaults. */
  lemma DefaultsFillTheRest()
    ensures Bind(TypeSpec("P", ["x", "y"], map["x" := IntVal(2), "y" := IntVal(3)], true), [IntVal(4)], [])
      == Success([IntVal(4), IntVal(3)])
  {
    var spec := TypeSpec("P", ["x", "y"], map["x" := IntVal(2), "y" := IntVal(3)], true);
    assert Missing(spec.names, 1, map[], spec.defaults) == [] by {
      assert spec.names[1..] == ["y"];
    }
    var vals := Slots(spec, [IntVal(4)], map[]);
    assert vals == [IntVal(4), IntVal(3)];
  }

  /** The pair `('x', NO_DEFAULT)` parses into a field without a default. */
  lemma ParsedSentinel(d: DefaultArg)
    ensures ParseFields([Pair(Name("x"), NoDefault)], d) == Success(Parsed(["x"], map[]))
  {
    XAndYAreFieldNames();
    ParseOne(Pair(Name("x"), NoDefault), d);
    AdmitNew(Parsed([], map[]), "x", NoDefault);
    var p1 := ParseFields([Pair(Name("x"), NoDefault)], d);
    assert p1.Success? && p1.value.names == ["x"] && p1.value.defaults == map[];
  }

  /** A single field `x` makes a class that compiles. */
  lemma XCompiles(defaults: map<string, Value>, ignoreExtra: bool)
    ensures TemplateCheck(TypeSpec("P", ["x"], defaults, ignoreExtra)).None?
  {
    assert "x" !in ClassAttributes;
    assert FirstIn(["x"], ClassAttributes) == None;
  }

  /** An explicit sentinel in a pair leaves the field without a default. */
  lemma SentinelDeclared()
    ensures Declare(Name("P"), Elems([Pair(Name("x"), NoDefault)]), Given(IntVal(3)), true)
      == Success(TypeSpec("P", ["x"], map[], true))
  {
    PIsValid();
    ParsedSentinel(Given(IntVal(3)));
    XCompiles(map[], true);
  }

  /** An explicit sentinel in a pair overrides the factory default, so the field
      is required and calling without it raises TypeError. */
  lemma ExplicitSentinelMakesRequired()
    ensures var spec := Declare(Name("P"), Elems([Pair(Name("x"), NoDefault)]), Given(IntVal(3)), true);
      && spec.Success?
      && Bind(spec.value, [], []) == Failure(MissingArguments(["x"]))
  {
    SentinelDeclared();
    var spec := TypeSpec("P", ["x"], map[], true);
    assert Missing(spec.names, 0, map[], spec.defaults) == ["x"] by {
      assert spec.names[1..] == [];
    }
  }

  /** `['x', ('y', 10), 'z']` with factory default -1: the bare names take the
      factory default and the pair keeps its own. */
  lemma ParsedXYZ()
    ensures ParseFields([Bare("x"), Pair(Name("y"), Given(IntVal(10))), Bare("z")], Given(IntVal(-1)))
      == Success(Parsed(["x", "y", "z"], map["x" := IntVal(-1), "y" := IntVal(10), "z" := IntVal(-1)]))
  {
    var d := Given(IntVal(-1));
    var y := Pair(Name("y"), Given(IntVal(10)));
    XAndYAreFieldNames();
    ZIsAFieldName();
    ParseOne(Bare("x"), d);
    AdmitNew(Parsed([], map[]), "x", d);
    var p1 := ParseFields([Bare("x")], d);
    assert p1.Success? && p1.value.names == ["x"] && p1.value.defaults == map["x" := IntVal(-1)];
    ParseTwo(Bare("x"), y, d);
    AdmitNew(p1.value, "y", Given(IntVal(10)));
    var p2 := ParseFields([Bare("x"), y], d);
    assert p2.Success? && p2.value.names == ["x", "y"] && p2.value.defaults == map["x" := IntVal(-1), "y" := IntVal(10)];
    ParseThree(Bare("x"), y, Bare("z"), d);
    assert "z" !in p2.value.names;
    AdmitNew(p2.value, "z", d);
    var p3 := ParseFields([Bare("x"), y, Bare("z")], d);
    assert p3.Success? && p3.value.names == ["x", "y", "z"];
    assert p3.value.defaults == map["x" := IntVal(-1), "y" := IntVal(10), "z" := IntVal(-1)];
  }

  /** Fields `x`, `y` and `z`, all with a default, make a class that compiles. */
  lemma XYZCompiles(defaults: map<string, Value>)
    requires "x" in defaults && "y" in defaults && "z" in defaults
    ensures TemplateCheck(TypeSpec("P", ["x", "y", "z"], defaults, true)).None?
  {
    var names := ["x", "y", "z"];
    assert names[1..] == ["y", "z"] && names[1..][1..] == ["z"];
    assert "x" !in ClassAttributes && "y" !in ClassAttributes && "z" !in ClassAttributes;
    assert FirstIn(names, ClassAttributes) == None;
  }

  lemma XYZDeclared()
    ensures Declare(Name("P"), Elems([Bare("x"), Pair(Name("y"), Given(IntVal(10))), Bare("z")]), Given(IntVal(-1)), true)
      == Success(TypeSpec("P", ["x", "y", "z"], map["x" := IntVal(-1), "y" := IntVal(10), "z" := IntVal(-1)], true))
  {
    PIsValid();
    ParsedXYZ();
    XYZCompiles(map["x" := IntVal(-1), "y" := IntVal(10), "z" := IntVal(-1)]);
  }

  /** On the class made from `['x', ('y', 10), 'z']` with factory default -1, a
      keyword argument fills a field past the positional ones, and the fields
      nothing names take their defaults. */
  lemma KeywordFillsLaterField()
    ensures var spec := Declare(Name("P"), Elems([Bare("x"), Pair(Name("y"), Given(IntVal(10))), Bare("z")]), Given(IntVal(-1)), true);
      && spec.Success?
      && Bind(spec.value, [], [("z", IntVal(0))]) == Success([IntVal(-1), IntVal(10), IntVal(0)])
  {
    XYZDeclared();
    KeywordZOnXYZ();
  }

  lemma KeywordZOnXYZ()
    ensures Bind(TypeSpec("P", ["x", "y", "z"], map["x" := IntVal(-1), "y" := IntVal(10), "z" := IntVal(-1)], true), [], [("z", IntVal(0))])
      == Success([IntVal(-1), IntVal(10), IntVal(0)])
  {
    var spec := TypeSpec("P", ["x", "y", "z"], map["x" := IntVal(-1), "y" := IntVal(10), "z" := IntVal(-1)], true);
    var kws := [("z", IntVal(0))];
    assert KeysOf(kws) == ["z"];
    assert FirstRepeated(["z"], {}) == None;
    var kw := map["z" := IntVal(0)];
    assert BindKeywords(spec, 0, kws[1..], kw) == Success(kw);
    assert BindKeywords(spec, 0, kws, map[]) == Success(kw);
    assert Missing(spec.names, 0, kw, spec.defaults) == [] by {
      assert spec.names[1..] == ["y", "z"] && spec.names[1..][1..] == ["z"];
    }
    var vals := Slots(spec, [], kw);
    assert vals == [IntVal(-1), IntVal(10), IntVal(0)];
  }

  /** A class named `__debug__` passes name validation but does not compile. */
  lemma DebugClassRefused()
    ensures Declare(Name("__debug__"), Elems([]), NoDefault, true) == Failure(DebugAssignment)
  {
    DebugIsAName();
    assert ParseFields([], NoDefault) == Success(Parsed([], map[]));
  }

  /** By default a keyword that names no field is dropped. */
  lemma ExtraKeywordDropped()
    ensures Bind(TypeSpec("P", ["x"], map[], true), [], [("x", IntVal(3)), ("y", IntVal(4))]) == Success([IntVal(3)])
  {
    var spec := TypeSpec("P", ["x"], map[], true);
    var kws := [("x", IntVal(3)), ("y", IntVal(4))];
    assert KeysOf(kws) == ["x", "y"];
    assert FirstRepeated(["x", "y"], {}) == None by {
      assert ["x", "y"][1..] == ["y"];
    }
    var kw := map["x" := IntVal(3)];
    assert kws[1..] == [("y", IntVal(4))];
    assert BindKeywords(spec, 0, kws[1..], kw) == Success(kw);
    assert BindKeywords(spec, 0, kws, map[]) == Success(kw);
    assert Missing(spec.names, 0, kw, spec.defaults) == [];
    assert Slots(spec, [], kw) == [IntVal(3)];
  }

  /** A class made with `ignore_extra_kwargs=False` refuses such a keyword. */
  lemma ExtraKeywordRefused()
    ensures Bind(TypeSpec("P", [], map[], false), [], [("y", IntVal(4))]) == Failure(UnexpectedKeyword("y"))
  {
    assert KeysOf([("y", IntVal(4))]) == ["y"];
    assert FirstRepeated(["y"], {}) == None;
  }

  lemma ReprOfOne()
    ensures ValueRepr(IntVal(1)) == "1"
  {
    assert IntRepr(1) == "1";
  }

  lemma ReprOfTwoString()
    ensures ValueRepr(StrVal("2")) == "'2'"
  {
    assert QuoteFor("2") == '\'';
    assert Escape("2", '\'') == "2";
  }

  /** `repr` of `P(1, '2')` for a class `P` with fields `P` and `x`. */
  lemma ReprOfMixedValues()
    ensures RecordRepr("P", ["P", "x"], [IntVal(1), StrVal("2")]) == "P(P=1, x='2')"
  {
    ReprOfOne();
    ReprOfTwoString();
    assert FieldsRepr(["x"], [StrVal("2")]) == "x='2'";
  }

  /** `Point(1, 2) < Point(1, 3)`: the second values decide; an instance of
      another class cannot be ordered against it. */
  lemma PointOrder(point: RecordType, other: RecordType)
    requires point != other
    ensures Lt(Rec(point, [IntVal(1), IntVal(2)]), Rec(point, [IntVal(1), IntVal(3)])) == Success(true)
    ensures Lt(Rec(point, [IntVal(1), IntVal(2)]), Rec(other, [IntVal(1), IntVal(2)])).Failure?
    ensures ExceptionOf(Lt(Rec(point, [IntVal(1), IntVal(2)]), Rec(other, [IntVal(1), IntVal(2)])).error) == TypeError
  {
    var xs: seq<Value>, ys: seq<Value> := [IntVal(1), IntVal(2)], [IntVal(1), IntVal(3)];
    assert FirstDifference(xs, ys, 1) by {
      assert xs[..1] == ys[..1];
    }
  }

  /** `'x, y'` becomes `'x  y'`, with two separators in a row, and still splits
      into `x` and `y`. */
  lemma CommaSpaceSplits()
    ensures Tokens("x, y") == ["x", "y"]
  {
    assert CommasToSpaces("x, y") == "x" + [' '] + (" " + "y");
    WordsAtSeparator("x", ' ', " " + "y");
    assert " " + "y" == [] + [' '] + "y";
    WordsAtSeparator([], ' ', "y");
    WordsOfWord("x");
    WordsOfWord("y");
  }

  /** `P(1, None) < P(2, 'a')`: the first values differ and decide, so the later
      values, which cannot be ordered against each other, are never compared. */
  lemma MixedTailOrder(p: RecordType)
    ensures !Aligned([IntVal(1), NoneVal], [IntVal(2), StrVal("a")])
    ensures Lt(Rec(p, [IntVal(1), NoneVal]), Rec(p, [IntVal(2), StrVal("a")])) == Success(true)
  {
    var xs: seq<Value>, ys: seq<Value> := [IntVal(1), NoneVal], [IntVal(2), StrVal("a")];
    assert 1 < |xs| && 1 < |ys| && TypeName(xs[1]) != TypeName(ys[1]);
  }
}
