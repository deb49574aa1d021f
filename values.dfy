/** Field values and the Python 3 comparisons the generated class relies on:
    `tuple(self) == tuple(other)`, `tuple(self) < tuple(other)` and
    `tuple(self) <= tuple(other)`. */
module Values {
  import opened Errors

  /** The field values the model ranges over: `None`, integers and strings. */
  datatype Value = NoneVal | IntVal(i: int) | StrVal(s: string)

  /** `type(v).__name__`: what a failed comparison reports. */
  function TypeName(v: Value): (name: string)
  {
    match v
    case NoneVal => "NoneType"
    case IntVal(_) => "int"
    case StrVal(_) => "str"
  }

  /** `k` is the first index below both lengths at which `xs` and `ys` differ. */
  ghost predicate FirstDifference<T>(xs: seq<T>, ys: seq<T>, k: int)
  {
    0 <= k < |xs| && k < |ys| && xs[..k] == ys[..k] && xs[k] != ys[k]
  }

  /** One of `xs` and `ys` is a prefix of the other. */
  ghost predicate OnePrefix<T>(xs: seq<T>, ys: seq<T>)
  {
    (|xs| <= |ys| && xs == ys[..|xs|]) || (|ys| <= |xs| && ys == xs[..|ys|])
  }

  /** Dropping the first item of two sequences that agree on it moves their
      first difference one place down. */
  lemma FirstDifferenceTail<T>(xs: seq<T>, ys: seq<T>, k: int)
    requires xs != [] && ys != [] && FirstDifference(xs, ys, k)
    ensures k == 0 <==> xs[0] != ys[0]
    ensures k > 0 ==> FirstDifference(xs[1..], ys[1..], k - 1)
  {
    if k > 0 {
      assert xs[0] == xs[..k][0] && ys[0] == ys[..k][0];
      assert xs[1..][..k - 1] == xs[..k][1..] && ys[1..][..k - 1] == ys[..k][1..];
    }
  }

  /** Dropping the first item of two sequences that agree on it keeps one a
      prefix of the other. */
  lemma OnePrefixTail<T>(xs: seq<T>, ys: seq<T>)
    requires xs != [] && ys != [] && OnePrefix(xs, ys)
    ensures xs[0] == ys[0] && OnePrefix(xs[1..], ys[1..])
  {
    if |xs| <= |ys| {
      assert xs[0] == ys[..|xs|][0];
      assert xs[1..] == ys[1..][..|xs| - 1];
    } else {
      assert ys[0] == xs[..|ys|][0];
      assert ys[1..] == xs[1..][..|ys| - 1];
    }
  }

  /** Python 3 `str` ordering: the code points at the first difference decide;
      when one string is a prefix of the other, the shorter is below. */
  function StrLess(a: string, b: string): (r: bool)
    ensures r ==> a != b
    ensures |a| < |b| && a == b[..|a|] ==> r
    ensures forall k :: FirstDifference(a, b, k) ==> (r <==> a[k] < b[k])
    ensures OnePrefix(a, b) ==> (r <==> |a| < |b|)
    decreases |a|
  {
    if a == [] || b == [] then |a| < |b|
    else if a[0] == b[0] then
      assert forall k :: FirstDifference(a, b, k) ==> k > 0 && FirstDifference(a[1..], b[1..], k - 1) && a[k] == a[1..][k - 1] && b[k] == b[1..][k - 1] by {
        forall k | FirstDifference(a, b, k) ensures k > 0 && FirstDifference(a[1..], b[1..], k - 1) {
          FirstDifferenceTail(a, b, k);
        }
      }
      assert OnePrefix(a, b) ==> OnePrefix(a[1..], b[1..]) by {
        if OnePrefix(a, b) {
          OnePrefixTail(a, b);
        }
      }
      StrLess(a[1..], b[1..])
    else
      assert forall k :: FirstDifference(a, b, k) ==> k == 0 by {
        forall k | FirstDifference(a, b, k) ensures k == 0 {
          FirstDifferenceTail(a, b, k);
        }
      }
      assert !OnePrefix(a, b) by {
        if OnePrefix(a, b) {
          OnePrefixTail(a, b);
        }
      }
      a[0] < b[0]
  }

  lemma {:induction false} StrLessAsymmetric(a: string, b: string)
    requires StrLess(a, b)
    ensures !StrLess(b, a)
  {
    if a != [] && b != [] && a[0] == b[0] {
      StrLessAsymmetric(a[1..], b[1..]);
    }
  }

  lemma {:induction false} StrLessTransitive(a: string, b: string, c: string)
    requires StrLess(a, b) && StrLess(b, c)
    ensures StrLess(a, c)
  {
    if a != [] && b != [] && c != [] && a[0] == b[0] && b[0] == c[0] {
      StrLessTransitive(a[1..], b[1..], c[1..]);
    }
  }

  lemma {:induction false} StrLessConnected(a: string, b: string)
    requires a != b
    ensures StrLess(a, b) || StrLess(b, a)
  {
    if a != [] && b != [] && a[0] == b[0] {
      assert a == [a[0]] + a[1..] && b == [b[0]] + b[1..];
      StrLessConnected(a[1..], b[1..]);
    }
  }

  /** `a < b` or `a <= b` between two single values: integers and strings compare
      within their own type; every other pairing (including `None` with `None`)
      raises TypeError. */
  function ValueCompare(a: Value, b: Value, op: CompareOp): (r: Result<bool>)
    ensures r.Success? <==> (a.IntVal? && b.IntVal?) || (a.StrVal? && b.StrVal?)
    ensures r.Failure? ==> ExceptionOf(r.error) == TypeError
    ensures a.IntVal? && b.IntVal? ==> r.value == (if op == Less then a.i < b.i else a.i <= b.i)
    ensures a.StrVal? && b.StrVal? ==> r.value == (if op == Less then StrLess(a.s, b.s) else StrLess(a.s, b.s) || a.s == b.s)
  {
    match (a, b)
    case (IntVal(x), IntVal(y)) => Success(if op == Less then x < y else x <= y)
    case (StrVal(x), StrVal(y)) => Success(if op == Less then StrLess(x, y) else StrLess(x, y) || x == y)
    case _ => Failure(Unorderable(op, TypeName(a), TypeName(b)))
  }

  /** Python's tuple ordering: find the first index where the items differ (by
      `==`) and compare those two items with the operator; when one tuple is a
      prefix of the other, compare lengths. Only a pair of items that cannot be
      ordered raises, and then with TypeError. */
  function TupleCompare(xs: seq<Value>, ys: seq<Value>, op: CompareOp): (r: Result<bool>)
    ensures r.Failure? ==> ExceptionOf(r.error) == TypeError
    ensures forall k :: FirstDifference(xs, ys, k) ==> r == ValueCompare(xs[k], ys[k], op)
    ensures OnePrefix(xs, ys) ==> r == Success(if op == Less then |xs| < |ys| else |xs| <= |ys|)
    decreases |xs|
  {
    if xs == [] || ys == [] then Success(if op == Less then |xs| < |ys| else |xs| <= |ys|)
    else if xs[0] == ys[0] then
      assert forall k :: FirstDifference(xs, ys, k) ==> k > 0 && FirstDifference(xs[1..], ys[1..], k - 1) && xs[k] == xs[1..][k - 1] && ys[k] == ys[1..][k - 1] by {
        forall k | FirstDifference(xs, ys, k) ensures k > 0 && FirstDifference(xs[1..], ys[1..], k - 1) {
          FirstDifferenceTail(xs, ys, k);
        }
      }
      assert OnePrefix(xs, ys) ==> OnePrefix(xs[1..], ys[1..]) by {
        if OnePrefix(xs, ys) {
          OnePrefixTail(xs, ys);
        }
      }
      TupleCompare(xs[1..], ys[1..], op)
    else
      assert forall k :: FirstDifference(xs, ys, k) ==> k == 0 by {
        forall k | FirstDifference(xs, ys, k) ensures k == 0 {
          FirstDifferenceTail(xs, ys, k);
        }
      }
      assert !OnePrefix(xs, ys) by {
        if OnePrefix(xs, ys) {
          OnePrefixTail(xs, ys);
        }
      }
      ValueCompare(xs[0], ys[0], op)
  }

  /** Two value sequences whose items agree in type position by position: a
      sufficient condition for their comparison not to raise. */
  ghost predicate Aligned(xs: seq<Value>, ys: seq<Value>)
  {
    forall i :: 0 <= i < |xs| && i < |ys| ==> TypeName(xs[i]) == TypeName(ys[i])
  }

  lemma {:induction false} AlignedCompareSucceeds(xs: seq<Value>, ys: seq<Value>, op: CompareOp)
    requires Aligned(xs, ys)
    ensures TupleCompare(xs, ys, op).Success?
  {
    if xs != [] && ys != [] {
      if xs[0] == ys[0] {
        assert Aligned(xs[1..], ys[1..]) by {
          forall i | 0 <= i < |xs[1..]| && i < |ys[1..]|
            ensures TypeName(xs[1..][i]) == TypeName(ys[1..][i])
          {
            assert xs[1..][i] == xs[i + 1] && ys[1..][i] == ys[i + 1];
          }
        }
        AlignedCompareSucceeds(xs[1..], ys[1..], op);
      } else {
        assert TypeName(xs[0]) == TypeName(ys[0]);
      }
    }
  }

  lemma {:induction false} TupleLessIrreflexive(xs: seq<Value>)
    ensures TupleCompare(xs, xs, Less) == Success(false)
    ensures TupleCompare(xs, xs, LessOrEqual) == Success(true)
  {
    if xs != [] {
      TupleLessIrreflexive(xs[1..]);
    }
  }

  lemma ValueLessAsymmetric(a: Value, b: Value)
    requires ValueCompare(a, b, Less) == Success(true)
    ensures ValueCompare(b, a, Less) == Success(false)
  {
    if a.StrVal? {
      StrLessAsymmetric(a.s, b.s);
    }
  }

  lemma ValueLessTransitive(a: Value, b: Value, c: Value)
    requires ValueCompare(a, b, Less) == Success(true)
    requires ValueCompare(b, c, Less) == Success(true)
    ensures ValueCompare(a, c, Less) == Success(true)
  {
    if a.StrVal? {
      StrLessTransitive(a.s, b.s, c.s);
    }
  }

  /** `<` on value tuples is transitive wherever both comparisons succeed. */
  lemma {:induction false} TupleLessTransitive(xs: seq<Value>, ys: seq<Value>, zs: seq<Value>)
    requires TupleCompare(xs, ys, Less) == Success(true)
    requires TupleCompare(ys, zs, Less) == Success(true)
    ensures TupleCompare(xs, zs, Less) == Success(true)
  {
    if xs != [] && ys != [] && zs != [] {
      if xs[0] == ys[0] && ys[0] == zs[0] {
        TupleLessTransitive(xs[1..], ys[1..], zs[1..]);
      } else if xs[0] != ys[0] && ys[0] != zs[0] {
        if xs[0] == zs[0] {
          ValueLessAsymmetric(xs[0], ys[0]);
          assert false;
        }
        ValueLessTransitive(xs[0], ys[0], zs[0]);
      }
    }
  }

  /** `<` on value tuples is asymmetric: when `xs < ys` holds, `ys < xs` is
      computed without raising and is false. */
  lemma {:induction false} TupleLessAsymmetric(xs: seq<Value>, ys: seq<Value>)
    requires TupleCompare(xs, ys, Less) == Success(true)
    ensures TupleCompare(ys, xs, Less) == Success(false)
  {
    if xs != [] && ys != [] {
      if xs[0] == ys[0] {
        TupleLessAsymmetric(xs[1..], ys[1..]);
      } else {
        ValueLessAsymmetric(xs[0], ys[0]);
      }
    }
  }

  /** Wherever `<` answers, it is total: for two different tuples the reverse
      comparison answers too, and one of the two is true. */
  lemma {:induction false} TupleLessConnected(xs: seq<Value>, ys: seq<Value>)
    requires xs != ys && TupleCompare(xs, ys, Less).Success?
    ensures TupleCompare(ys, xs, Less).Success?
    ensures TupleCompare(xs, ys, Less) == Success(true) || TupleCompare(ys, xs, Less) == Success(true)
  {
    if xs != [] && ys != [] {
      if xs[0] == ys[0] {
        assert xs == [xs[0]] + xs[1..] && ys == [ys[0]] + ys[1..];
        TupleLessConnected(xs[1..], ys[1..]);
      } else if xs[0].StrVal? {
        StrLessConnected(xs[0].s, ys[0].s);
      }
    }
  }

  /** On aligned tuples `<` never raises, so it is total there. */
  lemma AlignedLessConnected(xs: seq<Value>, ys: seq<Value>)
    requires Aligned(xs, ys) && xs != ys
    ensures TupleCompare(xs, ys, Less) == Success(true) || TupleCompare(ys, xs, Less) == Success(true)
  {
    AlignedCompareSucceeds(xs, ys, Less);
    TupleLessConnected(xs, ys);
  }

  /** Where the comparison succeeds, `<=` is `<` or `==`, and it raises exactly
      when `<` raises. */
  lemma {:induction false} LessOrEqualIsLessOrEqual(xs: seq<Value>, ys: seq<Value>)
    ensures TupleCompare(xs, ys, LessOrEqual).Success? == TupleCompare(xs, ys, Less).Success?
    ensures TupleCompare(xs, ys, Less).Success? ==>
      TupleCompare(xs, ys, LessOrEqual).value == (TupleCompare(xs, ys, Less).value || xs == ys)
  {
    if xs != [] && ys != [] {
      if xs[0] == ys[0] {
        assert xs == [xs[0]] + xs[1..] && ys == [ys[0]] + ys[1..];
        LessOrEqualIsLessOrEqual(xs[1..], ys[1..]);
      }
    } else if xs == [] && ys == [] {
    } else {
      assert xs != ys;
    }
  }

  /** `xs <= ys` is `not (ys < xs)`: the two raise together and otherwise give
      opposite answers. */
  lemma {:induction false} TupleCompareConverse(xs: seq<Value>, ys: seq<Value>)
    ensures TupleCompare(xs, ys, LessOrEqual).Success? == TupleCompare(ys, xs, Less).Success?
    ensures TupleCompare(xs, ys, LessOrEqual).Success? ==>
      TupleCompare(xs, ys, LessOrEqual).value == !TupleCompare(ys, xs, Less).value
  {
    if xs != [] && ys != [] {
      if xs[0] == ys[0] {
        TupleCompareConverse(xs[1..], ys[1..]);
      } else if xs[0].StrVal? && ys[0].StrVal? {
        var a, b := xs[0].s, ys[0].s;
        if StrLess(a, b) {
          StrLessAsymmetric(a, b);
        } else {
          StrLessConnected(a, b);
        }
      }
    }
  }
}
