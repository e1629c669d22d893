/** Evaluation of call trees against the attributes of one feature.

    Arguments are evaluated depth first, left to right, and the first failure
    is the result. A call's argument values are then checked against the
    catalogue entry (count and, since a `property` read may produce anything,
    type) before the function is applied. Only the functions whose
    documentation fixes an exact, non-floating-point result are given
    semantics; every other entry evaluates to `NotModelled`. */
module Evaluator {
  import opened Types
  import opened Catalog
  import SF = StringFunctions
  import Validator

  /** Why an evaluation fails. Evaluation does not assume a validated tree: it
      checks the name and the argument count again on its own, so the first two
      cases repeat those of `Validator.ValidationError`. */
  datatype EvalError =
    | UnknownFunction(name: string)
    | ArityMismatch(name: string, count: nat)
    | RuntimeTypeMismatch(name: string, position: nat, expected: Type, actual: Type)
    | MissingProperty(attribute: string)
    | IndexOutOfRange(name: string)
    | NotModelled(name: string)

  /** The attributes of the feature an expression is evaluated against. */
  type Context = map<string, Value>

  /** `between(v, lo, hi)`: `v` lies in the closed interval from `lo` to `hi`.
      The compared value is the first argument. */
  predicate BetweenInclusive(v: real, lo: real, hi: real) {
    lo <= v && v <= hi
  }

  /** `double2bool(x)`: true exactly when `x` is zero, as its documentation states. */
  predicate IsZero(x: real) {
    x == 0.0
  }

  /** A number used as a string index: a whole number, or nothing. */
  function AsIndex(x: real): (r: Option<int>)
    ensures r.Some? <==> x == x.Floor as real
    ensures r.Some? ==> r.value as real == x
  {
    if x == x.Floor as real then Some(x.Floor) else None
  }

  /** The first position from `from` on whose value does not have the type the
      shape expects there, if any. */
  function FirstMismatch(p: Params, vals: seq<Value>, from: nat): (r: Option<nat>)
    requires ArityFits(p, |vals|) && from <= |vals|
    ensures r.None? <==> forall i | from <= i < |vals| :: TypeOf(vals[i]) == ExpectedAt(p, i)
    ensures r.Some? ==> from <= r.value < |vals| && TypeOf(vals[r.value]) != ExpectedAt(p, r.value)
    ensures r.Some? ==> forall i | from <= i < r.value :: TypeOf(vals[i]) == ExpectedAt(p, i)
    decreases |vals| - from
  {
    if from == |vals| then None
    else if TypeOf(vals[from]) != ExpectedAt(p, from) then Some(from)
    else FirstMismatch(p, vals, from + 1)
  }

  /** The argument values have the count and the types the entry declares. */
  predicate Conforms(f: Fn, vals: seq<Value>) {
    && ArityFits(Sig(f).params, |vals|)
    && forall i | 0 <= i < |vals| :: TypeOf(vals[i]) == ExpectedAt(Sig(f).params, i)
  }

  /** The string contents of a list of string values. */
  function Strings(vals: seq<Value>): (r: seq<string>)
    requires forall i | 0 <= i < |vals| :: vals[i].Str?
    ensures |r| == |vals| && forall i | 0 <= i < |vals| :: r[i] == vals[i].s
  {
    seq(|vals|, i requires 0 <= i < |vals| => vals[i].s)
  }

  /** Applies entry `f` to evaluated arguments. */
  function Apply(f: Fn, vals: seq<Value>, ctx: Context): Result<Value, EvalError> {
    var p := Sig(f).params;
    if !ArityFits(p, |vals|) then Failure(ArityMismatch(NameOf(f), |vals|))
    else match FirstMismatch(p, vals, 0)
      case Some(i) => Failure(RuntimeTypeMismatch(NameOf(f), i, ExpectedAt(p, i), TypeOf(vals[i])))
      case None => Compute(f, vals, ctx)
  }

  /** The semantics of the entries this model covers, on conforming arguments. */
  function Compute(f: Fn, vals: seq<Value>, ctx: Context): Result<Value, EvalError>
    requires Conforms(f, vals)
  {
    match f
    case Property =>
      var attribute := vals[0].s;
      if attribute in ctx then Success(ctx[attribute]) else Failure(MissingProperty(attribute))
    case Between => Success(Bool(BetweenInclusive(vals[0].n, vals[1].n, vals[2].n)))
    case Double2bool => Success(Bool(IsZero(vals[0].n)))
    case In => Success(Bool(SF.In(Strings(vals))))
    case ParseBoolean => Success(Bool(SF.ParseBoolean(vals[0].s)))
    case StrConcat => Success(Str(SF.Concat(Strings(vals))))
    case StrDefaultIfBlank => Success(Str(SF.DefaultIfBlank(vals[0].s, vals[1].s)))
    case StrEndsWith => Success(Bool(SF.EndsWith(vals[0].s, vals[1].s)))
    case StrStartsWith => Success(Bool(SF.StartsWith(vals[0].s, vals[1].s)))
    case StrIndexOf => Success(Num(SF.IndexOf(vals[0].s, vals[1].s) as real))
    case StrLastIndexOf => Success(Num(SF.LastIndexOf(vals[0].s, vals[1].s) as real))
    case StrLength => Success(Num(SF.Length(vals[0].s) as real))
    case StrTrim => Success(Str(SF.Trim(vals[0].s)))
    case StrSubstring =>
      var begin, end := AsIndex(vals[1].n), AsIndex(vals[2].n);
      if begin.None? || end.None? then Failure(IndexOutOfRange(NameOf(f)))
      else (match SF.Substring(vals[0].s, begin.value, end.value)
        case Some(r) => Success(Str(r))
        case None => Failure(IndexOutOfRange(NameOf(f))))
    case StrSubstringStart =>
      var begin := AsIndex(vals[1].n);
      if begin.None? then Failure(IndexOutOfRange(NameOf(f)))
      else (match SF.SubstringStart(vals[0].s, begin.value)
        case Some(r) => Success(Str(r))
        case None => Failure(IndexOutOfRange(NameOf(f))))
    case _ => Failure(NotModelled(NameOf(f)))
  }

  /** Evaluates an expression against the attributes `ctx`. */
  function Eval(e: Expr, ctx: Context): Result<Value, EvalError>
    decreases e, if e.Call? then |e.args| + 1 else 0
  {
    match e
    case Literal(v) => Success(v)
    case Call(name, args) =>
      match FromName(name)
      case None => Failure(UnknownFunction(name))
      case Some(f) =>
        match EvalArgsFrom(e, ctx, 0)
        case Failure(err) => Failure(err)
        case Success(vals) => Apply(f, vals, ctx)
  }

  /** Evaluates the arguments of `e` from position `i` on, left to right,
      stopping at the first failure. */
  function EvalArgsFrom(e: Expr, ctx: Context, i: nat): (r: Result<seq<Value>, EvalError>)
    requires e.Call? && i <= |e.args|
    ensures r.Success? ==> |r.value| == |e.args| - i
    ensures r.Success? ==> forall j | 0 <= j < |r.value| :: Eval(e.args[i + j], ctx) == Success(r.value[j])
    decreases e, |e.args| - i
  {
    if i == |e.args| then Success([])
    else match Eval(e.args[i], ctx)
      case Failure(err) => Failure(err)
      case Success(v) =>
        match EvalArgsFrom(e, ctx, i + 1)
        case Failure(err) => Failure(err)
        case Success(rest) => Success([v] + rest)
  }

  /** Literal arguments carrying `vals`. */
  function Literals(vals: seq<Value>): (args: seq<Expr>)
    ensures |args| == |vals| && forall i | 0 <= i < |vals| :: args[i] == Literal(vals[i])
  {
    seq(|vals|, i requires 0 <= i < |vals| => Literal(vals[i]))
  }

  /** A call over literal arguments applies its entry to the literals' values. */
  lemma EvalOnLiterals(f: Fn, vals: seq<Value>, ctx: Context)
    ensures Eval(Call(NameOf(f), Literals(vals)), ctx) == Apply(f, vals, ctx)
  {
    NameRoundTrip(f);
    var e := Call(NameOf(f), Literals(vals));
    ArgsEvaluate(e, vals, ctx, 0);
    assert vals[0..] == vals;
  }

  /** Arguments that all evaluate successfully evaluate to the list of their values. */
  lemma {:induction false} ArgsEvaluate(e: Expr, vals: seq<Value>, ctx: Context, i: nat)
    requires e.Call? && |e.args| == |vals| && i <= |vals|
    requires forall j | i <= j < |vals| :: Eval(e.args[j], ctx) == Success(vals[j])
    ensures EvalArgsFrom(e, ctx, i) == Success(vals[i..])
    decreases |vals| - i
  {
    if i < |vals| {
      ArgsEvaluate(e, vals, ctx, i + 1);
      assert vals[i..] == [vals[i]] + vals[i + 1..];
    } else {
      assert vals[i..] == [];
    }
  }

  /** A successful application produces a value of the result type its
      `FunctionCall<T>` declares (`property` declares none). */
  lemma ApplyResultType(f: Fn, vals: seq<Value>, ctx: Context)
    requires f != Property
    requires Apply(f, vals, ctx).Success?
    ensures TypeOf(Apply(f, vals, ctx).value) == Sig(f).result
  {
  }

  /** A successful evaluation produces a value of the expression's static type,
      whenever that type is known. */
  lemma {:induction false} EvalResultType(e: Expr, ctx: Context)
    requires Eval(e, ctx).Success?
    requires Validator.StaticType(e) != TUnknown
    ensures TypeOf(Eval(e, ctx).value) == Validator.StaticType(e)
  {
    match e
    case Literal(_) =>
    case Call(name, args) =>
      var f := FromName(name).value;
      PropertyInEveryUnion(f);
      var vals := EvalArgsFrom(e, ctx, 0).value;
      ApplyResultType(f, vals, ctx);
  }

  /** No call in the tree reads a feature attribute. */
  predicate PropertyFree(e: Expr) {
    match e
    case Literal(_) => true
    case Call(name, args) => name != NameOf(Property) && forall i | 0 <= i < |args| :: PropertyFree(args[i])
  }

  /** A well-typed tree that reads no attribute cannot fail for an unknown
      name, a wrong argument count, a wrong argument type or a missing
      attribute: the only failures left are an index out of range and an entry
      whose semantics this model does not cover. */
  lemma {:induction false} WellTypedClosedCannotGoWrong(e: Expr, ctx: Context)
    requires Validator.WellTyped(e) && PropertyFree(e)
    ensures Validator.StaticType(e) != TUnknown
    ensures Eval(e, ctx).Failure? ==> Eval(e, ctx).error.IndexOutOfRange? || Eval(e, ctx).error.NotModelled?
    decreases e
  {
    match e
    case Literal(_) =>
    case Call(name, args) =>
      forall j | 0 <= j < |args|
        ensures Validator.StaticType(args[j]) != TUnknown
        ensures Eval(args[j], ctx).Failure? ==> Eval(args[j], ctx).error.IndexOutOfRange? || Eval(args[j], ctx).error.NotModelled?
      {
        WellTypedClosedCannotGoWrong(args[j], ctx);
      }
      ClosedCallCannotGoWrong(e, ctx);
  }

  /** The step of the lemma above for one call whose arguments are known to
      have known static types and to fail only in the allowed ways. */
  lemma ClosedCallCannotGoWrong(e: Expr, ctx: Context)
    requires e.Call? && Validator.WellTyped(e) && e.name != NameOf(Property)
    requires forall j | 0 <= j < |e.args| :: Validator.StaticType(e.args[j]) != TUnknown
    requires forall j | 0 <= j < |e.args| ::
      Eval(e.args[j], ctx).Failure? ==> Eval(e.args[j], ctx).error.IndexOutOfRange? || Eval(e.args[j], ctx).error.NotModelled?
    ensures Validator.StaticType(e) != TUnknown
    ensures Eval(e, ctx).Failure? ==> Eval(e, ctx).error.IndexOutOfRange? || Eval(e, ctx).error.NotModelled?
  {
    var f := FromName(e.name).value;
    FromNameSelectsExactly(e.name, f);
    PropertyInEveryUnion(f);
    var p := Sig(f).params;
    var r := EvalArgsFrom(e, ctx, 0);
    if r.Failure? {
      EvalArgsFromFailure(e, ctx, 0);
    } else {
      var vals := r.value;
      forall j | 0 <= j < |vals| ensures TypeOf(vals[j]) == ExpectedAt(p, j) {
        assert Eval(e.args[0 + j], ctx) == Success(vals[j]);
        EvalResultType(e.args[j], ctx);
      }
      ApplyConforming(f, vals, ctx);
      ComputeFailures(f, vals, ctx);
    }
  }

  /** On conforming values, application is the entry's semantics. */
  lemma ApplyConforming(f: Fn, vals: seq<Value>, ctx: Context)
    requires Conforms(f, vals)
    ensures Apply(f, vals, ctx) == Compute(f, vals, ctx)
  {
  }

  /** Apart from `property`, the semantics fail only on an index out of range
      or on an entry this model does not cover. */
  lemma ComputeFailures(f: Fn, vals: seq<Value>, ctx: Context)
    requires Conforms(f, vals) && f != Property
    ensures Compute(f, vals, ctx).Failure? ==>
      Compute(f, vals, ctx).error.IndexOutOfRange? || Compute(f, vals, ctx).error.NotModelled?
  {
  }

  /** A failed argument list failed because one of its arguments did. */
  lemma {:induction false} EvalArgsFromFailure(e: Expr, ctx: Context, i: nat)
    requires e.Call? && i <= |e.args|
    requires EvalArgsFrom(e, ctx, i).Failure?
    ensures exists j | i <= j < |e.args| :: Eval(e.args[j], ctx) == Failure(EvalArgsFrom(e, ctx, i).error)
    decreases |e.args| - i
  {
    if Eval(e.args[i], ctx).Success? {
      EvalArgsFromFailure(e, ctx, i + 1);
    }
  }

  /** Evaluation fails with the failure of the leftmost failing argument. */
  lemma EvalReportsLeftmostFailure(e: Expr, ctx: Context, k: nat)
    requires e.Call? && FromName(e.name).Some?
    requires k < |e.args|
    requires forall j | 0 <= j < k :: Eval(e.args[j], ctx).Success?
    requires Eval(e.args[k], ctx).Failure?
    ensures Eval(e, ctx) == Eval(e.args[k], ctx)
  {
    EvalArgsFromSkips(e, ctx, 0, k);
  }

  lemma {:induction false} EvalArgsFromSkips(e: Expr, ctx: Context, i: nat, k: nat)
    requires e.Call? && i <= k < |e.args|
    requires forall j | i <= j < k :: Eval(e.args[j], ctx).Success?
    requires Eval(e.args[k], ctx).Failure?
    ensures EvalArgsFrom(e, ctx, i) == Failure(Eval(e.args[k], ctx).error)
    decreases k - i
  {
    if i < k {
      EvalArgsFromSkips(e, ctx, i + 1, k);
      assert Eval(e.args[i], ctx).Success?;
    }
  }

  /** `property(a)` yields the attribute's value, or fails naming the missing attribute. */
  lemma EvalProperty(attribute: string, ctx: Context)
    ensures Eval(PropertyRef(attribute), ctx)
      == if attribute in ctx then Success(ctx[attribute]) else Failure(MissingProperty(attribute))
  {
    assert PropertyRef(attribute) == Call(NameOf(Property), Literals([Str(attribute)]));
    EvalOnLiterals(Property, [Str(attribute)], ctx);
  }

  /** `between(v, lo, hi)` is `lo <= v <= hi`, inclusive at both ends, with the
      compared value first. */
  lemma EvalBetween(v: real, lo: real, hi: real, ctx: Context)
    ensures Eval(Call(NameOf(Between), Literals([Num(v), Num(lo), Num(hi)])), ctx)
      == Success(Bool(lo <= v && v <= hi))
  {
    EvalOnLiterals(Between, [Num(v), Num(lo), Num(hi)], ctx);
  }

  /** `double2bool(x)` is true exactly for zero. */
  lemma EvalDouble2bool(x: real, ctx: Context)
    ensures Eval(Call(NameOf(Double2bool), Literals([Num(x)])), ctx) == Success(Bool(x == 0.0))
  {
    EvalOnLiterals(Double2bool, [Num(x)], ctx);
  }

  /** `parseBoolean(s)` is false exactly for "", "f", "0.0" and "0". */
  lemma EvalParseBoolean(s: string, ctx: Context)
    ensures Eval(Call(NameOf(ParseBoolean), Literals([Str(s)])), ctx)
      == Success(Bool(!(s in {"", "f", "0.0", "0"})))
  {
    EvalOnLiterals(ParseBoolean, [Str(s)], ctx);
  }

  /** `in(x, c1, …, cn)` is true exactly when some `ci` equals `x`. */
  lemma EvalIn(xs: seq<string>, ctx: Context)
    ensures var vals := seq(|xs|, i requires 0 <= i < |xs| => Str(xs[i]));
      Eval(Call(NameOf(In), Literals(vals)), ctx)
        == Success(Bool(exists j :: 1 <= j < |xs| && xs[j] == xs[0]))
  {
    var vals := seq(|xs|, i requires 0 <= i < |xs| => Str(xs[i]));
    EvalOnLiterals(In, vals, ctx);
    assert Strings(vals) == xs;
    SF.InIff(xs);
  }

  /** `strConcat(s0, …, sn)` joins its arguments in order, keeping every character. */
  lemma EvalConcat(xs: seq<string>, ctx: Context)
    ensures var vals := seq(|xs|, i requires 0 <= i < |xs| => Str(xs[i]));
      var r := Eval(Call(NameOf(StrConcat), Literals(vals)), ctx);
      && r.Success? && r.value.Str?
      && r.value.s == SF.Concat(xs)
      && |r.value.s| == SF.TotalLength(xs)
      && (|xs| == 2 ==> r.value.s == xs[0] + xs[1])
  {
    var vals := seq(|xs|, i requires 0 <= i < |xs| => Str(xs[i]));
    EvalOnLiterals(StrConcat, vals, ctx);
    assert Strings(vals) == xs;
    SF.ConcatLength(xs);
  }

  /** `strIndexOf(s, t)` yields -1 exactly when `t` does not occur in `s`,
      and otherwise the first index at which it occurs. */
  lemma EvalIndexOf(s: string, t: string, ctx: Context)
    ensures var r := Eval(Call(NameOf(StrIndexOf), Literals([Str(s), Str(t)])), ctx);
      && r.Success? && r.value.Num?
      && (r.value.n == -1.0 <==> forall i :: !SF.OccursAt(s, t, i))
      && (r.value.n != -1.0 ==> exists i :: i as real == r.value.n && SF.OccursAt(s, t, i)
                                  && forall j :: 0 <= j < i ==> !SF.OccursAt(s, t, j))
  {
    EvalOnLiterals(StrIndexOf, [Str(s), Str(t)], ctx);
    var i := SF.IndexOf(s, t);
    assert i as real == -1.0 <==> i == -1;
  }

  /** `strLastIndexOf(s, t)` yields -1 exactly when `t` does not occur in `s`,
      and otherwise the last index at which it occurs. */
  lemma EvalLastIndexOf(s: string, t: string, ctx: Context)
    ensures var r := Eval(Call(NameOf(StrLastIndexOf), Literals([Str(s), Str(t)])), ctx);
      && r.Success? && r.value.Num?
      && (r.value.n == -1.0 <==> forall i :: !SF.OccursAt(s, t, i))
      && (r.value.n != -1.0 ==> exists i :: i as real == r.value.n && SF.OccursAt(s, t, i)
                                  && forall j :: i < j ==> !SF.OccursAt(s, t, j))
  {
    EvalOnLiterals(StrLastIndexOf, [Str(s), Str(t)], ctx);
    var l := SF.LastIndexOf(s, t);
    assert l as real == -1.0 <==> l == -1;
  }

  /** `strSubstring(s, b, e)` yields the `e - b` characters of `s` from index `b`
      on, and fails with an index error unless 0 <= b <= e <= |s|. */
  lemma EvalSubstring(s: string, b: int, e: int, ctx: Context)
    ensures var r := Eval(Call(NameOf(StrSubstring), Literals([Str(s), Num(b as real), Num(e as real)])), ctx);
      && (r.Success? <==> 0 <= b <= e <= |s|)
      && (r.Failure? ==> r.error == IndexOutOfRange("strSubstring"))
      && (r.Success? ==>
            r.value.Str? && |r.value.s| == e - b && forall k :: 0 <= k < e - b ==> r.value.s[k] == s[b + k])
  {
    EvalOnLiterals(StrSubstring, [Str(s), Num(b as real), Num(e as real)], ctx);
    assert AsIndex(b as real) == Some(b);
    assert AsIndex(e as real) == Some(e);
  }

  /** `strSubstringStart(s, b)` is `strSubstring(s, b, |s|)`: the same string
      when in range, and otherwise the same failure. */
  lemma EvalSubstringStart(s: string, b: int, ctx: Context)
    ensures var start := Eval(Call(NameOf(StrSubstringStart), Literals([Str(s), Num(b as real)])), ctx);
      var sub := Eval(Call(NameOf(StrSubstring), Literals([Str(s), Num(b as real), Num(|s| as real)])), ctx);
      && (start.Success? <==> sub.Success?)
      && (start.Success? ==> start == sub)
      && (start.Failure? ==> start.error == IndexOutOfRange("strSubstringStart") && sub.error.IndexOutOfRange?)
  {
    var short, long := [Str(s), Num(b as real)], [Str(s), Num(b as real), Num(|s| as real)];
    EvalOnLiterals(StrSubstringStart, short, ctx);
    EvalOnLiterals(StrSubstring, long, ctx);
    ComputeSubstringStart(s, b, ctx);
    ApplyConforming(StrSubstringStart, short, ctx);
    ApplyConforming(StrSubstring, long, ctx);
  }

  lemma ComputeSubstringStart(s: string, b: int, ctx: Context)
    ensures Conforms(StrSubstringStart, [Str(s), Num(b as real)])
    ensures Conforms(StrSubstring, [Str(s), Num(b as real), Num(|s| as real)])
    ensures var start := Compute(StrSubstringStart, [Str(s), Num(b as real)], ctx);
      var sub := Compute(StrSubstring, [Str(s), Num(b as real), Num(|s| as real)], ctx);
      && (start.Success? <==> sub.Success?)
      && (start.Success? ==> start == sub)
      && (start.Failure? ==> start.error == IndexOutOfRange("strSubstringStart") && sub.error.IndexOutOfRange?)
  {
    assert AsIndex(b as real) == Some(b);
    assert AsIndex(|s| as real) == Some(|s|);
    SF.SubstringStartIsSubstringToEnd(s, b);
  }

  /** An index that is not a whole number is out of range. */
  lemma EvalSubstringFractional(s: string, x: real, y: real, ctx: Context)
    requires x != x.Floor as real
    ensures Eval(Call(NameOf(StrSubstring), Literals([Str(s), Num(x), Num(y)])), ctx)
         == Failure(IndexOutOfRange("strSubstring"))
  {
    EvalOnLiterals(StrSubstring, [Str(s), Num(x), Num(y)], ctx);
  }

  /** Examples: "hello" from 1 to 3 is "el", and a begin index
      after the end index is out of range. */
  lemma SubstringExamples(ctx: Context)
    ensures Eval(Call(NameOf(StrSubstring), Literals([Str("hello"), Num(1.0), Num(3.0)])), ctx) == Success(Str("el"))
    ensures Eval(Call(NameOf(StrSubstring), Literals([Str("hello"), Num(3.0), Num(1.0)])), ctx)
         == Failure(IndexOutOfRange("strSubstring"))
  {
    EvalSubstring("hello", 1, 3, ctx);
    EvalSubstring("hello", 3, 1, ctx);
    var r := Eval(Call(NameOf(StrSubstring), Literals([Str("hello"), Num(1.0), Num(3.0)])), ctx);
    assert r.value.s == "el";
  }

  /** `between(property(a), lo, hi)`: the attribute's number compared with the
      closed interval; a missing attribute, or one that is not a number, fails
      and says why. */
  lemma EvalBetweenOfProperty(attribute: string, lo: real, hi: real, ctx: Context)
    ensures var r := Eval(Call(NameOf(Between), [PropertyRef(attribute), Literal(Num(lo)), Literal(Num(hi))]), ctx);
      r == if attribute !in ctx then Failure(MissingProperty(attribute))
           else if !ctx[attribute].Num? then Failure(RuntimeTypeMismatch("between", 0, TNumber, TypeOf(ctx[attribute])))
           else Success(Bool(lo <= ctx[attribute].n <= hi))
  {
    NameRoundTrip(Between);
    var e := Call(NameOf(Between), [PropertyRef(attribute), Literal(Num(lo)), Literal(Num(hi))]);
    EvalProperty(attribute, ctx);
    if attribute in ctx {
      var vals := [ctx[attribute], Num(lo), Num(hi)];
      assert Eval(e.args[0], ctx) == Success(ctx[attribute]);
      ArgsEvaluate(e, vals, ctx, 0);
      assert vals[0..] == vals;
    } else {
      EvalReportsLeftmostFailure(e, ctx, 0);
    }
  }
}
