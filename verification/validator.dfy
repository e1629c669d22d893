/** Static checking of call trees against the catalogue: what the TypeScript
    compiler enforces on the `F*` shapes. A call is well typed when its name is
    a catalogue name, its argument count fits the entry's shape, every argument
    has the type its position expects (a value of unknown type, such as a
    `property` call, fits any position), and every argument is itself well typed. */
module Validator {
  import opened Types
  import opened Catalog

  /** The type an expression has without evaluating it. An unknown name has no
      signature; its type is unknown (such a call is rejected anyway). */
  function StaticType(e: Expr): Type {
    match e
    case Literal(v) => TypeOf(v)
    case Call(name, _) =>
      match FromName(name)
      case Some(f) => Sig(f).result
      case None => TUnknown
  }

  /** An argument of static type `actual` may stand where `expected` is required. */
  predicate Fits(expected: Type, actual: Type) {
    actual == TUnknown || actual == expected
  }

  /** The validity rule, stated as a predicate over the whole tree. */
  predicate WellTyped(e: Expr) {
    match e
    case Literal(_) => true
    case Call(name, args) =>
      && FromName(name).Some?
      && ArityFits(Sig(FromName(name).value).params, |args|)
      && forall i | 0 <= i < |args| ::
           && Fits(ExpectedAt(Sig(FromName(name).value).params, i), StaticType(args[i]))
           && WellTyped(args[i])
  }

  /** Why a call tree is rejected. */
  datatype ValidationError =
    | UnknownFunction(name: string)
    | ArityMismatch(name: string, count: nat)
    | TypeMismatch(name: string, position: nat, expected: Type, actual: Type)

  /** Checks a call tree and reports the first error met when the tree is
      walked depth first, left to right: a call's name, then its argument
      count, then for each argument in turn its type and then its own subtree. */
  function Check(e: Expr): Option<ValidationError>
    decreases e, if e.Call? then |e.args| + 1 else 0
  {
    match e
    case Literal(_) => None
    case Call(name, args) =>
      match FromName(name)
      case None => Some(UnknownFunction(name))
      case Some(f) =>
        if !ArityFits(Sig(f).params, |args|) then Some(ArityMismatch(name, |args|))
        else CheckArgsFrom(e, 0)
  }

  /** Checks the arguments of `e` from position `i` on. */
  function CheckArgsFrom(e: Expr, i: nat): Option<ValidationError>
    requires e.Call? && FromName(e.name).Some?
    requires ArityFits(Sig(FromName(e.name).value).params, |e.args|)
    requires i <= |e.args|
    decreases e, |e.args| - i
  {
    if i == |e.args| then None
    else
      var expected := ExpectedAt(Sig(FromName(e.name).value).params, i);
      var actual := StaticType(e.args[i]);
      if !Fits(expected, actual) then Some(TypeMismatch(e.name, i, expected, actual))
      else match Check(e.args[i])
        case Some(err) => Some(err)
        case None => CheckArgsFrom(e, i + 1)
  }

  /** The checker reports no error exactly when the tree is well typed. */
  lemma {:induction false} CheckIffWellTyped(e: Expr)
    ensures Check(e).None? <==> WellTyped(e)
    decreases e, if e.Call? then |e.args| + 1 else 0
  {
    match e
    case Literal(_) =>
    case Call(name, args) =>
      if FromName(name).Some? && ArityFits(Sig(FromName(name).value).params, |args|) {
        CheckArgsFromIff(e, 0);
      }
  }

  lemma {:induction false} CheckArgsFromIff(e: Expr, i: nat)
    requires e.Call? && FromName(e.name).Some?
    requires ArityFits(Sig(FromName(e.name).value).params, |e.args|)
    requires i <= |e.args|
    ensures CheckArgsFrom(e, i).None? <==>
      forall j | i <= j < |e.args| ::
        && Fits(ExpectedAt(Sig(FromName(e.name).value).params, j), StaticType(e.args[j]))
        && WellTyped(e.args[j])
    decreases e, |e.args| - i
  {
    if i < |e.args| {
      CheckIffWellTyped(e.args[i]);
      CheckArgsFromIff(e, i + 1);
    }
  }

  /** Errors are reported left to right: when every argument before position
      `k` fits and checks, the error reported for the call is the one at `k`. */
  lemma CheckReportsLeftmost(e: Expr, k: nat)
    requires e.Call? && FromName(e.name).Some?
    requires ArityFits(Sig(FromName(e.name).value).params, |e.args|)
    requires k < |e.args|
    requires forall j | 0 <= j < k ::
      Fits(ExpectedAt(Sig(FromName(e.name).value).params, j), StaticType(e.args[j])) && Check(e.args[j]).None?
    ensures var expected := ExpectedAt(Sig(FromName(e.name).value).params, k);
      Check(e) == if !Fits(expected, StaticType(e.args[k]))
                  then Some(TypeMismatch(e.name, k, expected, StaticType(e.args[k])))
                  else if Check(e.args[k]).Some? then Check(e.args[k])
                  else CheckArgsFrom(e, k + 1)
  {
    CheckArgsFromSkips(e, 0, k);
  }

  lemma {:induction false} CheckArgsFromSkips(e: Expr, i: nat, k: nat)
    requires e.Call? && FromName(e.name).Some?
    requires ArityFits(Sig(FromName(e.name).value).params, |e.args|)
    requires i <= k <= |e.args|
    requires forall j | i <= j < k ::
      Fits(ExpectedAt(Sig(FromName(e.name).value).params, j), StaticType(e.args[j])) && Check(e.args[j]).None?
    ensures CheckArgsFrom(e, i) == CheckArgsFrom(e, k)
    decreases k - i
  {
    if i < k {
      CheckArgsFromSkips(e, i + 1, k);
    }
  }

  /** A call whose name is no entry's name is rejected, and that is the error reported. */
  lemma UnknownNameRejected(name: string, args: seq<Expr>)
    requires forall f :: NameOf(f) != name
    ensures !WellTyped(Call(name, args))
    ensures Check(Call(name, args)) == Some(UnknownFunction(name))
  {
    if FromName(name).Some? {
      FromNameSelectsExactly(name, FromName(name).value);
    }
  }

  /** The argument counts an accepted call can have: the tuple length for a
      fixed shape (1 for `abs`, 3 for `between`, `numberFormat` and
      `strSubstring`, 4 for `strReplace` and `strAbbreviate`) and none for `pi`
      and `random`. */
  lemma AcceptedArity(f: Fn, args: seq<Expr>)
    requires WellTyped(Call(NameOf(f), args))
    ensures Sig(f).params.Fixed? ==> |args| == |Sig(f).params.types|
    ensures f == Abs ==> |args| == 1
    ensures f in {Between, NumberFormat, StrSubstring} ==> |args| == 3
    ensures f in {StrReplace, StrAbbreviate} ==> |args| == 4
    ensures f in {Pi, Random} ==> |args| == 0
  {
    NameRoundTrip(f);
  }

  /** A literal of (known) type `t`; for the unknown type, a property read. */
  function Sample(t: Type): (e: Expr)
    ensures t != TUnknown ==> e.Literal?
  {
    match t
    case TNumber => Literal(Num(0.0))
    case TString => Literal(Str(""))
    case TBoolean => Literal(Bool(false))
    case TUnknown => PropertyRef("")
  }

  /** A literal whose known type is not `t`. */
  function Mistyped(t: Type): (e: Expr)
    ensures e.Literal? && TypeOf(e.value) != t
  {
    if t == TNumber then Literal(Str("")) else Literal(Num(0.0))
  }

  /** The argument list a call of shape `p` documents, with `count` arguments
      when the shape is unbounded. */
  function SampleArgs(p: Params, count: nat): (args: seq<Expr>)
    ensures ArityFits(p, |args|)
    ensures p.Variadic? ==> |args| == count
  {
    match p
    case Fixed(ts) => seq(|ts|, i requires 0 <= i < |ts| => Sample(ts[i]))
    case Variadic(t) => seq(count, _ => Sample(t))
    case NoArgs => []
  }

  /** Every entry accepts a call with its documented shape (any count, for an
      unbounded one) and rejects a fixed-shape call with one argument too many
      or too few. */
  lemma DocumentedShapeAccepted(f: Fn, count: nat)
    ensures WellTyped(Call(NameOf(f), SampleArgs(Sig(f).params, count)))
    ensures !Sig(f).params.Variadic? ==>
      var args := SampleArgs(Sig(f).params, count) + [Sample(TNumber)];
      Check(Call(NameOf(f), args)) == Some(ArityMismatch(NameOf(f), |args|))
    ensures Sig(f).params.Fixed? && |Sig(f).params.types| > 0 ==>
      var args := SampleArgs(Sig(f).params, count)[1..];
      Check(Call(NameOf(f), args)) == Some(ArityMismatch(NameOf(f), |args|))
  {
    NameRoundTrip(f);
    var p := Sig(f).params;
    var args := SampleArgs(p, count);
    forall i | 0 <= i < |args|
      ensures StaticType(args[i]) == ExpectedAt(p, i) && WellTyped(args[i])
    {
      NoUnknownParameter(f, i);
    }
  }

  /** Replacing argument `i` of a documented call by a literal of another type
      is reported as a type mismatch at position `i`. */
  lemma WrongTypeRejected(f: Fn, count: nat, i: nat)
    requires i < |SampleArgs(Sig(f).params, count)|
    ensures var p := Sig(f).params;
      var args := SampleArgs(p, count);
      var bad := Mistyped(ExpectedAt(p, i));
      Check(Call(NameOf(f), args[i := bad]))
        == Some(TypeMismatch(NameOf(f), i, ExpectedAt(p, i), TypeOf(bad.value)))
  {
    NameRoundTrip(f);
    var p := Sig(f).params;
    var args := SampleArgs(p, count);
    var bad := Mistyped(ExpectedAt(p, i));
    var e := Call(NameOf(f), args[i := bad]);
    forall j | 0 <= j < i
      ensures Fits(ExpectedAt(p, j), StaticType(e.args[j])) && Check(e.args[j]).None?
    {
      NoUnknownParameter(f, j);
    }
    CheckReportsLeftmost(e, i);
  }

  /** A `property` read is accepted at every argument position of every call:
      `property` belongs to the number, string and boolean unions alike. */
  lemma PropertyAcceptedAnywhere(name: string, args: seq<Expr>, i: nat, attribute: string)
    requires WellTyped(Call(name, args))
    requires i < |args|
    ensures WellTyped(Call(name, args[i := PropertyRef(attribute)]))
  {
    NameRoundTrip(Property);
    var p := PropertyRef(attribute);
    assert StaticType(p) == TUnknown;
    assert WellTyped(p.args[0]);
  }

  /** Arguments of a known wrong type are rejected: a string index in
      `strSubstring`, a string as the `global` flag of `strReplace`, a number
      among the strings of `in`. */
  lemma MismatchExamples()
    ensures !WellTyped(Call(NameOf(StrSubstring), [Literal(Str("abc")), Literal(Str("1")), Literal(Num(2.0))]))
    ensures !WellTyped(Call(NameOf(StrSubstring), [Literal(Str("abc")), Literal(Num(1.0)), Literal(Str("2"))]))
    ensures !WellTyped(Call(NameOf(StrReplace),
      [Literal(Str("abc")), Literal(Str("b")), Literal(Str("c")), Literal(Str("true"))]))
    ensures !WellTyped(Call(NameOf(In), [Literal(Str("a")), Literal(Num(1.0))]))
  {
    RejectedAt(StrSubstring, [Literal(Str("abc")), Literal(Str("1")), Literal(Num(2.0))], 1);
    RejectedAt(StrSubstring, [Literal(Str("abc")), Literal(Num(1.0)), Literal(Str("2"))], 2);
    RejectedAt(StrReplace, [Literal(Str("abc")), Literal(Str("b")), Literal(Str("c")), Literal(Str("true"))], 3);
    RejectedAt(In, [Literal(Str("a")), Literal(Num(1.0))], 1);
  }

  /** A call with a known-typed argument of the wrong type is rejected. */
  lemma RejectedAt(f: Fn, args: seq<Expr>, i: nat)
    requires ArityFits(Sig(f).params, |args|) && i < |args|
    requires StaticType(args[i]) != TUnknown
    requires StaticType(args[i]) != ExpectedAt(Sig(f).params, i)
    ensures !WellTyped(Call(NameOf(f), args))
  {
    NameRoundTrip(f);
  }
}
