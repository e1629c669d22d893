/** Values, static types and the expression tree that function calls live in.

    The expression type of the styling language is defined in a module that is
    not part of this model; `Expr` is a minimal stand-in for it: an expression is
    either a literal constant or a named function call over sub-expressions.
    A reference to a feature attribute is the catalogue function `property`. */
module Types {

  /** The static types a function argument or result can have. `TUnknown` is the
      result type of `property`, whose value is only known at run time. */
  datatype Type = TNumber | TString | TBoolean | TUnknown

  /** Runtime values. Numbers are modelled as mathematical reals. */
  datatype Value = Num(n: real) | Str(s: string) | Bool(b: bool)

  /** The (always known) type of a runtime value. */
  function TypeOf(v: Value): (t: Type)
    ensures t != TUnknown
    ensures t == TNumber <==> v.Num?
    ensures t == TString <==> v.Str?
    ensures t == TBoolean <==> v.Bool?
  {
    match v
    case Num(_) => TNumber
    case Str(_) => TString
    case Bool(_) => TBoolean
  }

  /** An expression: a constant, or a call of a catalogue function by name. */
  datatype Expr = Literal(value: Value) | Call(name: string, args: seq<Expr>)

  /** `property(name)`: reads the feature attribute `name`. */
  function PropertyRef(attribute: string): (e: Expr)
    ensures e.Call? && e.name == "property" && |e.args| == 1
  {
    Call("property", [Literal(Str(attribute))])
  }

  datatype Option<+T> = None | Some(value: T)

  datatype Result<+R, +E> = Success(value: R) | Failure(error: E)
}
