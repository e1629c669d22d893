/** The closed catalogue of the 47 function-call shapes of the styling language.

    Each shape fixes a literal name, an argument shape (a fixed tuple, an
    unbounded array of one element type, or no argument list at all) and a
    result type. The four unions of the source group the shapes by result type;
    `property` (result unknown) belongs to every one of them. */
module Catalog {
  import opened Types

  /** One constructor per catalogue entry, in the order the source declares them. */
  datatype Fn =
    | Abs | Acos | Asin | Atan | Atan2 | Between | Ceil | Cos | Double2bool
    | Exp | Floor | In | Log | Max | Min | Modulo | NumberFormat
    | ParseBoolean | Pi | Pow | Property | Random | Rint | Round | Sin | Sqrt
    | StrAbbreviate | StrCapitalize | StrConcat | StrDefaultIfBlank
    | StrEndsWith | StrEqualsIgnoreCase | StrIndexOf | StrLastIndexOf
    | StrLength | StrMatches | StrReplace | StrStartsWith | StrStripAccents
    | StrSubstring | StrSubstringStart | StrToLowerCase | StrToUpperCase
    | StrTrim | Tan | ToDegrees | ToRadians

  /** The literal `name` each shape fixes. */
  function NameOf(f: Fn): string {
    match f
    case Abs => "abs"
    case Acos => "acos"
    case Asin => "asin"
    case Atan => "atan"
    case Atan2 => "atan2"
    case Between => "between"
    case Ceil => "ceil"
    case Cos => "cos"
    case Double2bool => "double2bool"
    case Exp => "exp"
    case Floor => "floor"
    case In => "in"
    case Log => "log"
    case Max => "max"
    case Min => "min"
    case Modulo => "modulo"
    case NumberFormat => "numberFormat"
    case ParseBoolean => "parseBoolean"
    case Pi => "pi"
    case Pow => "pow"
    case Property => "property"
    case Random => "random"
    case Rint => "rint"
    case Round => "round"
    case Sin => "sin"
    case Sqrt => "sqrt"
    case StrAbbreviate => "strAbbreviate"
    case StrCapitalize => "strCapitalize"
    case StrConcat => "strConcat"
    case StrDefaultIfBlank => "strDefaultIfBlank"
    case StrEndsWith => "strEndsWith"
    case StrEqualsIgnoreCase => "strEqualsIgnoreCase"
    case StrIndexOf => "strIndexOf"
    case StrLastIndexOf => "strLastIndexOf"
    case StrLength => "strLength"
    case StrMatches => "strMatches"
    case StrReplace => "strReplace"
    case StrStartsWith => "strStartsWith"
    case StrStripAccents => "strStripAccents"
    case StrSubstring => "strSubstring"
    case StrSubstringStart => "strSubstringStart"
    case StrToLowerCase => "strToLowerCase"
    case StrToUpperCase => "strToUpperCase"
    case StrTrim => "strTrim"
    case Tan => "tan"
    case ToDegrees => "toDegrees"
    case ToRadians => "toRadians"
  }

  /** The entry whose literal name is `name`, if the catalogue has one. The
      table's answer is confirmed against `NameOf`, so that a name can only
      ever select the entry it spells. */
  function FromName(name: string): Option<Fn> {
    match NameTable(name)
    case Some(f) => if NameOf(f) == name then Some(f) else None
    case None => None
  }

  /** The name-keyed dispatch table behind `FromName`. */
  function NameTable(name: string): Option<Fn> {
    match name
    case "abs" => Some(Abs)
    case "acos" => Some(Acos)
    case "asin" => Some(Asin)
    case "atan" => Some(Atan)
    case "atan2" => Some(Atan2)
    case "between" => Some(Between)
    case "ceil" => Some(Ceil)
    case "cos" => Some(Cos)
    case "double2bool" => Some(Double2bool)
    case "exp" => Some(Exp)
    case "floor" => Some(Floor)
    case "in" => Some(In)
    case "log" => Some(Log)
    case "max" => Some(Max)
    case "min" => Some(Min)
    case "modulo" => Some(Modulo)
    case "numberFormat" => Some(NumberFormat)
    case "parseBoolean" => Some(ParseBoolean)
    case "pi" => Some(Pi)
    case "pow" => Some(Pow)
    case "property" => Some(Property)
    case "random" => Some(Random)
    case "rint" => Some(Rint)
    case "round" => Some(Round)
    case "sin" => Some(Sin)
    case "sqrt" => Some(Sqrt)
    case "strAbbreviate" => Some(StrAbbreviate)
    case "strCapitalize" => Some(StrCapitalize)
    case "strConcat" => Some(StrConcat)
    case "strDefaultIfBlank" => Some(StrDefaultIfBlank)
    case "strEndsWith" => Some(StrEndsWith)
    case "strEqualsIgnoreCase" => Some(StrEqualsIgnoreCase)
    case "strIndexOf" => Some(StrIndexOf)
    case "strLastIndexOf" => Some(StrLastIndexOf)
    case "strLength" => Some(StrLength)
    case "strMatches" => Some(StrMatches)
    case "strReplace" => Some(StrReplace)
    case "strStartsWith" => Some(StrStartsWith)
    case "strStripAccents" => Some(StrStripAccents)
    case "strSubstring" => Some(StrSubstring)
    case "strSubstringStart" => Some(StrSubstringStart)
    case "strToLowerCase" => Some(StrToLowerCase)
    case "strToUpperCase" => Some(StrToUpperCase)
    case "strTrim" => Some(StrTrim)
    case "tan" => Some(Tan)
    case "toDegrees" => Some(ToDegrees)
    case "toRadians" => Some(ToRadians)
    case _ => None
  }

  /** The argument shape of a catalogue entry. */
  datatype Params =
    | Fixed(types: seq<Type>)   // a tuple: exact arity, one type per position
    | Variadic(element: Type)   // an unbounded array: any count, one element type
    | NoArgs                    // no `args` field: the call takes no arguments

  datatype Signature = Signature(params: Params, result: Type)

  const N: seq<Type> := [TNumber]
  const NN: seq<Type> := [TNumber, TNumber]
  const S: seq<Type> := [TString]
  const SS: seq<Type> := [TString, TString]

  /** The argument shape and the `FunctionCall<T>` result type of each entry. */
  function Sig(f: Fn): Signature {
    match f
    case Abs => Signature(Fixed(N), TNumber)
    case Acos => Signature(Fixed(N), TNumber)
    case Asin => Signature(Fixed(N), TNumber)
    case Atan => Signature(Fixed(N), TNumber)
    case Atan2 => Signature(Fixed(NN), TNumber)
    case Between => Signature(Fixed([TNumber, TNumber, TNumber]), TBoolean)
    case Ceil => Signature(Fixed(N), TNumber)
    case Cos => Signature(Fixed(N), TNumber)
    case Double2bool => Signature(Fixed(N), TBoolean)
    case Exp => Signature(Fixed(N), TNumber)
    case Floor => Signature(Fixed(N), TNumber)
    case In => Signature(Variadic(TString), TBoolean)
    case Log => Signature(Fixed(N), TNumber)
    case Max => Signature(Variadic(TNumber), TNumber)
    case Min => Signature(Variadic(TNumber), TNumber)
    case Modulo => Signature(Fixed(NN), TNumber)
    case NumberFormat => Signature(Fixed([TString, TNumber, TString]), TString)
    case ParseBoolean => Signature(Fixed(S), TBoolean)
    case Pi => Signature(NoArgs, TNumber)
    case Pow => Signature(Fixed(NN), TNumber)
    case Property => Signature(Fixed(S), TUnknown)
    case Random => Signature(NoArgs, TNumber)
    case Rint => Signature(Fixed(N), TNumber)
    case Round => Signature(Fixed(N), TNumber)
    case Sin => Signature(Fixed(N), TNumber)
    case Sqrt => Signature(Fixed(N), TNumber)
    case StrAbbreviate => Signature(Fixed([TString, TNumber, TNumber, TString]), TString)
    case StrCapitalize => Signature(Fixed(S), TString)
    case StrConcat => Signature(Variadic(TString), TString)
    case StrDefaultIfBlank => Signature(Fixed(SS), TString)
    case StrEndsWith => Signature(Fixed(SS), TBoolean)
    case StrEqualsIgnoreCase => Signature(Fixed(SS), TBoolean)
    case StrIndexOf => Signature(Fixed(SS), TNumber)
    case StrLastIndexOf => Signature(Fixed(SS), TNumber)
    case StrLength => Signature(Fixed(S), TNumber)
    case StrMatches => Signature(Fixed(SS), TBoolean)
    case StrReplace => Signature(Fixed([TString, TString, TString, TBoolean]), TString)
    case StrStartsWith => Signature(Fixed(SS), TBoolean)
    case StrStripAccents => Signature(Fixed(S), TString)
    case StrSubstring => Signature(Fixed([TString, TNumber, TNumber]), TString)
    case StrSubstringStart => Signature(Fixed([TString, TNumber]), TString)
    case StrToLowerCase => Signature(Fixed(S), TString)
    case StrToUpperCase => Signature(Fixed(S), TString)
    case StrTrim => Signature(Fixed(S), TString)
    case Tan => Signature(Fixed(N), TNumber)
    case ToDegrees => Signature(Fixed(N), TNumber)
    case ToRadians => Signature(Fixed(N), TNumber)
  }

  /** The catalogue keyed by name. */
  function Lookup(name: string): Option<Signature> {
    match FromName(name)
    case Some(f) => Some(Sig(f))
    case None => None
  }

  /** Membership in `GeoStylerUnknownFunction`. */
  predicate InUnknownUnion(f: Fn) {
    f == Property
  }

  /** Membership in `GeoStylerNumberFunction`, which includes the unknown union. */
  predicate InNumberUnion(f: Fn) {
    match f
    case Abs | Acos | Asin | Atan | Atan2 | Ceil | Cos | Exp | Floor | Log
      | Max | Min | Modulo | Pi | Pow | Random | Rint | Round | Sin | Sqrt
      | StrIndexOf | StrLastIndexOf | StrLength | Tan | ToDegrees | ToRadians => true
    case _ => InUnknownUnion(f)
  }

  /** Membership in `GeoStylerStringFunction`, which includes the unknown union. */
  predicate InStringUnion(f: Fn) {
    match f
    case NumberFormat | StrAbbreviate | StrCapitalize | StrConcat
      | StrDefaultIfBlank | StrReplace | StrStripAccents | StrSubstring
      | StrSubstringStart | StrToLowerCase | StrToUpperCase | StrTrim => true
    case _ => InUnknownUnion(f)
  }

  /** Membership in `GeoStylerBooleanFunction`, which includes the unknown union. */
  predicate InBooleanUnion(f: Fn) {
    match f
    case Between | Double2bool | In | ParseBoolean | StrEndsWith
      | StrEqualsIgnoreCase | StrMatches | StrStartsWith => true
    case _ => InUnknownUnion(f)
  }

  /** `GeoStylerFunction`: the union of the four unions. */
  predicate InAnyUnion(f: Fn) {
    InNumberUnion(f) || InStringUnion(f) || InBooleanUnion(f) || InUnknownUnion(f)
  }


  /** How many arguments a parameter shape admits. */
  predicate ArityFits(p: Params, count: nat) {
    match p
    case Fixed(ts) => count == |ts|
    case Variadic(_) => true
    case NoArgs => count == 0
  }

  /** The type expected at argument position `i` of a shape that admits more than `i` arguments. */
  function ExpectedAt(p: Params, i: nat): Type
    requires !p.NoArgs?
    requires p.Fixed? ==> i < |p.types|
  {
    match p
    case Fixed(ts) => ts[i]
    case Variadic(t) => t
  }

  /** Reading an entry's name back selects the same entry. */
  lemma NameRoundTrip(f: Fn)
    ensures FromName(NameOf(f)) == Some(f)
  {
    NameTableComplete(f);
  }

  /** The table holds a row for every entry, keyed by the entry's own name. */
  lemma NameTableComplete(f: Fn)
    ensures NameTable(NameOf(f)) == Some(f)
  {
    if f == Abs || f == Acos || f == Asin || f == Atan || f == Atan2 || f == Between {
      NameTableRows0(f);
    } else if f == Ceil || f == Cos || f == Double2bool || f == Exp || f == Floor ||
        f == In {
      NameTableRows1(f);
    } else if f == Log || f == Max || f == Min || f == Modulo || f == NumberFormat ||
        f == ParseBoolean {
      NameTableRows2(f);
    } else if f == Pi || f == Pow || f == Property || f == Random || f == Rint ||
        f == Round {
      NameTableRows3(f);
    } else if f == Sin || f == Sqrt || f == StrAbbreviate || f == StrCapitalize ||
        f == StrConcat || f == StrDefaultIfBlank {
      NameTableRows4(f);
    } else if f == StrEndsWith || f == StrEqualsIgnoreCase || f == StrIndexOf ||
        f == StrLastIndexOf || f == StrLength || f == StrMatches {
      NameTableRows5(f);
    } else if f == StrReplace || f == StrStartsWith || f == StrStripAccents ||
        f == StrSubstring || f == StrSubstringStart || f == StrToLowerCase {
      NameTableRows6(f);
    } else {
      NameTableRows7(f);
    }
  }

  /* The rows six at a time; each row is looked up by its literal name. */

  lemma NameTableRows0(f: Fn)
    requires f == Abs || f == Acos || f == Asin || f == Atan || f == Atan2 ||
      f == Between
    ensures NameTable(NameOf(f)) == Some(f)
  {
    if f == Abs {
      assert NameTable("abs") == Some(Abs);
    } else if f == Acos {
      assert NameTable("acos") == Some(Acos);
    } else if f == Asin {
      assert NameTable("asin") == Some(Asin);
    } else if f == Atan {
      assert NameTable("atan") == Some(Atan);
    } else if f == Atan2 {
      assert NameTable("atan2") == Some(Atan2);
    } else {
      assert NameTable("between") == Some(Between);
    }
  }

  lemma NameTableRows1(f: Fn)
    requires f == Ceil || f == Cos || f == Double2bool || f == Exp || f == Floor ||
      f == In
    ensures NameTable(NameOf(f)) == Some(f)
  {
    if f == Ceil {
      assert NameTable("ceil") == Some(Ceil);
    } else if f == Cos {
      assert NameTable("cos") == Some(Cos);
    } else if f == Double2bool {
      assert NameTable("double2bool") == Some(Double2bool);
    } else if f == Exp {
      assert NameTable("exp") == Some(Exp);
    } else if f == Floor {
      assert NameTable("floor") == Some(Floor);
    } else {
      assert NameTable("in") == Some(In);
    }
  }

  lemma NameTableRows2(f: Fn)
    requires f == Log || f == Max || f == Min || f == Modulo || f == NumberFormat ||
      f == ParseBoolean
    ensures NameTable(NameOf(f)) == Some(f)
  {
    if f == Log {
      assert NameTable("log") == Some(Log);
    } else if f == Max {
      assert NameTable("max") == Some(Max);
    } else if f == Min {
      assert NameTable("min") == Some(Min);
    } else if f == Modulo {
      assert NameTable("modulo") == Some(Modulo);
    } else if f == NumberFormat {
      assert NameTable("numberFormat") == Some(NumberFormat);
    } else {
      assert NameTable("parseBoolean") == Some(ParseBoolean);
    }
  }

  lemma NameTableRows3(f: Fn)
    requires f == Pi || f == Pow || f == Property || f == Random || f == Rint ||
      f == Round
    ensures NameTable(NameOf(f)) == Some(f)
  {
    if f == Pi {
      assert NameTable("pi") == Some(Pi);
    } else if f == Pow {
      assert NameTable("pow") == Some(Pow);
    } else if f == Property {
      assert NameTable("property") == Some(Property);
    } else if f == Random {
      assert NameTable("random") == Some(Random);
    } else if f == Rint {
      assert NameTable("rint") == Some(Rint);
    } else {
      assert NameTable("round") == Some(Round);
    }
  }

  lemma NameTableRows4(f: Fn)
    requires f == Sin || f == Sqrt || f == StrAbbreviate || f == StrCapitalize ||
      f == StrConcat || f == StrDefaultIfBlank
    ensures NameTable(NameOf(f)) == Some(f)
  {
    if f == Sin {
      assert NameTable("sin") == Some(Sin);
    } else if f == Sqrt {
      assert NameTable("sqrt") == Some(Sqrt);
    } else if f == StrAbbreviate {
      assert NameTable("strAbbreviate") == Some(StrAbbreviate);
    } else if f == StrCapitalize {
      assert NameTable("strCapitalize") == Some(StrCapitalize);
    } else if f == StrConcat {
      assert NameTable("strConcat") == Some(StrConcat);
    } else {
      assert NameTable("strDefaultIfBlank") == Some(StrDefaultIfBlank);
    }
  }

  lemma NameTableRows5(f: Fn)
    requires f == StrEndsWith || f == StrEqualsIgnoreCase || f == StrIndexOf ||
      f == StrLastIndexOf || f == StrLength || f == StrMatches
    ensures NameTable(NameOf(f)) == Some(f)
  {
    if f == StrEndsWith {
      assert NameTable("strEndsWith") == Some(StrEndsWith);
    } else if f == StrEqualsIgnoreCase {
      assert NameTable("strEqualsIgnoreCase") == Some(StrEqualsIgnoreCase);
    } else if f == StrIndexOf {
      assert NameTable("strIndexOf") == Some(StrIndexOf);
    } else if f == StrLastIndexOf {
      assert NameTable("strLastIndexOf") == Some(StrLastIndexOf);
    } else if f == StrLength {
      assert NameTable("strLength") == Some(StrLength);
    } else {
      assert NameTable("strMatches") == Some(StrMatches);
    }
  }

  lemma NameTableRows6(f: Fn)
    requires f == StrReplace || f == StrStartsWith || f == StrStripAccents ||
      f == StrSubstring || f == StrSubstringStart || f == StrToLowerCase
    ensures NameTable(NameOf(f)) == Some(f)
  {
    if f == StrReplace {
      assert NameTable("strReplace") == Some(StrReplace);
    } else if f == StrStartsWith {
      assert NameTable("strStartsWith") == Some(StrStartsWith);
    } else if f == StrStripAccents {
      assert NameTable("strStripAccents") == Some(StrStripAccents);
    } else if f == StrSubstring {
      assert NameTable("strSubstring") == Some(StrSubstring);
    } else if f == StrSubstringStart {
      assert NameTable("strSubstringStart") == Some(StrSubstringStart);
    } else {
      assert NameTable("strToLowerCase") == Some(StrToLowerCase);
    }
  }

  lemma NameTableRows7(f: Fn)
    requires f == StrToUpperCase || f == StrTrim || f == Tan || f == ToDegrees ||
      f == ToRadians
    ensures NameTable(NameOf(f)) == Some(f)
  {
    if f == StrToUpperCase {
      assert NameTable("strToUpperCase") == Some(StrToUpperCase);
    } else if f == StrTrim {
      assert NameTable("strTrim") == Some(StrTrim);
    } else if f == Tan {
      assert NameTable("tan") == Some(Tan);
    } else if f == ToDegrees {
      assert NameTable("toDegrees") == Some(ToDegrees);
    } else {
      assert NameTable("toRadians") == Some(ToRadians);
    }
  }

  /** A name selects an entry exactly when it is that entry's literal name. */
  lemma FromNameSelectsExactly(name: string, f: Fn)
    ensures FromName(name) == Some(f) <==> NameOf(f) == name
  {
    NameRoundTrip(f);
  }

  /** No two entries share a name. */
  lemma NamesUnique(f: Fn, g: Fn)
    ensures NameOf(f) == NameOf(g) <==> f == g
  {
    NameRoundTrip(f);
    NameRoundTrip(g);
  }

  /** `GeoStylerFunction` covers the whole catalogue. */
  lemma UnionsCoverCatalog(f: Fn)
    ensures InAnyUnion(f)
  {
  }

  /** `property` is in every union and is the only entry of unknown result type. */
  lemma PropertyInEveryUnion(f: Fn)
    ensures InNumberUnion(Property) && InStringUnion(Property) && InBooleanUnion(Property)
    ensures Sig(f).result == TUnknown <==> f == Property
  {
  }

  /** Outside `property`, the number union holds exactly the `FunctionCall<number>` entries. */
  lemma NumberUnionAgrees(f: Fn)
    requires f != Property
    ensures InNumberUnion(f) <==> Sig(f).result == TNumber
  {
  }

  /** Outside `property`, the string union holds exactly the `FunctionCall<string>` entries. */
  lemma StringUnionAgrees(f: Fn)
    requires f != Property
    ensures InStringUnion(f) <==> Sig(f).result == TString
  {
  }

  /** Outside `property`, the boolean union holds exactly the `FunctionCall<boolean>` entries. */
  lemma BooleanUnionAgrees(f: Fn)
    requires f != Property
    ensures InBooleanUnion(f) <==> Sig(f).result == TBoolean
  {
  }

  /** Every other entry is in exactly one of the number, string and boolean
      unions, and that union agrees with its `FunctionCall<T>` result type. */
  lemma UnionAgreesWithResult(f: Fn)
    requires f != Property
    ensures InNumberUnion(f) <==> Sig(f).result == TNumber
    ensures InStringUnion(f) <==> Sig(f).result == TString
    ensures InBooleanUnion(f) <==> Sig(f).result == TBoolean
    ensures InNumberUnion(f) || InStringUnion(f) || InBooleanUnion(f)
    ensures !(InNumberUnion(f) && InStringUnion(f))
    ensures !(InNumberUnion(f) && InBooleanUnion(f))
    ensures !(InStringUnion(f) && InBooleanUnion(f))
  {
    NumberUnionAgrees(f);
    StringUnionAgrees(f);
    BooleanUnionAgrees(f);
    PropertyInEveryUnion(f);
  }

  /** The argument counts of some of the tuples. */
  lemma FixedArities()
    ensures Sig(Abs).params == Fixed([TNumber])
    ensures Sig(Between).params.Fixed? && |Sig(Between).params.types| == 3
    ensures Sig(NumberFormat).params.Fixed? && |Sig(NumberFormat).params.types| == 3
    ensures Sig(StrSubstring).params.Fixed? && |Sig(StrSubstring).params.types| == 3
    ensures Sig(StrReplace).params.Fixed? && |Sig(StrReplace).params.types| == 4
    ensures Sig(StrAbbreviate).params.Fixed? && |Sig(StrAbbreviate).params.types| == 4
  {
  }

  /** The entries whose arguments are an unbounded array. */
  lemma VariadicEntries(f: Fn)
    ensures Sig(f).params.Variadic? <==> f in {In, Max, Min, StrConcat}
  {
  }

  /** The entries that take no argument list. */
  lemma NoArgsEntries(f: Fn)
    ensures Sig(f).params.NoArgs? <==> f in {Pi, Random}
  {
  }

  /** The string functions share an argument shape but not a result type. */
  lemma StringFunctionResults(f: Fn)
    ensures f in {StrIndexOf, StrLastIndexOf, StrLength} ==> Sig(f).result == TNumber
    ensures f in {StrEndsWith, StrStartsWith, StrEqualsIgnoreCase, StrMatches} ==> Sig(f).result == TBoolean
    ensures f == StrDefaultIfBlank ==> Sig(f).result == TString
  {
  }

  /** No argument position of any entry expects the unknown type. */
  lemma NoUnknownParameter(f: Fn, i: nat)
    requires !Sig(f).params.NoArgs?
    requires Sig(f).params.Fixed? ==> i < |Sig(f).params.types|
    ensures ExpectedAt(Sig(f).params, i) != TUnknown
  {
  }

  /** The catalogue keyed by name finds every entry's signature under its name. */
  lemma LookupFindsEveryEntry(f: Fn)
    ensures Lookup(NameOf(f)) == Some(Sig(f))
  {
    NameRoundTrip(f);
  }

  /** The catalogue keyed by name has no signature exactly for the names that are no entry's name. */
  lemma LookupMissesExactlyUnknownNames(name: string)
    ensures Lookup(name).None? <==> forall f :: NameOf(f) != name
  {
    if Lookup(name).Some? {
      FromNameSelectsExactly(name, FromName(name).value);
    } else {
      forall f ensures NameOf(f) != name {
        FromNameSelectsExactly(name, f);
      }
    }
  }
}
