# geostyler-style function catalogue, in Dafny

The styling language of geostyler-style lets a style compute a value with a
function call: an object with a literal `name` (one of 47) and, for most
functions, an `args` list whose length and element types the name fixes. The
declarations in `functions.ts` are TypeScript types only: one `F*` interface
per function, extending `FunctionCall<T>` with its result type `T`, and four
unions that group the shapes by result type. `property` has an unknown
result type and belongs to all four unions, so a feature attribute may stand
wherever any value is expected.

This project models three things.

- **Catalog** (`catalog.dfy`). The 47 shapes: name, argument shape and result
  type. An argument shape is a fixed tuple, an unbounded array of one element
  type, or no argument list at all (`pi` and `random`). The module also holds
  the four unions and name lookup. Its lemmas prove three things:
  - every name is found and names are unique;
  - each union holds exactly the entries with its result type;
  - `property` is the only entry in every union.
- **Validator** (`validator.dfy`). Models what the TypeScript compiler
  enforces on a call tree. `WellTyped` is the rule as a predicate: the name
  is known, the argument count fits, and each argument has its position's
  type (an argument of unknown type, such as a `property` read, fits
  anywhere). `Check` reports the first violation in depth-first,
  left-to-right order, and is proved to accept exactly the well-typed trees.
- **Evaluator** (`evaluator.dfy` with `strings.dfy`). Covers the functions
  whose documentation fixes an exact, non-floating-point result:
  - `between`, `double2bool`, `parseBoolean` and `in`;
  - `strConcat`, `strDefaultIfBlank` and `strTrim`;
  - `strStartsWith`, `strEndsWith`, `strIndexOf` and `strLastIndexOf`;
  - `strLength`, `strSubstring` and `strSubstringStart`;
  - `property`, which reads an attribute of the feature.

  Every other entry evaluates to `NotModelled`. Arguments are evaluated left
  to right, and the first failure is the result.

`Expr` (`types.dfy`) stands in for the expression type of the `./style`
module, which is not part of this model. An expression is a literal number,
string or boolean, or a call by name. Numbers are mathematical reals.

Where the doc comments and the types disagree, the model follows the types:
- `strConcat` takes any number of strings, although its comment speaks of
  two;
- `numberFormat` is a fixed 3-tuple (format, number, language).

## Model

| member | source | states |
|---|---|---|
| Catalog.NameRoundTrip | functions.ts:66-559 | looking up the literal `name` of any entry finds that entry |
| Catalog.FromNameSelectsExactly | functions.ts:66-559 | a name selects an entry exactly when it is that entry's literal name (lookup is sound and complete) |
| Catalog.LookupFindsEveryEntry | functions.ts:66-559 | the catalogue keyed by name returns each entry's own signature under that entry's name |
| Catalog.LookupMissesExactlyUnknownNames | functions.ts:66-559 | the catalogue keyed by name has nothing for a name exactly when no entry carries that name |
| Catalog.NamesUnique | functions.ts:66-559 | two entries share a name only if they are the same entry |
| Catalog.UnionsCoverCatalog | functions.ts:7-10 | every entry belongs to `GeoStylerFunction` |
| Catalog.PropertyInEveryUnion | functions.ts:7-64 | `property` is in the number, string and boolean unions, and it is the only entry whose result type is unknown |
| Catalog.NumberUnionAgrees | functions.ts:12-38 | apart from `property`, an entry is in `GeoStylerNumberFunction` iff it extends `FunctionCall<number>` |
| Catalog.StringUnionAgrees | functions.ts:40-52 | apart from `property`, an entry is in `GeoStylerStringFunction` iff it extends `FunctionCall<string>` |
| Catalog.BooleanUnionAgrees | functions.ts:54-62 | apart from `property`, an entry is in `GeoStylerBooleanFunction` iff it extends `FunctionCall<boolean>` |
| Catalog.UnionAgreesWithResult | functions.ts:7-64 | every entry other than `property` is in exactly one of the three typed unions, the one matching its result type |
| Catalog.FixedArities | functions.ts:66-487 | the tuple lengths: `abs` 1 (a number), `between`, `numberFormat` and `strSubstring` 3, `strReplace` and `strAbbreviate` 4 |
| Catalog.VariadicEntries | functions.ts:181-357 | an entry takes an unbounded argument array iff it is `in`, `max`, `min` or `strConcat` |
| Catalog.NoArgsEntries | functions.ts:249-283 | an entry has no argument list iff it is `pi` or `random` |
| Catalog.StringFunctionResults | functions.ts:370-436 | `strIndexOf`, `strLastIndexOf` and `strLength` return numbers; `strStartsWith`, `strEndsWith`, `strEqualsIgnoreCase` and `strMatches` return booleans; `strDefaultIfBlank` returns a string |
| Catalog.NoUnknownParameter | functions.ts:66-559 | no argument position of any entry is declared with the unknown type |
| Validator.CheckIffWellTyped | functions.ts:66-559 | the checker reports no error exactly when the tree is well typed: known name, fitting count, fitting argument types, all the way down |
| Validator.CheckReportsLeftmost | functions.ts:66-559 | when all arguments before position k fit and check, the reported error is the one at k (type first, then its subtree) |
| Validator.UnknownNameRejected | functions.ts:7-10 | a call whose name is none of the 47 literals is not well typed and is reported as an unknown function |
| Validator.AcceptedArity | functions.ts:66-487 | an accepted call of a fixed shape has exactly the tuple's length of arguments (1 for `abs`, 3 for `between`, 4 for `strReplace`, ...) and one of `pi` or `random` has none |
| Validator.DocumentedShapeAccepted | functions.ts:66-559 | every entry accepts a call with its declared argument types (any count when unbounded), and a fixed shape with one argument too many or too few is an arity error |
| Validator.WrongTypeRejected | functions.ts:66-559 | replacing argument i of a declared call by a literal of another type is reported as a type mismatch at position i |
| Validator.PropertyAcceptedAnywhere | functions.ts:7-64 | replacing any argument of a well-typed call by a `property` read keeps it well typed |
| Validator.RejectedAt | functions.ts:66-559 | an argument of known type other than its position's type makes the call ill typed |
| Validator.MismatchExamples | functions.ts:438-487 | a string index in `strSubstring`, a string `global` flag in `strReplace` and a number among the strings of `in` are rejected |
| StringFunctions.IndexOf | functions.ts:392-402 | -1 iff the substring does not occur; otherwise it occurs there and at no smaller index |
| StringFunctions.LastIndexOf | functions.ts:404-414 | -1 iff the substring does not occur; otherwise it occurs there and at no larger index |
| StringFunctions.IndexOfLastIndexOfAgree | functions.ts:392-414 | both searches agree on absence; the first index is at most the last one; if they are equal the occurrence is unique; the empty string is found at 0 and at the length |
| StringFunctions.StartsWithIff | functions.ts:454-463 | `s` starts with `p` iff `s == p + rest` for some rest, iff the first occurrence of `p` is at 0 |
| StringFunctions.EndsWithIff | functions.ts:370-379 | `s` ends with `x` iff `s == front + x` for some front, iff `x` occurs at the length of `s` minus that of `x`, and then the last occurrence is there |
| StringFunctions.Substring | functions.ts:475-487 | defined iff 0 <= begin <= end <= length; the result has end - begin characters, the k-th being character begin + k |
| StringFunctions.SubstringStart | functions.ts:489-499 | defined iff 0 <= begin <= length; the result is the suffix of the string after its first `begin` characters |
| StringFunctions.SubstringStartIsSubstringToEnd | functions.ts:475-499 | `strSubstringStart(s, b)` equals `strSubstring(s, b, length of s)`, and the two pieces cut at b rebuild the string |
| StringFunctions.SubstringOccurs | functions.ts:392-487 | a substring occurs at its begin index, between the first and last occurrence the searches report |
| StringFunctions.ConcatAppend | functions.ts:351-357 | concatenating a split list is concatenating the parts' results |
| StringFunctions.ConcatLength | functions.ts:351-357 | the result is as long as all inputs together; for two strings it is their `+` |
| StringFunctions.Length | functions.ts:416-424 | the length is the last index at which the empty string occurs, the end index at which `strSubstring` from 0 returns the whole string, and the begin index at which `strSubstringStart` returns the empty string |
| StringFunctions.LengthOfConcat | functions.ts:351-424 | `strLength` of a `strConcat` result is the sum of the `strLength` of its arguments |
| StringFunctions.Trim | functions.ts:521-529 | the result is a contiguous part of the input, everything cut off at either end is blank, and the result neither starts nor ends with a blank |
| StringFunctions.TrimIdempotent | functions.ts:521-529 | trimming a trimmed string changes nothing |
| StringFunctions.TrimEmptyIffBlank | functions.ts:359-368 | a string trims to the empty string iff it is empty or blank |
| StringFunctions.DefaultIfBlank | functions.ts:359-368 | the default when the string is empty or blank, the string itself otherwise |
| StringFunctions.ParseBooleanFalseForms | functions.ts:238-247 | false exactly for "", "f", "0.0" and "0", compared character by character; "F", "false", "0.00", " 0", "1" and "t" are true |
| StringFunctions.InIff | functions.ts:181-188 | `in` holds iff some later argument equals the first; with no candidates it is false |
| Evaluator.AsIndex | functions.ts:475-499 | a number is an index exactly when it is a whole number, and the index has that value |
| Evaluator.FirstMismatch | functions.ts:66-559 | finds the leftmost argument value whose type differs from its position's, or reports that all match |
| Evaluator.EvalArgsFrom | functions.ts:66-559 | a successful argument evaluation has one value per argument, each the argument's own value |
| Evaluator.EvalOnLiterals | functions.ts:66-559 | a call over literal arguments is its entry applied to the literals' values |
| Evaluator.ApplyResultType | functions.ts:66-559 | a successful application yields a value of the entry's declared result type |
| Evaluator.EvalResultType | functions.ts:7-64 | a successful evaluation yields a value of the expression's static type, when that type is known |
| Evaluator.WellTypedClosedCannotGoWrong | functions.ts:7-64 | a well-typed tree with no `property` read has a known type and never fails with an unknown name, an arity error, a type error or a missing attribute |
| Evaluator.ClosedCallCannotGoWrong | functions.ts:7-64 | the one-call step of the previous row |
| Evaluator.ApplyConforming | functions.ts:66-559 | on values of the declared count and types, application is the entry's semantics |
| Evaluator.ComputeFailures | functions.ts:66-559 | apart from `property`, the semantics fail only with an index out of range or an entry outside the model |
| Evaluator.EvalArgsFromFailure | functions.ts:66-559 | a failed argument list carries the failure of one of its arguments |
| Evaluator.EvalReportsLeftmostFailure | functions.ts:66-559 | a call fails with the failure of its leftmost failing argument |
| Evaluator.EvalProperty | functions.ts:267-276 | `property(a)` yields the value of attribute a, or fails naming the missing attribute |
| Evaluator.EvalBetween | functions.ts:117-127 | `between(v, lo, hi)` is `lo <= v <= hi`, inclusive at both ends, with the compared value first |
| Evaluator.EvalDouble2bool | functions.ts:150-158 | `double2bool(x)` is true exactly when x is zero |
| Evaluator.EvalParseBoolean | functions.ts:238-247 | `parseBoolean(s)` is false exactly for "", "f", "0.0" and "0" |
| Evaluator.EvalIn | functions.ts:181-188 | `in(x, c1, ..., cn)` is true exactly when some ci equals x |
| Evaluator.EvalConcat | functions.ts:351-357 | `strConcat` succeeds with the arguments joined in order, a string as long as all arguments together; for two arguments it is their concatenation |
| Evaluator.EvalIndexOf | functions.ts:392-402 | `strIndexOf` yields -1 iff there is no occurrence, otherwise the first index of one |
| Evaluator.EvalLastIndexOf | functions.ts:404-414 | `strLastIndexOf` yields -1 iff there is no occurrence, otherwise the last index of one |
| Evaluator.EvalSubstring | functions.ts:475-487 | `strSubstring(s, b, e)` succeeds iff 0 <= b <= e <= length, with the e - b characters from b; otherwise it is an index error |
| Evaluator.EvalSubstringStart | functions.ts:489-499 | `strSubstringStart(s, b)` behaves as `strSubstring(s, b, length of s)`: same success and result, and an index error when that one fails |
| Evaluator.EvalSubstringFractional | functions.ts:475-487 | a begin index that is not a whole number is an index error |
| Evaluator.SubstringExamples | functions.ts:475-487 | "hello" from 1 to 3 is "el"; begin 3 with end 1 is an index error |
| Evaluator.EvalBetweenOfProperty | functions.ts:117-127 | `between(property(a), lo, hi)` compares the attribute with the closed interval; it fails with a missing attribute, or a type error at position 0 if the attribute is not a number |

## Left out

- Floating-point arithmetic. `abs`, `acos`, `asin`, `atan`, `atan2`, `ceil`, `cos`, `exp`, `floor`, `log`, `max`, `min`, `modulo`, `pow`, `rint`, `round`, `sin`, `sqrt`, `tan`, `toDegrees`, `toRadians` and `pi` are in the catalogue and the validator, but they evaluate to `NotModelled`. Their results are IEEE 754 approximations that the doc comments do not pin down.
- `random`: it is nondeterministic; it is catalogued and validated only.
- `numberFormat`: the Java DecimalFormat pattern language and locale data are outside the model; it is catalogued and validated only.
- `strMatches` and `strReplace`: these take Java regular expressions; they are catalogued and validated only.
- `strCapitalize`, `strToLowerCase`, `strToUpperCase`, `strEqualsIgnoreCase` and `strStripAccents`: these depend on Unicode case mapping and decomposition tables; they are catalogued and validated only.
- `strAbbreviate`: its comment leaves the abbreviation rule too loose to state; it is catalogued and validated only.
- The `./style` module (`Expression`, `FunctionCall`) is not part of this model. `Types.Expr` stands in for it, and the evaluator's `Context` is a map from attribute names to values that stands in for a feature.
- StringFunctions.DefaultIfBlank: a null string is not modelled, because strings here are never null; its comment also returns the default for null.
- StringFunctions.Trim: "blank" is the six ASCII white-space characters (space, tab, line feed, vertical tab, form feed, carriage return). Other Unicode white space is not treated as blank, and the other control characters below U+0020 (NUL among them) are kept, although Java's `String.trim` would strip them too.
- Evaluator.EvalSubstring: index arguments are numbers. A number that is not a whole number is an index error, as is an index outside 0 <= begin <= end <= length. No rounding is modelled.
- Catalog.VariadicEntries: the array types of `in`, `max`, `min` and `strConcat` admit any count, including zero, and the model follows them. `in` with no arguments evaluates to false, and `strConcat` with none to the empty string.
- Evaluator.EvalProperty: a missing attribute is an explicit `MissingProperty` failure, not an undefined value.
- Evaluator.EvalDouble2bool: the result follows the comment at functions.ts:150-152 literally (true exactly for zero).
- String positions and lengths count Unicode code points, one per character. Java's String methods count UTF-16 code units instead. So `strLength`, `strIndexOf`, `strLastIndexOf`, `strSubstring` and `strSubstringStart` give different answers from Java on strings with characters outside the Basic Multilingual Plane: the length of a single emoji is 1 here and 2 in Java.
- Numbers are mathematical reals. NaN, positive and negative infinity and negative zero are not modelled. So IEEE 754 behaviour such as `between` being false for NaN, or a comparison with an infinity, is outside the model.
- Runtime type errors: a `property` read may yield a value of any type, so the evaluator checks argument values against the declared types and reports `RuntimeTypeMismatch`; the TypeScript types cannot express this check.
