/**
 * The parts of the compiler's symbol graph that the IL2026 check reads,
 * as plain immutable data. The semantic model computes all of it; the
 * check only looks.
 */
module Symbols {
  import opened Wrappers

  /** The diagnostic identity reported by the check. */
  const DiagnosticId := "IL2026"

  /**
   * The names along a type's containment chain, innermost first: the
   * type's own name, then each containing type, then each containing
   * namespace, ending with the global namespace (whose name is "").
   * Stepping past the last entry reaches a null symbol.
   */
  type NameChain = seq<string>

  /** The special type of a constant's type; only System.String matters here. */
  datatype SpecialType = NotSpecial | SystemString | OtherSpecial

  /**
   * The value held by a typed constant. `OtherValue` carries the text its
   * ToString() produces (numbers, enum values, types and so on).
   */
  datatype ConstantValue = NullValue | StringValue(s: string) | OtherValue(text: string)

  /** An attribute argument: its type (absent when the compiler gives none) and value. */
  datatype TypedConstant = TypedConstant(typeOf: Option<SpecialType>, value: ConstantValue)

  /** A named attribute argument such as `Url = "..."`. */
  datatype NamedArgument = NamedArgument(key: string, value: TypedConstant)

  /**
   * One attribute application. `attributeClass` is the containment chain
   * of the attribute's class, or None when the class could not be bound.
   */
  datatype AttributeData = AttributeData(
    attributeClass: Option<NameChain>,
    constructorArguments: seq<TypedConstant>,
    namedArguments: seq<NamedArgument>)

  /**
   * A method, constructor or accessor. `display` is the text of
   * OriginalDefinition.ToString(); `overridesAnother` is true exactly when
   * OverriddenMethod is non-null.
   */
  datatype MethodSymbol = MethodSymbol(
    display: string,
    attributes: seq<AttributeData>,
    overridesAnother: bool)

  /** A property with its optional getter and setter. */
  datatype PropertySymbol = PropertySymbol(getMethod: Option<MethodSymbol>, setMethod: Option<MethodSymbol>)

  /**
   * The symbol that lexically contains an operation: a method or accessor
   * (`isMethod`), or something else such as a field whose initializer
   * holds the call. Its attributes are given in either case.
   */
  datatype ContainingSymbol = ContainingSymbol(isMethod: bool, attributes: seq<AttributeData>)

  /** A source location, opaque to the check. */
  datatype Location = Location(path: string, start: nat, end: nat)

  /** The flags of a value usage; a property use may carry several. */
  datatype ValueUsage = Read | Write | Reference | Name

  /** The call-like operations the check is registered for. */
  datatype Operation =
    | Invocation(targetMethod: MethodSymbol, isVirtual: bool, location: Location)
    | ObjectCreation(ctor: MethodSymbol, location: Location)
    | PropertyReference(property: PropertySymbol, usage: set<ValueUsage>, location: Location)

  /** A reported diagnostic: rule id, location and its three message arguments. */
  datatype Finding = Finding(
    id: string,
    location: Location,
    memberName: string,
    message: Option<string>,
    url: Option<string>)
}
