/**
 * The syntax tree of the simply typed λ-calculus (src/typed.ts:100-197): types are base types, arrows and
 * pairs; terms are identifiers, annotated abstractions and applications. Each class carries an `isSimple`
 * flag that its printer uses to decide where parentheses go.
 */
module TypedSyntax {
  /** `SimpleType | ArrowType | PairType`. */
  datatype Type =
    | SimpleType(value: string)
    | ArrowType(input: Type, output: Type)
    | PairType(first: Type, second: Type)

  /** The `isSimple` field of a type: true for base and pair types, an arrow's is its input's. */
  function TypeIsSimple(t: Type): bool {
    match t
    case SimpleType(_) => true
    case ArrowType(input, _) => TypeIsSimple(input)
    case PairType(_, _) => true
  }

  /** Every type is simple, so the printer never parenthesises the output of an arrow. */
  lemma {:induction false} TypeAlwaysSimple(t: Type)
    ensures TypeIsSimple(t)
  {
    if t.ArrowType? {
      TypeAlwaysSimple(t.input);
    }
  }

  /**
   * `toString()` of a type: an arrow's input is parenthesised unless it is a base type, its output unless it
   * is simple; a pair prints as `[first, second]`.
   */
  function ShowType(t: Type): string {
    match t
    case SimpleType(value) => value
    case ArrowType(input, output) =>
      (if input.SimpleType? then ShowType(input) else "(" + ShowType(input) + ")")
      + " -> "
      + (if TypeIsSimple(output) then ShowType(output) else "(" + ShowType(output) + ")")
    case PairType(first, second) => "[" + ShowType(first) + ", " + ShowType(second) + "]"
  }

  /** `isValidTypeName`: the two base types. */
  predicate IsValidTypeName(typeName: string) {
    typeName == "Bool" || typeName == "Nat"
  }

  /** `Identifier | Abstraction | Application`, and `Undefined` for the `undefined` that `atom()` returns. */
  datatype Node =
    | Identifier(value: string)
    | Abstraction(parameter: string, annotation: Type, body: Node)
    | Application(left: Node, right: Node)
    | Undefined

  /**
   * The `isSimple` field of a term: an identifier is simple, an abstraction is not, and an application is
   * when its left side is and its right side is an identifier. So the simple terms are the chains `a b c`
   * of identifiers. (The parser never builds an application with an `undefined` side: on an `undefined` left
   * side the source's constructor throws, `UndefinedOperand`, and `atom()` never returns `undefined` as a right side.)
   */
  function IsSimple(n: Node): bool {
    match n
    case Identifier(_) => true
    case Abstraction(_, _, _) => false
    case Application(left, right) => IsSimple(left) && right.Identifier?
    case Undefined => false
  }

  /**
   * When the right side of an application is printed without parentheses (while its left side needs
   * them): as written, whenever it is simple; corrected, only when it is an identifier.
   */
  function BareRight(right: Node, corrected: bool): bool {
    if corrected then right.Identifier? else IsSimple(right)
  }

  /**
   * `toString()` of a term, as written (`corrected` false) or with the third case of
   * `Application.toString` corrected. An abstraction prints as `λx:T.body`; an application with
   * a simple left side prints that side bare, and its right side bare only when the whole is simple.
   */
  function ShowBy(n: Node, corrected: bool): string {
    match n
    case Identifier(value) => value
    case Abstraction(parameter, annotation, body) =>
      "λ" + parameter + ":" + ShowType(annotation) + "." + ShowBy(body, corrected)
    case Application(left, right) =>
      if IsSimple(n) then ShowBy(left, corrected) + " " + ShowBy(right, corrected)
      else if IsSimple(left) then ShowBy(left, corrected) + " (" + ShowBy(right, corrected) + ")"
      else if BareRight(right, corrected) then "(" + ShowBy(left, corrected) + ") " + ShowBy(right, corrected)
      else "(" + ShowBy(left, corrected) + ") (" + ShowBy(right, corrected) + ")"
    case Undefined => "undefined"
  }

  /** `toString()` as written. */
  function Show(n: Node): string {
    ShowBy(n, false)
  }

  /** `toString()` with the right side of an application bare only when it is an identifier. */
  function ShowCorrected(n: Node): string {
    ShowBy(n, true)
  }

  /** The two printers differ only where a simple application stands to the right of a non-simple left side. */
  lemma {:induction false} ShowAgrees(n: Node)
    requires NoBareChainRight(n)
    ensures Show(n) == ShowCorrected(n)
  {
    match n
    case Identifier(_) =>
    case Abstraction(_, _, body) => ShowAgrees(body);
    case Application(left, right) =>
      ShowAgrees(left);
      ShowAgrees(right);
    case Undefined =>
  }

  /** No application has a non-simple left side and an application chain as its right side. */
  predicate NoBareChainRight(n: Node) {
    match n
    case Identifier(_) => true
    case Abstraction(_, _, body) => NoBareChainRight(body)
    case Application(left, right) =>
      NoBareChainRight(left) && NoBareChainRight(right) && (IsSimple(left) || !IsSimple(right) || right.Identifier?)
    case Undefined => true
  }
}
