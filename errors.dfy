/** Outcomes of the record factory and of the generated classes: the
    failures Python raises, each tagged with the exception class it surfaces as. */
module Errors {

  datatype Option<+T> = None | Some(value: T)

  /** The host exception class a failure is raised as. */
  datatype Exception = ValueError | TypeError | SyntaxError | IndexError | AttributeError

  /** The two orderings the generated class computes directly; `>` and `>=` are
      derived from them by negation. */
  datatype CompareOp = Less | LessOrEqual

  datatype Error =
    // name validation (_check_name)
    | NameNotAString
    | EmptyName
    | IllegalCharacter(name: string)
    | KeywordName(name: string)
    | LeadingDigit(name: string)
    // the factory's field loop
    | MalformedField
    | ReservedFieldName(name: string)
    | DuplicateField(name: string)
    // compiling and executing the generated class text
    | DefaultBeforeRequired(name: string)
    | DuplicateParameter(name: string)
    | DebugAssignment
    | SlotConflict(name: string)
    // calling the generated constructor
    | UnexpectedKeyword(name: string)
    | MultipleValues(name: string)
    | TooManyPositional(accepted: nat, given: nat)
    | MissingArguments(names: seq<string>)
    // the instance protocol
    | Unorderable(op: CompareOp, left: string, right: string)
    | Unhashable(typename: string)
    | SliceAssignment(typename: string)
    | IndexOutOfRange(index: int)
    | NoSuchAttribute(name: string)
    | UnpackMismatch(key: string)

  function ExceptionOf(e: Error): (x: Exception)
  {
    match e
    case NameNotAString | EmptyName | IllegalCharacter(_) | KeywordName(_) | LeadingDigit(_) => ValueError
    case MalformedField | ReservedFieldName(_) | DuplicateField(_) => ValueError
    case DefaultBeforeRequired(_) | DuplicateParameter(_) | DebugAssignment => SyntaxError
    case SlotConflict(_) => ValueError
    case UnexpectedKeyword(_) | MultipleValues(_) | TooManyPositional(_, _) | MissingArguments(_) => TypeError
    case Unorderable(_, _, _) | Unhashable(_) | SliceAssignment(_) => TypeError
    case IndexOutOfRange(_) => IndexError
    case NoSuchAttribute(_) => AttributeError
    case UnpackMismatch(_) => ValueError
  }

  /** A computation that either yields a value or raises. */
  datatype Result<+T> = Success(value: T) | Failure(error: Error)
}
