/** Small value types shared by every module of the model. */
module Common {

  /** A Java reference that may be null, for values that are not objects. */
  datatype Option<+T> = None | Some(value: T)

  /**
   * The ways a parse run can stop. Every one of them aborts the whole run:
   * the program's entry point catches any exception and exits.
   */
  datatype Failure =
    | MissingAnnotationValue(text: string, lineNum: int, file: string)  // annotation line without a space
    | InvalidAnnotation(token: string, lineNum: int, file: string)      // token that names no annotation
    | NullDereference        // an uncaught NullPointerException
    | IndexOutOfBounds       // an uncaught StringIndexOutOfBoundsException from substring
    | Exit(status: int)      // System.exit called from a handler

  /** A computation that either yields a value or stops the run. */
  datatype Result<+T> = Ok(value: T) | Fail(failure: Failure)

  /** A state change that either completes or stops the run. */
  datatype Outcome = Done | Stopped(failure: Failure)

  /** EntrySet.generateKey(parent, name): the registry key of a member. */
  function GenerateKey(parent: string, name: string): (k: string)
    ensures |k| == |parent| + 1 + |name| && k[|parent|] == '.'
    ensures k[..|parent|] == parent && k[|parent| + 1..] == name
  {
    parent + "." + name
  }

  /** A possibly-null string as Java's string concatenation writes it. */
  function TextOf(s: Option<string>): string {
    if s.Some? then s.value else "null"
  }
}
