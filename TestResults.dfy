/**
 * `OOPResultImpl`: the outcome of one test, an immutable pair of a result kind
 * and a message. The constructor stores its two arguments and nothing changes
 * them afterwards, so a result is a value; `getResultType` and `getMessage` are
 * the destructors `kind` and `message`.
 */
module TestResults {
  import opened Wrappers
  import opened JavaLang

  datatype ResultKind = SUCCESS | FAILURE | EXPECTED_EXCEPTION_MISMATCH | ERROR

  /** A test result; a `None` message is a `null` one. */
  datatype TestResult = TestResult(kind: ResultKind, message: Option<string>)

  /** What `equals` may be handed besides `null`: another result, or an object of some other class. */
  datatype Other = AResult(result: TestResult) | NotAResult

  /**
   * `equals`: `null` and objects of another class are unequal; otherwise the
   * kinds must be the same and the messages equal, two `null` messages being
   * equal and a `null` message being unequal to a non-null one.
   * (The identity shortcut `this == obj` agrees with this, since an object is
   * equal to its own value.)
   */
  function Equals(self: TestResult, obj: Option<Other>): (b: bool)
    ensures b <==> obj == Some(AResult(self))
  {
    match obj
    case None => false
    case Some(NotAResult) => false
    case Some(AResult(that)) =>
      if self.kind != that.kind then false
      else
        match self.message
        case Some(m) => that.message.Some? && m == that.message.value
        case None => that.message.None?
  }

  /**
   * `hashCode`: `Objects.hash(resultType, message)`. An enum constant hashes by
   * identity, which no source fixes, so the hash of each kind is a parameter.
   */
  function HashCode(self: TestResult, kindHash: ResultKind -> int): (h: int)
    ensures MIN_INT <= h <= MAX_INT
  {
    ArrayHash([kindHash(self.kind), NullableStringHash(self.message)])
  }

  /** Results that `equals` calls equal have the same hash. */
  lemma EqualResultsHashEqual(a: TestResult, b: TestResult, kindHash: ResultKind -> int)
    requires Equals(a, Some(AResult(b)))
    ensures HashCode(a, kindHash) == HashCode(b, kindHash)
  {
  }

  /** `equals` is symmetric. */
  lemma EqualsSymmetric(a: TestResult, b: TestResult)
    ensures Equals(a, Some(AResult(b))) <==> Equals(b, Some(AResult(a)))
  {
  }
}
