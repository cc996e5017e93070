/**
 * `OOPExpectedExceptionImpl`: the exception rule a test class declares. A
 * test records which exception class it expects and which fragments the
 * exception's message must contain; the runner then asks whether a thrown
 * exception meets the rule.
 */
module ExpectedExceptions {
  import opened Wrappers
  import opened JavaLang

  /**
   * What a rule holds: the expected class (`None` until `expect` is called)
   * and the message fragments in the order they were given, `None` being a
   * `null` fragment.
   */
  datatype Rule = Rule(expected: Option<ClassName>, messages: seq<Option<string>>)

  /** The text `assertExpected` searches: the exception's message, `""` when it is `null`. */
  function MessageText(e: Throwable): (s: string)
    ensures e.message.None? ==> s == ""
    ensures e.message.Some? ==> s == e.message.value
  {
    match e.message
    case None => ""
    case Some(m) => m
  }

  /** The loop over the fragments: each must be non-null and occur in `text`. */
  function MessagesMatch(messages: seq<Option<string>>, text: string): (b: bool)
    ensures b <==> forall i :: 0 <= i < |messages| ==> messages[i].Some? && Contains(text, messages[i].value)
  {
    if messages == [] then true
    else messages[0].Some? && Contains(text, messages[0].value) && MessagesMatch(messages[1..], text)
  }

  /**
   * `assertExpected(e)`: false when no class was recorded or `e` is not an
   * instance of it; otherwise true exactly when every recorded fragment is
   * non-null and occurs in the message (so true when there are none).
   */
  function Accepts(rule: Rule, e: Throwable): (b: bool)
    ensures rule.expected.None? ==> !b
    ensures rule.expected.Some? && !IsInstance(rule.expected.value, e) ==> !b
    ensures rule.expected.Some? && IsInstance(rule.expected.value, e) ==>
      (b <==> forall i :: 0 <= i < |rule.messages| ==>
                 rule.messages[i].Some? && Contains(MessageText(e), rule.messages[i].value))
  {
    rule.expected.Some? && IsInstance(rule.expected.value, e) && MessagesMatch(rule.messages, MessageText(e))
  }

  /** With no fragments, an instance of the expected class is accepted whatever its message. */
  lemma AcceptsWithoutMessages(c: ClassName, e: Throwable)
    requires IsInstance(c, e)
    ensures Accepts(Rule(Some(c), []), e)
  {
  }

  /** A recorded `null` fragment makes every exception a mismatch. */
  lemma NullFragmentRejects(rule: Rule, i: nat, e: Throwable)
    requires i < |rule.messages| && rule.messages[i].None?
    ensures !Accepts(rule, e)
  {
  }

  class ExpectedException {
    var expected: Option<ClassName>
    var messages: seq<Option<string>>

    function State(): Rule
      reads this
    {
      Rule(expected, messages)
    }

    /** No expected class, no fragments. */
    constructor ()
      ensures State() == Rule(None, [])
    {
      expected := None;
      messages := [];
    }

    /** `none()`: a fresh rule that expects nothing. */
    static method NoneExpected() returns (e: ExpectedException)
      ensures fresh(e) && e.State() == Rule(None, [])
    {
      e := new ExpectedException();
    }

    function GetExpectedException(): (c: Option<ClassName>)
      reads this
      ensures c == State().expected
    {
      expected
    }

    /**
     * `expect(c)`: the last call wins, `expect(null)` (`None`) going back to
     * expecting nothing; the fragments stay; returns this object.
     */
    method Expect(c: Option<ClassName>) returns (self: ExpectedException)
      modifies this
      ensures self == this
      ensures State() == Rule(c, old(messages))
    {
      expected := c;
      self := this;
    }

    /** `expectMessage(m)`: appends, keeping duplicates and `null`s; returns this object. */
    method ExpectMessage(m: Option<string>) returns (self: ExpectedException)
      modifies this
      ensures self == this
      ensures State() == Rule(old(expected), old(messages) + [m])
    {
      messages := messages + [m];
      self := this;
    }

    /** `assertExpected(e)`, changing nothing. */
    method AssertExpected(e: Throwable) returns (b: bool)
      ensures b == Accepts(State(), e)
    {
      if expected.None? || !IsInstance(expected.value, e) {
        return false;
      }
      var text := if e.message.None? then "" else e.message.value;
      var i := 0;
      while i < |messages|
        invariant 0 <= i <= |messages|
        invariant forall j :: 0 <= j < i ==> messages[j].Some? && Contains(text, messages[j].value)
      {
        if messages[i].None? || !Contains(text, messages[i].value) {
          return false;
        }
        i := i + 1;
      }
      return true;
    }
  }
}
