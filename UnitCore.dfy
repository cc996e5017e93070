/**
 * `OOPUnitCore`: the annotation-driven test runner. Reflection is replaced by
 * a registry: a test class is its `@OOPTestClass` annotation, its own
 * declaration and the declarations of its superclasses (methods with their
 * `@OOPSetup`, `@OOPBefore`, `@OOPAfter` and `@OOPTest` annotations, fields
 * with their `@OOPExceptionRule` marks). What the methods do, what the
 * no-argument constructor yields and what `clone()` and copy constructors
 * return come from a `Runtime` given as a parameter.
 */
module UnitCore {
  import opened Wrappers
  import opened JavaLang
  import opened TestResults
  import opened TestSummary
  import opened ExpectedExceptions
  import Sorting

  const ASSERTION_FAILURE: ClassName := "OOP.Provided.OOPAssertionFailure"

  datatype ClassType = ORDERED | UNORDERED

  /** `@OOPTest(tag = ..., order = ...)`. */
  datatype TestAnnotation = TestAnnotation(tag: string, order: int)

  /**
   * A declared method and the annotations the runner looks at: `setup` for
   * `@OOPSetup`, the name lists of `@OOPBefore` and `@OOPAfter`, and `@OOPTest`.
   */
  datatype MethodDecl = MethodDecl(
    name: string,
    setup: bool,
    before: Option<seq<string>>,
    after: Option<seq<string>>,
    test: Option<TestAnnotation>)

  /** A declared field; `exceptionRule` for `@OOPExceptionRule`. */
  datatype FieldDecl = FieldDecl(name: string, exceptionRule: bool)

  /** A class's declared methods and fields, in the order the runtime lists them. */
  datatype ClassDecl = ClassDecl(name: ClassName, methods: seq<MethodDecl>, fields: seq<FieldDecl>)

  /** The class handed to `runClass`: its `@OOPTestClass` value if annotated, itself, and its superclasses nearest first. */
  datatype TestClass = TestClass(annotation: Option<ClassType>, self: ClassDecl, supers: seq<ClassDecl>)

  /** The walk `clazz = clazz.getSuperclass()` performs: the class, then its ancestors. */
  function Chain(c: TestClass): (chain: seq<ClassDecl>)
    ensures |chain| == |c.supers| + 1 && chain[0] == c.self
  {
    [c.self] + c.supers
  }

  /** A field value: `null`, an exception rule object, or any other object. */
  datatype Value = Null | RuleValue(rule: Rule) | Object(id: int, policy: CopyPolicy)

  /** A field is named by its declaring class and its name. */
  type FieldKey = (ClassName, string)
  type Fields = map<FieldKey, Value>

  function Get(f: Fields, k: FieldKey): Value
  {
    if k in f then f[k] else Null
  }

  type MethodRef = (ClassName, string)

  /**
   * The result of `Method.invoke`: the field values afterwards, and the cause
   * when the method threw. `Refused` is `invoke` itself throwing without
   * running the method (an `IllegalArgumentException` for a method that takes
   * parameters); the exception caught then has a `null` cause.
   */
  datatype Invocation = Returned(fields: Fields) | Threw(fields: Fields, cause: Throwable) | Refused(fields: Fields)

  /**
   * What the model does not compute itself: the no-argument constructor's
   * field values (`None` when it throws), the behaviour of each method on the
   * fields, the text of an `OOPExceptionMismatchError`, and `clone()` and copy
   * constructors.
   */
  datatype Runtime = Runtime(
    construct: ClassName -> Option<Fields>,
    invoke: (MethodRef, Fields) -> Invocation,
    mismatchMessage: (Option<ClassName>, ClassName) -> string,
    clone: Value -> Value,
    copy: Value -> Value)

  // ---------------------------------------------------------------- hooks

  datatype Hook = Setup | Before(test: string) | After(test: string)

  /** Whether `m` carries the annotation of hook `h` (for before/after hooks: with the test's name in its list). */
  predicate Selects(h: Hook, m: MethodDecl)
  {
    match h
    case Setup => m.setup
    case Before(t) => m.before.Some? && t in m.before.value
    case After(t) => m.after.Some? && t in m.after.value
  }

  /**
   * The selected methods among `ms` (declared by `owner`) run in order on the
   * fields. A hook's exception is swallowed, so the fields it leaves behind
   * are kept whether it returned or threw.
   */
  function RunMethods(rt: Runtime, owner: ClassName, ms: seq<MethodDecl>, h: Hook, f: Fields): (r: Fields)
    ensures (forall j :: 0 <= j < |ms| ==> !Selects(h, ms[j])) ==> r == f
  {
    if ms == [] then f
    else
      var g := RunMethods(rt, owner, ms[..|ms| - 1], h, f);
      var m := ms[|ms| - 1];
      if Selects(h, m) then rt.invoke((owner, m.name), g).fields else g
  }

  /** `runAnnotatedMethods` / `runAnnotatedMethodsForTest`: every class of the chain, most derived first. */
  function RunChain(rt: Runtime, chain: seq<ClassDecl>, h: Hook, f: Fields): (r: Fields)
    ensures (forall i, j :: 0 <= i < |chain| && 0 <= j < |chain[i].methods| ==> !Selects(h, chain[i].methods[j])) ==> r == f
  {
    if chain == [] then f
    else
      var last := chain[|chain| - 1];
      RunMethods(rt, last.name, last.methods, h, RunChain(rt, chain[..|chain| - 1], h, f))
  }

  // ------------------------------------------------------ exception rule

  /** The cast `(OOPExpectedException) field.get(instance)`: `null` passes, another object fails. */
  function CastRule(v: Value): (r: Result<Option<Rule>, ClassName>)
    ensures r.Err? <==> v.Object?
    ensures r == Ok(None) <==> v.Null?
  {
    match v
    case Null => Ok(None)
    case RuleValue(rule) => Ok(Some(rule))
    case Object(_, _) => Err(CLASS_CAST)
  }

  /** The position of the first `@OOPExceptionRule` field among `fs`. */
  function FirstRuleField(fs: seq<FieldDecl>): (r: Option<nat>)
    ensures r.Some? ==> r.value < |fs| && fs[r.value].exceptionRule
    ensures r.Some? ==> forall j :: 0 <= j < r.value ==> !fs[j].exceptionRule
    ensures r.None? ==> forall j :: 0 <= j < |fs| ==> !fs[j].exceptionRule
  {
    if fs == [] then None
    else if fs[0].exceptionRule then Some(0)
    else match FirstRuleField(fs[1..])
      case Some(j) => Some(j + 1)
      case None => None
  }

  /**
   * `getExpectedExceptionField`: the value of the first rule-annotated field
   * met walking the chain, or `null` when there is none; an object that is not
   * a rule makes the cast throw.
   */
  function RuleOf(chain: seq<ClassDecl>, f: Fields): (r: Result<Option<Rule>, ClassName>)
    ensures (forall i, j :: 0 <= i < |chain| && 0 <= j < |chain[i].fields| ==> !chain[i].fields[j].exceptionRule)
              ==> r == Ok(None)
  {
    if chain == [] then Ok(None)
    else match FirstRuleField(chain[0].fields)
      case Some(j) => CastRule(Get(f, (chain[0].name, chain[0].fields[j].name)))
      case None =>
        assert forall i, j :: 0 <= i < |chain[1..]| && 0 <= j < |chain[1..][i].fields| ==>
          chain[1..][i].fields[j] == chain[i + 1].fields[j];
        RuleOf(chain[1..], f)
  }

  /**
   * The first rule-annotated field decides, even when it holds `null`: later
   * rule fields, in the same class or in ancestors, are never looked at.
   */
  lemma {:induction false} FirstRuleFieldDecides(chain: seq<ClassDecl>, f: Fields, i: nat, j: nat)
    requires i < |chain| && j < |chain[i].fields| && chain[i].fields[j].exceptionRule
    requires forall i', j' :: 0 <= i' < i && 0 <= j' < |chain[i'].fields| ==> !chain[i'].fields[j'].exceptionRule
    requires forall j' :: 0 <= j' < j ==> !chain[i].fields[j'].exceptionRule
    ensures RuleOf(chain, f) == CastRule(Get(f, (chain[i].name, chain[i].fields[j].name)))
  {
    if i == 0 {
      assert FirstRuleField(chain[0].fields) == Some(j);
    } else {
      assert FirstRuleField(chain[0].fields).None?;
      assert chain[1..][i - 1] == chain[i];
      FirstRuleFieldDecides(chain[1..], f, i - 1, j);
    }
  }

  // ------------------------------------------------------ classification

  /**
   * The result recorded for a body that threw `cause`, given the exception
   * rule read after the body ran.
   */
  function Classify(rt: Runtime, rule: Result<Option<Rule>, ClassName>, cause: Throwable): (r: Result<TestResult, ClassName>)
    ensures rule.Err? ==> r == Err(rule.error)
    ensures rule.Ok? ==> r.Ok?
    ensures r.Ok? && r.value.kind == SUCCESS <==>
      rule.Ok? && rule.value.Some? && IsException(cause) && Accepts(rule.value.value, cause)
    ensures r.Ok? && r.value.kind == EXPECTED_EXCEPTION_MISMATCH <==>
      rule.Ok? && rule.value.Some? && IsException(cause) && !Accepts(rule.value.value, cause)
    ensures r.Ok? && r.value.kind == FAILURE <==>
      rule == Ok(None) && IsInstance(ASSERTION_FAILURE, cause)
    ensures r.Ok? && r.value.kind == ERROR <==>
      rule.Ok? && (if rule.value.Some? then !IsException(cause) else !IsInstance(ASSERTION_FAILURE, cause))
    ensures r.Ok? && r.value.kind == SUCCESS ==> r.value.message == None
    ensures r.Ok? && r.value.kind == FAILURE ==> r.value.message == cause.message
    ensures r.Ok? && r.value.kind == ERROR ==> r.value.message == Some(cause.cls)
  {
    match rule
    case Err(x) => Err(x)
    case Ok(Some(expectation)) =>
      if IsException(cause) then
        if Accepts(expectation, cause) then Ok(TestResult(SUCCESS, None))
        else Ok(TestResult(EXPECTED_EXCEPTION_MISMATCH, Some(rt.mismatchMessage(expectation.expected, cause.cls))))
      else Ok(TestResult(ERROR, Some(cause.cls)))
    case Ok(None) =>
      if IsInstance(ASSERTION_FAILURE, cause) then Ok(TestResult(FAILURE, cause.message))
      else Ok(TestResult(ERROR, Some(cause.cls)))
  }

  /**
   * A body that returns normally is a success with a `null` message, whatever
   * the rule expects. When `invoke` refuses the call, the cause is `null`:
   * after the rule is read, both branches of the `catch` call
   * `cause.getClass()`, and the NullPointerException leaves `runClass`.
   */
  function BodyResult(rt: Runtime, chain: seq<ClassDecl>, inv: Invocation): (r: Result<TestResult, ClassName>)
    ensures inv.Returned? ==> r == Ok(TestResult(SUCCESS, None))
    ensures inv.Threw? ==> r == Classify(rt, RuleOf(chain, inv.fields), inv.cause)
    ensures inv.Refused? ==> r.Err?
    ensures inv.Refused? && RuleOf(chain, inv.fields).Ok? ==> r == Err(NULL_POINTER)
    ensures inv.Refused? && RuleOf(chain, inv.fields).Err? ==> r == Err(RuleOf(chain, inv.fields).error)
  {
    match inv
    case Returned(_) => Ok(TestResult(SUCCESS, None))
    case Threw(f, cause) => Classify(rt, RuleOf(chain, f), cause)
    case Refused(f) =>
      var rule := RuleOf(chain, f);
      if rule.Err? then Err(rule.error) else Err(NULL_POINTER)
  }

  // ------------------------------------------------------------ selection

  /** A test is selected when it carries `@OOPTest` and the tag is empty or equal to its own. */
  predicate IsSelected(tag: string, m: MethodDecl)
  {
    m.test.Some? && (tag == "" || m.test.value.tag == tag)
  }

  /** The selected tests among the class's own declared methods, in the order the runtime lists them. */
  function SelectTests(ms: seq<MethodDecl>, tag: string): (r: seq<MethodDecl>)
    ensures forall m :: m in r <==> m in ms && IsSelected(tag, m)
    ensures |r| <= |ms|
  {
    if ms == [] then []
    else
      var rest := SelectTests(ms[..|ms| - 1], tag);
      assert forall m :: m in ms <==> m in ms[..|ms| - 1] || m == ms[|ms| - 1];
      if IsSelected(tag, ms[|ms| - 1]) then rest + [ms[|ms| - 1]] else rest
  }

  function OrderOf(m: MethodDecl): int
  {
    if m.test.Some? then m.test.value.order else 0
  }

  function OrderLe(a: MethodDecl, b: MethodDecl): bool
  {
    OrderOf(a) <= OrderOf(b)
  }

  lemma OrderLeTotal()
    ensures Sorting.TotalPreorder(OrderLe)
  {
  }

  /** The tests in the order they run: stably sorted by `order` for an ORDERED class. */
  function Schedule(c: TestClass, tag: string): seq<MethodDecl>
  {
    var selected := SelectTests(c.self.methods, tag);
    if c.annotation == Some(ORDERED) then
      OrderLeTotal();
      Sorting.InsertionSort(selected, OrderLe)
    else selected
  }

  /** The tests with order `k` appear in `a` in the same order as in `b`. */
  predicate SameOrderSubsequence(a: seq<MethodDecl>, b: seq<MethodDecl>, k: int)
  {
    Sorting.Filter(a, m => OrderOf(m) == k) == Sorting.Filter(b, m => OrderOf(m) == k)
  }

  /**
   * Exactly the selected own tests run (inherited tests never do), in
   * the order the runtime lists them unless the class is ORDERED; then in
   * ascending `order`, tests with equal `order` keeping that order.
   */
  lemma ScheduleIsSelection(c: TestClass, tag: string)
    ensures forall m :: m in Schedule(c, tag) <==> m in c.self.methods && IsSelected(tag, m)
    ensures c.annotation != Some(ORDERED) ==> Schedule(c, tag) == SelectTests(c.self.methods, tag)
    ensures c.annotation == Some(ORDERED) ==>
      && Sorting.SortedBy(Schedule(c, tag), OrderLe)
      && multiset(Schedule(c, tag)) == multiset(SelectTests(c.self.methods, tag))
      && forall k :: SameOrderSubsequence(Schedule(c, tag), SelectTests(c.self.methods, tag), k)
  {
    var selected := SelectTests(c.self.methods, tag);
    if c.annotation == Some(ORDERED) {
      OrderLeTotal();
      Sorting.MultisetSameElements(Schedule(c, tag), selected);
      forall k ensures SameOrderSubsequence(Schedule(c, tag), selected, k) {
        var x := MethodDecl("", false, None, None, Some(TestAnnotation("", k)));
        Sorting.InsertionSortStable(selected, OrderLe, x, m => OrderOf(m) == k);
      }
    }
  }

  // ------------------------------------------------------------- the run

  /** The runner's state between tests: the instance's fields and the results so far. */
  datatype RunState = RunState(fields: Fields, results: seq<Entry>)

  /**
   * One test: before-hooks, the body, the result, after-hooks; a rule field
   * holding a non-rule object aborts the run.
   */
  function TestStep(rt: Runtime, c: TestClass, st: RunState, t: MethodDecl): Result<RunState, ClassName>
  {
    var chain := Chain(c);
    var body := rt.invoke((c.self.name, t.name), RunChain(rt, chain, Before(t.name), st.fields));
    match BodyResult(rt, chain, body)
    case Err(x) => Err(x)
    case Ok(result) => Ok(RunState(RunChain(rt, chain, After(t.name), body.fields), Put(st.results, t.name, result)))
  }

  /**
   * A test's entry is the result of its body alone: it is fixed before the
   * after-hooks run, so nothing they do changes it, and the other entries stay.
   */
  lemma TestStepRecords(rt: Runtime, c: TestClass, st: RunState, t: MethodDecl)
    ensures
      var body := rt.invoke((c.self.name, t.name), RunChain(rt, Chain(c), Before(t.name), st.fields));
      var r := TestStep(rt, c, st, t);
      && (r.Ok? <==> BodyResult(rt, Chain(c), body).Ok?)
      && (r.Ok? ==> Lookup(r.value.results, t.name) == Some(BodyResult(rt, Chain(c), body).value))
      && (r.Ok? ==> forall k :: k != t.name ==> Lookup(r.value.results, k) == Lookup(st.results, k))
  {
  }

  /**
   * A test method that `invoke` refuses, such as one that takes parameters,
   * ends the whole run with a NullPointerException, unless reading the rule
   * field threw first.
   */
  lemma RefusedTestAborts(rt: Runtime, c: TestClass, st: RunState, t: MethodDecl)
    requires rt.invoke((c.self.name, t.name), RunChain(rt, Chain(c), Before(t.name), st.fields)).Refused?
    requires RuleOf(Chain(c), rt.invoke((c.self.name, t.name), RunChain(rt, Chain(c), Before(t.name), st.fields)).fields).Ok?
    ensures TestStep(rt, c, st, t) == Err(NULL_POINTER)
  {
  }

  /** The run's state after a test pass that produced `r`, the instance holding `fields`. */
  function Resumed(r: Result<seq<Entry>, ClassName>, fields: Fields): (s: Result<RunState, ClassName>)
    ensures s.Err? <==> r.Err?
    ensures r.Err? ==> s.error == r.error
    ensures r.Ok? ==> s.value.results == r.value && s.value.fields == fields
  {
    match r
    case Err(x) => Err(x)
    case Ok(results) => Ok(RunState(fields, results))
  }

  /** The tests run one after the other; an aborted test aborts the run. */
  function RunTests(rt: Runtime, c: TestClass, tests: seq<MethodDecl>, st: RunState): Result<RunState, ClassName>
  {
    if tests == [] then Ok(st)
    else match RunTests(rt, c, tests[..|tests| - 1], st)
      case Err(x) => Err(x)
      case Ok(s) => TestStep(rt, c, s, tests[|tests| - 1])
  }

  function Names(tests: seq<MethodDecl>): (ns: seq<string>)
    ensures |ns| == |tests|
    ensures forall i :: 0 <= i < |tests| ==> ns[i] == tests[i].name
  {
    if tests == [] then [] else Names(tests[..|tests| - 1]) + [tests[|tests| - 1].name]
  }

  predicate DistinctNames(tests: seq<MethodDecl>)
  {
    forall i, j :: 0 <= i < j < |tests| ==> tests[i].name != tests[j].name
  }

  /** The result map gets exactly one entry per test that ran, in the order they ran. */
  lemma {:induction false} RunTestsKeys(rt: Runtime, c: TestClass, tests: seq<MethodDecl>, f: Fields)
    requires DistinctNames(tests)
    ensures RunTests(rt, c, tests, RunState(f, [])).Ok? ==>
      Keys(RunTests(rt, c, tests, RunState(f, [])).value.results) == Names(tests)
  {
    if tests != [] {
      var init := tests[..|tests| - 1];
      assert DistinctNames(init);
      RunTestsKeys(rt, c, init, f);
      var prev := RunTests(rt, c, init, RunState(f, []));
      if prev.Ok? {
        var t := tests[|tests| - 1];
        assert forall i :: 0 <= i < |init| ==> Names(init)[i] != t.name;
        assert t.name !in Names(init);
      }
    }
  }

  /** How `runClass` ends: an exception, a `null` summary, or a summary. */
  datatype RunOutcome = Thrown(exception: ClassName) | NullSummary | Ran(summary: Summary)

  /**
   * `runClass(testClass, tag)`: a missing or unannotated class is refused
   * before anything runs; a class that cannot be constructed yields `null`;
   * otherwise setup methods run once, then every scheduled test.
   */
  function RunSpec(c: Option<TestClass>, tag: string, rt: Runtime): (o: RunOutcome)
    ensures c.None? || c.value.annotation.None? ==> o == Thrown(ILLEGAL_ARGUMENT)
    ensures c.Some? && c.value.annotation.Some? && rt.construct(c.value.self.name).None? ==> o == NullSummary
  {
    match c
    case None => Thrown(ILLEGAL_ARGUMENT)
    case Some(tc) =>
      if tc.annotation.None? then Thrown(ILLEGAL_ARGUMENT)
      else match rt.construct(tc.self.name)
        case None => NullSummary
        case Some(init) =>
          var afterSetup := RunChain(rt, Chain(tc), Setup, init);
          match RunTests(rt, tc, Schedule(tc, tag), RunState(afterSetup, []))
          case Err(x) => Thrown(x)
          case Ok(st) => Ran(Summary(st.results))
  }

  /**
   * A run that ends with a summary has one entry per scheduled test, in
   * execution order, when the selected test names are distinct (a class that
   * overloads a test name is not covered).
   */
  lemma SummaryMatchesSchedule(tc: TestClass, tag: string, rt: Runtime)
    requires DistinctNames(SelectTests(tc.self.methods, tag))
    ensures RunSpec(Some(tc), tag, rt).Ran? ==>
      Keys(RunSpec(Some(tc), tag, rt).summary.results) == Names(Schedule(tc, tag))
  {
    var sched := Schedule(tc, tag);
    var selected := SelectTests(tc.self.methods, tag);
    assert DistinctNames(sched) by {
      if tc.annotation == Some(ORDERED) {
        ScheduleIsSelection(tc, tag);
        DistinctPermutation(selected, sched);
      }
    }
    if tc.annotation.Some? && rt.construct(tc.self.name).Some? {
      RunTestsKeys(rt, tc, sched, RunChain(rt, Chain(tc), Setup, rt.construct(tc.self.name).value));
    }
  }

  lemma DistinctPermutation(a: seq<MethodDecl>, b: seq<MethodDecl>)
    requires DistinctNames(a) && multiset(a) == multiset(b)
    ensures DistinctNames(b)
  {
    forall i, j | 0 <= i < j < |b| ensures b[i].name != b[j].name {
      NamesDiffer(a, b, i, j);
    }
  }

  lemma NamesDiffer(a: seq<MethodDecl>, b: seq<MethodDecl>, i: nat, j: nat)
    requires DistinctNames(a) && multiset(a) == multiset(b) && i < j < |b|
    ensures b[i].name != b[j].name
  {
    assert b[i] in multiset(b) && b[j] in multiset(b);
    var i' := Sorting.IndexOf(a, b[i]);
    var j' := Sorting.IndexOf(a, b[j]);
    OccursOnce(a, i');
    Sorting.RepeatedCountsTwice(b, i, j);
  }

  /** In a sequence whose names are distinct, each element occurs once. */
  lemma {:induction false} OccursOnce(a: seq<MethodDecl>, i: nat)
    requires DistinctNames(a) && i < |a|
    ensures multiset(a)[a[i]] == 1
  {
    var x := a[i];
    assert a == a[..i] + [x] + a[i + 1..];
    assert forall k :: 0 <= k < |a| && k != i ==> a[k] != x;
    assert x !in a[..i];
    assert x !in a[i + 1..];
    assert multiset(a) == multiset(a[..i]) + multiset{x} + multiset(a[i + 1..]);
  }

  // ------------------------------------------------------------ snapshots

  /** What `backupState` stores for a field value. */
  function Snapshot(rt: Runtime, v: Value): (w: Value)
    ensures v.Null? ==> w == Null
    ensures v.Object? && v.policy == Cloneable ==> w == rt.clone(v)
    ensures v.Object? && v.policy == CopyConstructor ==> w == rt.copy(v)
    ensures v.RuleValue? || (v.Object? && v.policy == NoCopy) ==> w == v
  {
    match v
    case Null => Null
    case RuleValue(_) => v
    case Object(_, policy) =>
      match policy
      case Cloneable => rt.clone(v)
      case CopyConstructor => rt.copy(v)
      case NoCopy => v
  }

  /** The fields `getDeclaredFields` lists for `owner`, in order. */
  function FieldKeys(owner: ClassName, fs: seq<FieldDecl>): (ks: seq<FieldKey>)
    ensures |ks| == |fs|
    ensures forall j :: 0 <= j < |fs| ==> ks[j] == (owner, fs[j].name)
  {
    if fs == [] then [] else FieldKeys(owner, fs[..|fs| - 1]) + [(owner, fs[|fs| - 1].name)]
  }

  /** Every field of every class on the chain. */
  function ChainKeys(chain: seq<ClassDecl>): seq<FieldKey>
  {
    if chain == [] then []
    else ChainKeys(chain[..|chain| - 1]) + FieldKeys(chain[|chain| - 1].name, chain[|chain| - 1].fields)
  }

  lemma ChainKeysSnoc(chain: seq<ClassDecl>, i: nat)
    requires i < |chain|
    ensures ChainKeys(chain[..i + 1]) == ChainKeys(chain[..i]) + FieldKeys(chain[i].name, chain[i].fields)
  {
    assert chain[..i + 1][..i] == chain[..i];
  }

  /** The inner loop of `backupState`: each listed field is added to `acc` as a snapshot of its value in `f`. */
  method SnapshotFields(rt: Runtime, acc: Fields, f: Fields, keys: seq<FieldKey>) returns (g: Fields)
    requires forall k :: k in acc ==> acc[k] == Snapshot(rt, Get(f, k))
    ensures forall k :: k in g <==> k in acc || k in keys
    ensures forall k :: k in g ==> g[k] == Snapshot(rt, Get(f, k))
  {
    g := acc;
    var j := 0;
    while j < |keys|
      invariant 0 <= j <= |keys|
      invariant forall k :: k in g <==> k in acc || k in keys[..j]
      invariant forall k :: k in g ==> g[k] == Snapshot(rt, Get(f, k))
    {
      g := g[keys[j] := Snapshot(rt, Get(f, keys[j]))];
      assert keys[..j + 1] == keys[..j] + [keys[j]];
      j := j + 1;
    }
    assert keys[..j] == keys;
  }

  /** The loops of `getExpectedExceptionField` over the chain `clazz = clazz.getSuperclass()` visits. */
  method FindRule(chain: seq<ClassDecl>, f: Fields) returns (r: Result<Option<Rule>, ClassName>)
    ensures r == RuleOf(chain, f)
  {
    var i := 0;
    while i < |chain|
      invariant 0 <= i <= |chain|
      invariant RuleOf(chain[i..], f) == RuleOf(chain, f)
    {
      var c := chain[i];
      assert chain[i..][0] == c;
      var k := FindRuleField(c.fields);
      if k.Some? {
        return CastRule(Get(f, (c.name, c.fields[k.value].name)));
      }
      assert chain[i..][1..] == chain[i + 1..];
      i := i + 1;
    }
    return Ok(None);
  }

  /** The inner loop of `getExpectedExceptionField`: the first rule-annotated field of one class. */
  method FindRuleField(fs: seq<FieldDecl>) returns (r: Option<nat>)
    ensures r == FirstRuleField(fs)
  {
    var j := 0;
    while j < |fs|
      invariant 0 <= j <= |fs|
      invariant forall j' :: 0 <= j' < j ==> !fs[j'].exceptionRule
    {
      if fs[j].exceptionRule {
        return Some(j);
      }
      j := j + 1;
    }
    return None;
  }

  /** The inner loop of `restoreState`: each listed field takes its value in `source`; the other entries stay. */
  method CopyFields(f: Fields, source: Fields, keys: seq<FieldKey>) returns (g: Fields)
    ensures forall k :: k in keys ==> Get(g, k) == Get(source, k)
    ensures forall k :: k !in keys ==> Get(g, k) == Get(f, k)
  {
    g := f;
    var j := 0;
    while j < |keys|
      invariant 0 <= j <= |keys|
      invariant forall k :: k in keys[..j] ==> Get(g, k) == Get(source, k)
      invariant forall k :: k !in keys[..j] ==> Get(g, k) == Get(f, k)
    {
      g := g[keys[j] := Get(source, keys[j])];
      assert keys[..j + 1] == keys[..j] + [keys[j]];
      j := j + 1;
    }
    assert keys[..j] == keys;
  }

  /** An instance of the test class: its field values. */
  class TestInstance {
    const testClass: TestClass
    var fields: Fields

    constructor (c: TestClass, init: Fields)
      ensures testClass == c && fields == init
    {
      testClass := c;
      fields := init;
    }

    /** `method.invoke(instance)`: the method runs on the fields and leaves them changed. */
    method Invoke(rt: Runtime, m: MethodRef) returns (inv: Invocation)
      modifies this
      ensures inv == rt.invoke(m, old(fields))
      ensures fields == inv.fields
    {
      inv := rt.invoke(m, fields);
      fields := inv.fields;
    }

    /** `runAnnotatedMethods` and `runAnnotatedMethodsForTest`: each hook method of the chain, exceptions swallowed. */
    method RunHooks(rt: Runtime, h: Hook)
      modifies this
      ensures fields == RunChain(rt, Chain(testClass), h, old(fields))
    {
      var chain := Chain(testClass);
      var i := 0;
      while i < |chain|
        invariant 0 <= i <= |chain|
        invariant fields == RunChain(rt, chain[..i], h, old(fields))
      {
        RunClassHooks(rt, chain[i], h);
        assert chain[..i + 1][..i] == chain[..i];
        i := i + 1;
      }
      assert chain[..i] == chain;
    }

    /** The hook methods one class of the chain declares, in the order the runtime lists them. */
    method RunClassHooks(rt: Runtime, c: ClassDecl, h: Hook)
      modifies this
      ensures fields == RunMethods(rt, c.name, c.methods, h, old(fields))
    {
      var j := 0;
      while j < |c.methods|
        invariant 0 <= j <= |c.methods|
        invariant fields == RunMethods(rt, c.name, c.methods[..j], h, old(fields))
      {
        var m := c.methods[j];
        if Selects(h, m) {
          var _ := Invoke(rt, (c.name, m.name));
        }
        assert c.methods[..j + 1][..j] == c.methods[..j];
        j := j + 1;
      }
      assert c.methods[..j] == c.methods;
    }

    /** `getExpectedExceptionField`, changing nothing. */
    method GetExpectedExceptionField() returns (r: Result<Option<Rule>, ClassName>)
      ensures r == RuleOf(Chain(testClass), fields)
    {
      r := FindRule(Chain(testClass), fields);
    }

    /**
     * `backupState`: a new instance whose every chain field holds the
     * snapshot of this instance's value; this instance is unchanged.
     */
    method BackupState(rt: Runtime) returns (backup: TestInstance)
      ensures fresh(backup) && backup.testClass == testClass
      ensures forall k :: k in backup.fields <==> k in ChainKeys(Chain(testClass))
      ensures forall k :: k in backup.fields ==> backup.fields[k] == Snapshot(rt, Get(fields, k))
    {
      backup := new TestInstance(testClass, map[]);
      var chain := Chain(testClass);
      var i := 0;
      while i < |chain|
        invariant 0 <= i <= |chain|
        invariant forall k :: k in backup.fields <==> k in ChainKeys(chain[..i])
        invariant forall k :: k in backup.fields ==> backup.fields[k] == Snapshot(rt, Get(fields, k))
      {
        var c := chain[i];
        backup.fields := SnapshotFields(rt, backup.fields, fields, FieldKeys(c.name, c.fields));
        ChainKeysSnoc(chain, i);
        i := i + 1;
      }
      assert chain[..i] == chain;
    }

    /** `restoreState`: every chain field takes the backup's value; other entries stay. */
    method RestoreState(backup: TestInstance)
      modifies this
      ensures forall k :: k in ChainKeys(Chain(testClass)) ==> Get(fields, k) == Get(backup.fields, k)
      ensures forall k :: k !in ChainKeys(Chain(testClass)) ==> Get(fields, k) == Get(old(fields), k)
    {
      var chain := Chain(testClass);
      var source := backup.fields;
      var i := 0;
      while i < |chain|
        invariant 0 <= i <= |chain|
        invariant forall k :: k in ChainKeys(chain[..i]) ==> Get(fields, k) == Get(source, k)
        invariant forall k :: k !in ChainKeys(chain[..i]) ==> Get(fields, k) == Get(old(fields), k)
      {
        var c := chain[i];
        fields := CopyFields(fields, source, FieldKeys(c.name, c.fields));
        ChainKeysSnoc(chain, i);
        i := i + 1;
      }
      assert chain[..i] == chain;
    }
  }

  /** The test-collection loop of `runClass`: own declared methods only. */
  method CollectTests(ms: seq<MethodDecl>, tag: string) returns (tests: seq<MethodDecl>)
    ensures tests == SelectTests(ms, tag)
  {
    tests := [];
    var i := 0;
    while i < |ms|
      invariant 0 <= i <= |ms|
      invariant tests == SelectTests(ms[..i], tag)
    {
      if ms[i].test.Some? && (tag == "" || ms[i].test.value.tag == tag) {
        tests := tests + [ms[i]];
      }
      assert ms[..i + 1][..i] == ms[..i];
      i := i + 1;
    }
    assert ms[..i] == ms;
  }

  /**
   * One pass of the test loop of `runClass`: snapshot, before-hooks, body,
   * result, after-hooks. The snapshot would only be read back if a
   * before-hook threw, and hooks swallow their exceptions, so the restore
   * branch and the branch turning an after-hook failure into ERROR never run.
   */
  method ExecuteTest(rt: Runtime, instance: TestInstance, results: seq<Entry>, t: MethodDecl)
    returns (r: Result<seq<Entry>, ClassName>)
    modifies instance
    ensures TestStep(rt, instance.testClass, RunState(old(instance.fields), results), t) == Resumed(r, instance.fields)
  {
    var tc := instance.testClass;
    var _ := instance.BackupState(rt);
    instance.RunHooks(rt, Before(t.name));
    var body := instance.Invoke(rt, (tc.self.name, t.name));
    var result: TestResult;
    if body.Returned? {
      result := TestResult(SUCCESS, None);
    } else {
      var rule := instance.GetExpectedExceptionField();
      if body.Refused? {
        if rule.Err? {
          return Err(rule.error);
        }
        return Err(NULL_POINTER);
      }
      var classified := Classify(rt, rule, body.cause);
      if classified.Err? {
        return Err(classified.error);
      }
      result := classified.value;
    }
    instance.RunHooks(rt, After(t.name));
    return Ok(Put(results, t.name, result));
  }

  /** The test loop of `runClass`: the scheduled tests, one after the other, on one instance. */
  method RunTestLoop(rt: Runtime, instance: TestInstance, tests: seq<MethodDecl>) returns (r: Result<seq<Entry>, ClassName>)
    modifies instance
    ensures var spec := RunTests(rt, instance.testClass, tests, RunState(old(instance.fields), []));
      && (r.Err? <==> spec.Err?)
      && (r.Err? ==> r.error == spec.error)
      && (r.Ok? ==> r.value == spec.value.results)
  {
    var tc := instance.testClass;
    ghost var start := RunState(instance.fields, []);
    var results: seq<Entry> := [];
    var i := 0;
    while i < |tests|
      invariant 0 <= i <= |tests|
      invariant RunTests(rt, tc, tests[..i], start) == Ok(RunState(instance.fields, results))
    {
      ghost var before := RunState(instance.fields, results);
      var step := ExecuteTest(rt, instance, results, tests[i]);
      RunTestsNext(rt, tc, tests, i, start, before, Resumed(step, instance.fields));
      if step.Err? {
        return Err(step.error);
      }
      results := step.value;
      i := i + 1;
    }
    assert tests[..i] == tests;
    return Ok(results);
  }

  /** `runClass(testClass, tag)`. */
  method RunClass(c: Option<TestClass>, tag: string, rt: Runtime) returns (o: RunOutcome)
    ensures o == RunSpec(c, tag, rt)
  {
    if c.None? || c.value.annotation.None? {
      return Thrown(ILLEGAL_ARGUMENT);
    }
    var tc := c.value;
    var init := rt.construct(tc.self.name);
    if init.None? {
      return NullSummary;
    }
    var instance := new TestInstance(tc, init.value);
    instance.RunHooks(rt, Setup);
    var tests := CollectTests(tc.self.methods, tag);
    if tc.annotation.value == ORDERED {
      OrderLeTotal();
      tests := Sorting.InsertionSort(tests, OrderLe);
    }
    assert tests == Schedule(tc, tag);
    var run := RunTestLoop(rt, instance, tests);
    if run.Err? {
      return Thrown(run.error);
    }
    return Ran(Summary(run.value));
  }

  /**
   * A run that has not aborted after `i` tests runs the next test as one
   * more step, and if that step aborts, so does the whole run.
   */
  lemma RunTestsNext(rt: Runtime, c: TestClass, tests: seq<MethodDecl>, i: nat, st: RunState,
                     before: RunState, after: Result<RunState, ClassName>)
    requires i < |tests| && RunTests(rt, c, tests[..i], st) == Ok(before)
    requires TestStep(rt, c, before, tests[i]) == after
    ensures RunTests(rt, c, tests[..i + 1], st) == after
    ensures after.Err? ==> RunTests(rt, c, tests, st) == after
  {
    RunTestsSnoc(rt, c, tests, i, st);
    if after.Err? {
      RunTestsAborts(rt, c, tests, i + 1, st);
    }
  }

  /** The run of the first `i + 1` tests is the run of the first `i`, then test `i` unless the run has aborted. */
  lemma RunTestsSnoc(rt: Runtime, c: TestClass, tests: seq<MethodDecl>, i: nat, st: RunState)
    requires i < |tests|
    ensures RunTests(rt, c, tests[..i + 1], st)
         == match RunTests(rt, c, tests[..i], st)
            case Err(x) => Err(x)
            case Ok(s) => TestStep(rt, c, s, tests[i])
  {
    assert tests[..i + 1][..i] == tests[..i];
  }

  /** Once a test aborts the run, no later test changes that. */
  lemma {:induction false} RunTestsAborts(rt: Runtime, c: TestClass, tests: seq<MethodDecl>, n: nat, st: RunState)
    requires n <= |tests|
    requires RunTests(rt, c, tests[..n], st).Err?
    ensures RunTests(rt, c, tests, st) == RunTests(rt, c, tests[..n], st)
  {
    if n < |tests| {
      assert tests[..|tests| - 1][..n] == tests[..n];
      RunTestsAborts(rt, c, tests[..|tests| - 1], n, st);
    } else {
      assert tests[..n] == tests;
    }
  }

  /** `runClass(testClass)`: every test, whatever its tag. */
  method RunClassAll(c: Option<TestClass>, rt: Runtime) returns (o: RunOutcome)
    ensures o == RunSpec(c, "", rt)
  {
    o := RunClass(c, "", rt);
  }

  // ----------------------------------------------------------- assertions

  /** The `OOPAssertionFailure` a failed assertion throws. */
  datatype AssertionFailure<T> = NotEqual(expected: Option<T>, actual: Option<T>) | Failed

  /** `Objects.equals(a, b)`: the same reference, or a non-null `a` whose `equals` accepts `b`. */
  function ObjectsEquals<T(==)>(a: Option<T>, b: Option<T>, equals: (T, Option<T>) -> bool): (r: bool)
    ensures a == b ==> r
    ensures a.None? ==> (r <==> b.None?)
    ensures a.Some? && a != b ==> (r <==> equals(a.value, b))
  {
    a == b || (a.Some? && equals(a.value, b))
  }

  /** `assertEquals(expected, actual)`: throws exactly when the two are not `Objects.equals`. */
  function AssertEquals<T(==)>(expected: Option<T>, actual: Option<T>, equals: (T, Option<T>) -> bool)
    : (o: Outcome<AssertionFailure<T>>)
    ensures o.Pass? <==> ObjectsEquals(expected, actual, equals)
    ensures o.Fail? ==> o.error == NotEqual(expected, actual)
  {
    if ObjectsEquals(expected, actual, equals) then Pass else Outcome.Fail(NotEqual(expected, actual))
  }

  /** `fail()`: always throws. */
  function Fail<T>(): (o: Outcome<AssertionFailure<T>>)
    ensures o.Fail? && o.error == Failed
  {
    Outcome.Fail(Failed)
  }
}
