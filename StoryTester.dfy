/**
 * `StoryTesterImpl`: runs a Given/When/Then story against a test class. Each
 * sentence is looked up among the methods of the class and its superclasses
 * by its annotation value with the last word (the placeholder) removed, and
 * the method is invoked with the sentence's last word. A JUnit
 * `ComparisonFailure` from a step is absorbed and counted; the object is
 * backed up at the first `When` of every run of `When`s and restored after a
 * failing `Then`; a story with failures ends in a `StoryTestException`.
 *
 * Reflection is replaced by a registry: a class is its declared step methods
 * and fields, its superclasses and its nested classes. What a step does to the
 * object, what the constructor yields, `Integer.parseInt` and the values a
 * `ComparisonFailure` carries are parameters (`Runtime`).
 */
module StoryTesting {
  import opened Wrappers
  import opened JavaLang
  import opened StoryParsing

  const COMPARISON_FAILURE: ClassName := "org.junit.ComparisonFailure"

  // ------------------------------------------------------------ registry

  /** The three annotations. */
  datatype StepKind = Given | When | Then

  /** `GetAnnotationClass`: "Given" and "When" name their annotations; every other word names `@Then`. */
  function AnnotationClass(name: string): (k: StepKind)
    ensures k == Given <==> name == "Given"
    ensures k == When <==> name == "When"
    ensures k == Then <==> name != "Given" && name != "When"
  {
    if name == "Given" then Given else if name == "When" then When else Then
  }

  /** The type of a step's first parameter: none at all, `int`/`Integer`, or anything else (given the raw word). */
  datatype ParamKind = NoParameter | IntParameter | OtherParameter

  /** A declared method: the value of each of its story annotations, if present. */
  datatype StepMethod = StepMethod(
    name: string,
    givenValue: Option<string>,
    whenValue: Option<string>,
    thenValue: Option<string>,
    param: ParamKind)

  /** `method.getAnnotation(cls)`, reduced to the annotation's value. */
  function AnnotationValue(m: StepMethod, k: StepKind): Option<string>
  {
    match k
    case Given => m.givenValue
    case When => m.whenValue
    case Then => m.thenValue
  }

  /** A class: its name, declared methods and declared (instance) fields, in the order the runtime lists them. */
  datatype ClassDecl = ClassDecl(name: ClassName, methods: seq<StepMethod>, fields: seq<string>)

  /**
   * A test class with its superclasses (nearest first, `Object` left out) and
   * its nested classes. An interface has no superclass, so a search does not
   * read its `supers`.
   */
  datatype StoryClass = StoryClass(decl: ClassDecl, supers: seq<ClassDecl>, isInterface: bool, nested: seq<StoryClass>)

  function Chain(c: StoryClass): (chain: seq<ClassDecl>)
    ensures chain != [] && chain[0] == c.decl
  {
    [c.decl] + c.supers
  }

  // -------------------------------------------------------------- lookup

  /**
   * `hasAnnotation(method, annotation, value)`: the method carries the
   * annotation named by `annotation`, and that annotation's value up to its
   * last space is `value`. An unknown name looks for `@Then` but reads no
   * value, so it never matches; a value without a space makes `substring`
   * throw.
   */
  function HasAnnotation(m: StepMethod, annotation: string, value: string): (r: Result<bool, ClassName>)
    ensures annotation != "Given" && annotation != "When" && annotation != "Then" ==> r == Ok(false)
    ensures AnnotationValue(m, AnnotationClass(annotation)).None? ==> r == Ok(false)
    ensures r.Err? ==> r.error == STRING_INDEX
  {
    var present := AnnotationValue(m, AnnotationClass(annotation));
    if present.None? then Ok(false)
    else
      var v :=
        if annotation == "Given" then m.givenValue
        else if annotation == "When" then m.whenValue
        else if annotation == "Then" then m.thenValue
        else None;
      if v.None? then Ok(false)
      else if ' ' !in v.value then Err(STRING_INDEX)
      else Ok(v.value[..LastIndexOf(v.value, ' ')] == value)
  }

  /**
   * A step annotated `key placeholder` matches exactly the sentences whose key
   * is `key`, whatever they pass for the placeholder.
   */
  lemma AnnotationMatchesKey(m: StepMethod, annotation: string, key: string, placeholder: string, value: string)
    requires annotation == "Given" || annotation == "When" || annotation == "Then"
    requires AnnotationValue(m, AnnotationClass(annotation)) == Some(key + " " + placeholder)
    requires ' ' !in placeholder
    ensures HasAnnotation(m, annotation, value) == Ok(value == key)
  {
    var v := key + " " + placeholder;
    assert v[|key|] == ' ';
    assert forall k :: |key| < k < |v| ==> v[k] == placeholder[k - |key| - 1];
    LastIndexOfAt(v, ' ', |key|);
    assert v[..|key|] == key;
  }

  /** A sentence written as `keyword key parameter` finds a step annotated `key placeholder` of its kind. */
  lemma SentenceFindsStep(m: StepMethod, x: Sentence, placeholder: string)
    requires WellFormed(x) && (x.keyword == "Given" || x.keyword == "When" || x.keyword == "Then")
    requires AnnotationValue(m, AnnotationClass(x.keyword)) == Some(x.key + " " + placeholder)
    requires ' ' !in placeholder
    ensures ParseSentence(Render(x)).Ok?
    ensures HasAnnotation(m, ParseSentence(Render(x)).value.keyword, ParseSentence(Render(x)).value.key) == Ok(true)
  {
    ParseRender(x);
    AnnotationMatchesKey(m, x.keyword, x.key, placeholder, x.key);
  }

  /** A method found by the lookup, with the class that declares it. */
  datatype Found = Found(owner: ClassName, step: StepMethod)

  /** The loop over one class's `getDeclaredMethods()`: the first method that matches. */
  function FindDeclared(owner: ClassName, ms: seq<StepMethod>, annotation: string, value: string): (r: Result<Option<Found>, ClassName>)
    ensures r.Ok? && r.value.Some? ==>
      r.value.value.owner == owner && r.value.value.step in ms && HasAnnotation(r.value.value.step, annotation, value) == Ok(true)
    ensures r.Err? ==> r.error == STRING_INDEX
  {
    if ms == [] then Ok(None)
    else
      match HasAnnotation(ms[0], annotation, value)
      case Err(e) => Err(e)
      case Ok(true) => Ok(Some(Found(owner, ms[0])))
      case Ok(false) => FindDeclared(owner, ms[1..], annotation, value)
  }

  /** `searchInheritance`: the class's own methods, then its superclass's, up to `Object`, which declares no step. */
  function SearchInheritance(chain: seq<ClassDecl>, annotation: string, value: string): (r: Result<Option<Found>, ClassName>)
    ensures r.Ok? && r.value.Some? ==> HasAnnotation(r.value.value.step, annotation, value) == Ok(true)
    ensures r.Ok? && r.value.Some? ==>
      exists k :: 0 <= k < |chain| && r.value.value.owner == chain[k].name && r.value.value.step in chain[k].methods
  {
    if chain == [] then Ok(None)
    else
      var own := FindDeclared(chain[0].name, chain[0].methods, annotation, value);
      if own == Ok(None) then SearchInheritance(chain[1..], annotation, value) else own
  }

  /**
   * `searchInheritance(c, annotation, value)` called on the class itself. A
   * class's chain ends at `Object`. An interface's `getSuperclass()` is null,
   * so when none of its own methods matches, the recursive call throws a
   * NullPointerException on `getDeclaredMethods()`.
   */
  function SearchClass(c: StoryClass, annotation: string, value: string): (r: Result<Option<Found>, ClassName>)
    ensures !c.isInterface ==> r == SearchInheritance(Chain(c), annotation, value)
    ensures c.isInterface ==>
      (r == Err(NULL_POINTER) <==> FindDeclared(c.decl.name, c.decl.methods, annotation, value) == Ok(None))
    ensures r.Ok? && r.value.Some? ==> HasAnnotation(r.value.value.step, annotation, value) == Ok(true)
  {
    if c.isInterface then
      var own := FindDeclared(c.decl.name, c.decl.methods, annotation, value);
      if own == Ok(None) then Err(NULL_POINTER) else own
    else SearchInheritance(Chain(c), annotation, value)
  }

  /** Every method of the chain with its declaring class, most derived class first. */
  function Candidates(chain: seq<ClassDecl>): seq<Found>
  {
    if chain == [] then [] else Declared(chain[0].name, chain[0].methods) + Candidates(chain[1..])
  }

  function Declared(owner: ClassName, ms: seq<StepMethod>): (fs: seq<Found>)
    ensures |fs| == |ms| && forall i :: 0 <= i < |ms| ==> fs[i] == Found(owner, ms[i])
  {
    if ms == [] then [] else [Found(owner, ms[0])] + Declared(owner, ms[1..])
  }

  /** What `hasAnnotation` on candidate `f` makes the search return, if it stops there. */
  function StopsAt(f: Found, annotation: string, value: string): Result<Option<Found>, ClassName>
  {
    match HasAnnotation(f.step, annotation, value)
    case Err(e) => Err(e)
    case Ok(b) => if b then Ok(Some(f)) else Ok(None)
  }

  /** Candidate `i` is where the search stops: every earlier candidate is a plain non-match. */
  predicate DecidedAt(cs: seq<Found>, i: int, annotation: string, value: string, r: Result<Option<Found>, ClassName>)
  {
    0 <= i < |cs| && StopsAt(cs[i], annotation, value) == r && r != Ok(None)
    && forall j :: 0 <= j < i ==> HasAnnotation(cs[j].step, annotation, value) == Ok(false)
  }

  /** The reference search: the first candidate whose test matches or throws. */
  function FirstCandidate(cs: seq<Found>, annotation: string, value: string): (r: Result<Option<Found>, ClassName>)
    ensures r == Ok(None) <==> forall i :: 0 <= i < |cs| ==> HasAnnotation(cs[i].step, annotation, value) == Ok(false)
  {
    if cs == [] then Ok(None)
    else
      var v := StopsAt(cs[0], annotation, value);
      if v == Ok(None) then
        var r := FirstCandidate(cs[1..], annotation, value);
        assert forall i :: 0 < i < |cs| ==> cs[i] == cs[1..][i - 1];
        r
      else v
  }

  /** Where the reference search stopped. */
  lemma {:induction false} FirstCandidateDecided(cs: seq<Found>, annotation: string, value: string) returns (i: int)
    requires FirstCandidate(cs, annotation, value) != Ok(None)
    ensures DecidedAt(cs, i, annotation, value, FirstCandidate(cs, annotation, value))
  {
    if StopsAt(cs[0], annotation, value) != Ok(None) {
      i := 0;
    } else {
      var j := FirstCandidateDecided(cs[1..], annotation, value);
      i := j + 1;
      assert forall k :: 0 < k < |cs| ==> cs[k] == cs[1..][k - 1];
    }
  }

  lemma {:induction false} FirstCandidateConcat(a: seq<Found>, b: seq<Found>, annotation: string, value: string)
    ensures FirstCandidate(a + b, annotation, value)
         == if FirstCandidate(a, annotation, value) == Ok(None) then FirstCandidate(b, annotation, value)
            else FirstCandidate(a, annotation, value)
  {
    if a != [] {
      assert (a + b)[1..] == a[1..] + b;
      FirstCandidateConcat(a[1..], b, annotation, value);
    } else {
      assert a + b == b;
    }
  }

  lemma {:induction false} FindDeclaredIsFirst(owner: ClassName, ms: seq<StepMethod>, annotation: string, value: string)
    ensures FindDeclared(owner, ms, annotation, value) == FirstCandidate(Declared(owner, ms), annotation, value)
  {
    if ms != [] {
      FindDeclaredIsFirst(owner, ms[1..], annotation, value);
      assert Declared(owner, ms)[1..] == Declared(owner, ms[1..]);
    }
  }

  /**
   * `searchInheritance` returns the first method, walking from the class
   * towards `Object` and through each class's methods in order, whose
   * annotation matches; a value that makes `hasAnnotation` throw stops the
   * walk with that exception.
   */
  lemma {:induction false} SearchIsFirstCandidate(chain: seq<ClassDecl>, annotation: string, value: string)
    ensures SearchInheritance(chain, annotation, value) == FirstCandidate(Candidates(chain), annotation, value)
  {
    if chain != [] {
      SearchIsFirstCandidate(chain[1..], annotation, value);
      FindDeclaredIsFirst(chain[0].name, chain[0].methods, annotation, value);
      FirstCandidateConcat(Declared(chain[0].name, chain[0].methods), Candidates(chain[1..]), annotation, value);
    }
  }

  // ------------------------------------------------------- nested classes

  /**
   * `searchNestedGiven`: the class itself if its chain declares the `Given`
   * step, else the first nested class (interfaces skipped) that does or that
   * contains one that does, searched depth first. The class searched may
   * itself be an interface; when it declares no matching `Given` of its own,
   * `searchInheritance` throws (see `SearchClass`) before any nested class is
   * looked at.
   */
  function SearchNestedGiven(value: string, c: StoryClass): (r: Result<Option<StoryClass>, ClassName>)
    ensures c.isInterface && FindDeclared(c.decl.name, c.decl.methods, "Given", value) == Ok(None) ==>
      r == Err(NULL_POINTER)
    ensures r.Ok? && r.value.Some? ==> SearchClass(r.value.value, "Given", value).Ok?
    ensures r.Ok? && r.value.Some? ==> SearchClass(r.value.value, "Given", value).value.Some?
    ensures r.Ok? && r.value.Some? && r.value.value != c ==> !r.value.value.isInterface
    decreases c, 1
  {
    var own := SearchClass(c, "Given", value);
    if own.Err? then Err(own.error)
    else if own.value.Some? then Ok(Some(c))
    else SearchNested(value, c.nested)
  }

  /** The loop over `getDeclaredClasses()`. */
  function SearchNested(value: string, ns: seq<StoryClass>): (r: Result<Option<StoryClass>, ClassName>)
    ensures r.Ok? && r.value.Some? ==> SearchClass(r.value.value, "Given", value).Ok?
    ensures r.Ok? && r.value.Some? ==> SearchClass(r.value.value, "Given", value).value.Some?
    ensures r.Ok? && r.value.Some? ==> !r.value.value.isInterface
    decreases ns, 0
  {
    if ns == [] then Ok(None)
    else if ns[0].isInterface then SearchNested(value, ns[1..])
    else
      var direct := SearchClass(ns[0], "Given", value);
      if direct.Err? then Err(direct.error)
      else if direct.value.Some? then Ok(Some(ns[0]))
      else
        var deeper := SearchNestedGiven(value, ns[0]);
        if deeper != Ok(None) then deeper else SearchNested(value, ns[1..])
  }

  /** The classes in the order the nested search visits them: pre-order, interfaces and what they contain skipped. */
  function Preorder(c: StoryClass): (cs: seq<StoryClass>)
    ensures cs != [] && cs[0] == c
    decreases c, 1
  {
    [c] + PreorderAll(c.nested)
  }

  function PreorderAll(ns: seq<StoryClass>): seq<StoryClass>
    decreases ns, 0
  {
    if ns == [] then []
    else (if ns[0].isInterface then [] else Preorder(ns[0])) + PreorderAll(ns[1..])
  }

  /** The reference search: the first class in `cs` whose chain decides the `Given` lookup. */
  function FirstDeclaring(value: string, cs: seq<StoryClass>): (r: Result<Option<StoryClass>, ClassName>)
    ensures r.Ok? && r.value.Some? ==> r.value.value in cs && SearchClass(r.value.value, "Given", value).Ok?
    ensures r == Ok(None) <==> forall i :: 0 <= i < |cs| ==> SearchClass(cs[i], "Given", value) == Ok(None)
  {
    if cs == [] then Ok(None)
    else
      var own := SearchClass(cs[0], "Given", value);
      if own.Err? then Err(own.error)
      else if own.value.Some? then Ok(Some(cs[0]))
      else
        var r := FirstDeclaring(value, cs[1..]);
        assert forall i :: 0 < i < |cs| ==> cs[i] == cs[1..][i - 1];
        r
  }

  lemma {:induction false} FirstDeclaringConcat(value: string, a: seq<StoryClass>, b: seq<StoryClass>)
    ensures FirstDeclaring(value, a + b)
         == if FirstDeclaring(value, a) == Ok(None) then FirstDeclaring(value, b) else FirstDeclaring(value, a)
  {
    if a != [] {
      assert (a + b)[1..] == a[1..] + b;
      FirstDeclaringConcat(value, a[1..], b);
    } else {
      assert a + b == b;
    }
  }

  /**
   * `searchNestedGiven` finds the first class, in pre-order over the nesting
   * tree, whose inheritance chain declares the `Given` step (the explicit
   * check of each nested class before recursing into it is the recursion's
   * own first check, repeated).
   */
  lemma {:induction false} SearchNestedIsPreorder(value: string, c: StoryClass)
    ensures SearchNestedGiven(value, c) == FirstDeclaring(value, Preorder(c))
    decreases c, 1
  {
    SearchNestedAllIsPreorder(value, c.nested);
    FirstDeclaringConcat(value, [c], PreorderAll(c.nested));
  }

  lemma {:induction false} SearchNestedAllIsPreorder(value: string, ns: seq<StoryClass>)
    ensures SearchNested(value, ns) == FirstDeclaring(value, PreorderAll(ns))
    decreases ns, 0
  {
    if ns != [] {
      SearchNestedAllIsPreorder(value, ns[1..]);
      if ns[0].isInterface {
        assert PreorderAll(ns) == PreorderAll(ns[1..]);
      } else {
        SearchNestedIsPreorder(value, ns[0]);
        FirstDeclaringConcat(value, Preorder(ns[0]), PreorderAll(ns[1..]));
        FirstDeclaringConcat(value, [ns[0]], PreorderAll(ns[0].nested));
      }
    }
  }

  // ------------------------------------------------------- backup, restore

  /** A field value: `null`, or an object with the way a reflective copy treats it. */
  datatype Value = Null | Object(id: int, policy: CopyPolicy)

  /**
   * A field is named by its declaring class and its name, so a field a
   * subclass declares is a different field from a superclass's field of the
   * same name.
   */
  type FieldKey = (ClassName, string)

  /** The fields of an object. */
  type Fields = map<FieldKey, Value>

  function Get(f: Fields, k: FieldKey): Value
  {
    if k in f then f[k] else Null
  }

  /**
   * The backup object: the names of its class and of that class's superclasses
   * (the classes whose declared fields `field.get` can read from it), and its
   * fields.
   */
  datatype Backup = Backup(classes: seq<ClassName>, values: Fields)

  /**
   * What the model does not compute itself: the fields of a fresh instance
   * (`None` when `createTestInstance` throws), what invoking a step does,
   * `Integer.parseInt` (`None` when it throws), the expected and actual strings
   * of a `ComparisonFailure`, and `clone()` and copy constructors.
   */
  datatype Runtime = Runtime(
    construct: ClassName -> Option<Fields>,
    invoke: (Found, Arg, Fields) -> Invocation,
    parseInt: string -> Option<int>,
    comparisonExpected: Throwable -> Option<string>,
    comparisonActual: Throwable -> Option<string>,
    clone: Value -> Value,
    copy: Value -> Value)

  /** The argument a step is invoked with. */
  datatype Arg = IntArg(n: int) | StringArg(s: string)

  /** `Method.invoke`: the fields afterwards, and what the step threw, if anything. */
  datatype Invocation = Returned(fields: Fields) | Threw(fields: Fields, cause: Throwable)

  /** What `backUpInstance` stores for one field: `null`, a clone, a copy, or the same reference. */
  function Snapshot(rt: Runtime, v: Value): (w: Value)
    ensures v.Null? ==> w == Null
    ensures v.Object? && v.policy == Cloneable ==> w == rt.clone(v)
    ensures v.Object? && v.policy == CopyConstructor ==> w == rt.copy(v)
    ensures v.Object? && v.policy == NoCopy ==> w == v
  {
    match v
    case Null => Null
    case Object(_, policy) =>
      match policy
      case Cloneable => rt.clone(v)
      case CopyConstructor => rt.copy(v)
      case NoCopy => v
  }

  /** The backup's fields after the loop has copied the fields `fs` that class `owner` declares. */
  function BackupValues(rt: Runtime, owner: ClassName, fs: seq<string>, init: Fields, inst: Fields): (b: Fields)
  {
    if fs == [] then init
    else
      var k := (owner, fs[|fs| - 1]);
      BackupValues(rt, owner, fs[..|fs| - 1], init, inst)[k := Snapshot(rt, Get(inst, k))]
  }

  /**
   * The fields of the instance `createTestInstance` makes for the backup. The
   * test instance was made by the same constructor of the same class before
   * the story began, so the empty map is never used.
   */
  function Fresh(rt: Runtime, c: ClassName): Fields
  {
    match rt.construct(c)
    case Some(f) => f
    case None => map[]
  }

  /** The names of the classes on a superclass chain, in order. */
  function Names(chain: seq<ClassDecl>): (names: seq<ClassName>)
    ensures |names| == |chain| && forall i :: 0 <= i < |chain| ==> names[i] == chain[i].name
  {
    seq(|chain|, i requires 0 <= i < |chain| => chain[i].name)
  }

  /**
   * `backUpInstance(obj)`: a fresh instance of the object's class whose every
   * field declared in that class holds the snapshot of `obj`'s; the fields it
   * inherits keep what the constructor gave them.
   */
  function BackupOf(rt: Runtime, tc: StoryClass, inst: Fields): (b: Backup)
    ensures forall k :: 0 <= k < |Chain(tc)| ==> Chain(tc)[k].name in b.classes
    ensures forall f :: f in tc.decl.fields ==>
      (tc.decl.name, f) in b.values && b.values[(tc.decl.name, f)] == Snapshot(rt, Get(inst, (tc.decl.name, f)))
  {
    BackupValuesSpec(rt, tc.decl.name, tc.decl.fields, Fresh(rt, tc.decl.name), inst);
    var names := Names(Chain(tc));
    assert forall k :: 0 <= k < |Chain(tc)| ==> names[k] == Chain(tc)[k].name;
    Backup(names, BackupValues(rt, tc.decl.name, tc.decl.fields, Fresh(rt, tc.decl.name), inst))
  }

  /** The backup holds the snapshot of every declared field and the fresh instance's value of every other field. */
  lemma {:induction false} BackupValuesSpec(rt: Runtime, owner: ClassName, fs: seq<string>, init: Fields, inst: Fields)
    ensures BackupValues(rt, owner, fs, init, inst).Keys == init.Keys + set f | f in fs :: (owner, f)
    ensures forall f :: f in fs ==> BackupValues(rt, owner, fs, init, inst)[(owner, f)] == Snapshot(rt, Get(inst, (owner, f)))
    ensures forall k :: k in init && (k.0 != owner || k.1 !in fs) ==> BackupValues(rt, owner, fs, init, inst)[k] == init[k]
  {
    if fs != [] {
      BackupValuesSpec(rt, owner, fs[..|fs| - 1], init, inst);
      assert forall f :: f in fs ==> f in fs[..|fs| - 1] || f == fs[|fs| - 1];
      assert forall f :: f in fs[..|fs| - 1] ==> f in fs;
    }
  }

  /** The fields after the restore loop has written back the fields `fs` that class `owner` declares. */
  function RestoreValues(values: Fields, owner: ClassName, fs: seq<string>, inst: Fields): Fields
  {
    if fs == [] then inst
    else
      var k := (owner, fs[|fs| - 1]);
      RestoreValues(values, owner, fs[..|fs| - 1], inst)[k := Get(values, k)]
  }

  /**
   * `restoreInstance(obj)`: every field declared in the object's class takes
   * the backup's value. With no backup yet, `field.get(null)` throws. A backup
   * left from an earlier story can be an instance of another class: when that
   * class is the object's class or a subclass of it, `field.get` reads the
   * backup's field; otherwise it throws. A class without fields never reads
   * the backup.
   */
  function Restore(backup: Option<Backup>, decl: ClassDecl, inst: Fields): (r: Result<Fields, ClassName>)
    ensures decl.fields == [] ==> r == Ok(inst)
    ensures decl.fields != [] && backup.None? ==> r == Err(NULL_POINTER)
    ensures decl.fields != [] && backup.Some? && decl.name !in backup.value.classes ==> r == Err(ILLEGAL_ARGUMENT)
    ensures decl.fields != [] && backup.Some? && decl.name in backup.value.classes ==>
      r == Ok(RestoreValues(backup.value.values, decl.name, decl.fields, inst))
  {
    if decl.fields == [] then Ok(inst)
    else if backup.None? then Err(NULL_POINTER)
    else if decl.name !in backup.value.classes then Err(ILLEGAL_ARGUMENT)
    else Ok(RestoreValues(backup.value.values, decl.name, decl.fields, inst))
  }

  /** Restoring writes the backup's value into every declared field and leaves other entries alone. */
  lemma {:induction false} RestoreValuesSpec(values: Fields, owner: ClassName, fs: seq<string>, inst: Fields)
    ensures RestoreValues(values, owner, fs, inst).Keys == inst.Keys + set f | f in fs :: (owner, f)
    ensures forall f :: f in fs ==> RestoreValues(values, owner, fs, inst)[(owner, f)] == Get(values, (owner, f))
    ensures forall k :: k in inst && (k.0 != owner || k.1 !in fs) ==> RestoreValues(values, owner, fs, inst)[k] == inst[k]
  {
    if fs != [] {
      RestoreValuesSpec(values, owner, fs[..|fs| - 1], inst);
      assert forall f :: f in fs ==> f in fs[..|fs| - 1] || f == fs[|fs| - 1];
      assert forall f :: f in fs[..|fs| - 1] ==> f in fs;
    }
  }

  /**
   * Restoring from a backup of the same class puts every declared field back
   * to the snapshot of its value when the backup was taken, whatever steps did
   * to the object in between.
   */
  lemma RestoreUndoes(rt: Runtime, tc: StoryClass, before: Fields, after: Fields)
    ensures Restore(Some(BackupOf(rt, tc, before)), tc.decl, after).Ok?
    ensures forall f :: f in tc.decl.fields ==>
      (tc.decl.name, f) in Restore(Some(BackupOf(rt, tc, before)), tc.decl, after).value
      && Restore(Some(BackupOf(rt, tc, before)), tc.decl, after).value[(tc.decl.name, f)]
         == Snapshot(rt, Get(before, (tc.decl.name, f)))
  {
    var init := Fresh(rt, tc.decl.name);
    var values := BackupValues(rt, tc.decl.name, tc.decl.fields, init, before);
    assert Names(Chain(tc))[0] == tc.decl.name;
    BackupValuesSpec(rt, tc.decl.name, tc.decl.fields, init, before);
    RestoreValuesSpec(values, tc.decl.name, tc.decl.fields, after);
  }

  /**
   * A later story on a superclass of the backed-up object's class restores
   * from that backup without throwing. The backup copied only the fields the
   * subclass declares, so each field the superclass declares takes the value
   * the constructor gave the backup, even when the subclass declares a field
   * of the same name.
   */
  lemma RestoreFromSubclass(rt: Runtime, tc: StoryClass, k: int, before: Fields, after: Fields)
    requires 0 <= k < |Chain(tc)|
    ensures Restore(Some(BackupOf(rt, tc, before)), Chain(tc)[k], after).Ok?
    ensures var init := Fresh(rt, tc.decl.name);
      var decl := Chain(tc)[k];
      decl.name != tc.decl.name ==>
        forall f :: f in decl.fields && (decl.name, f) in init ==>
          (decl.name, f) in Restore(Some(BackupOf(rt, tc, before)), decl, after).value
          && Restore(Some(BackupOf(rt, tc, before)), decl, after).value[(decl.name, f)] == init[(decl.name, f)]
  {
    var init := Fresh(rt, tc.decl.name);
    var decl := Chain(tc)[k];
    var values := BackupValues(rt, tc.decl.name, tc.decl.fields, init, before);
    assert Names(Chain(tc))[k] == decl.name;
    BackupValuesSpec(rt, tc.decl.name, tc.decl.fields, init, before);
    RestoreValuesSpec(values, decl.name, decl.fields, after);
  }

  // ------------------------------------------------------------ the story

  /** The tester's own fields, which outlive a call. */
  datatype Tester = Tester(
    backup: Option<Backup>,
    firstFailedSentence: Option<string>,
    expected: Option<string>,
    result: Option<string>,
    numFails: int)

  /** The state of one run: the tester, the test instance's fields, and the length of the current run of `When`s. */
  datatype Run = Run(tester: Tester, instance: Fields, whenCount: int)

  /** Why `testOnInheritanceTree` or `testOnNestedClasses` throws. */
  datatype Failure =
    | Crash(cls: ClassName)                      // a runtime exception from the tester's own code
    | ConstructionFailed                         // `createTestInstance` threw
    | NotFound(kind: StepKind)                   // Given-, When- or ThenNotFoundException
    | InvocationFailure(cause: Throwable)        // a step threw something other than a ComparisonFailure
    | StoryTestFailed(numFails: int, sentence: Option<string>, expected: Option<string>, actual: Option<string>)

  /** The state after a sentence or a prefix of the story, and the exception that ended it, if any. */
  datatype StepOutcome = StepOutcome(run: Run, failure: Option<Failure>)

  /** Parsing and lookup: the sentence's parts and its step, or the exception. */
  function Resolve(tc: StoryClass, sentence: string): (r: Result<(Sentence, Found), Failure>)
    ensures r.Ok? ==> ParseSentence(sentence) == Ok(r.value.0)
    ensures r.Ok? ==> SearchClass(tc, r.value.0.keyword, r.value.0.key) == Ok(Some(r.value.1))
  {
    match ParseSentence(sentence)
    case Err(e) => Err(Crash(e))
    case Ok(x) =>
      match SearchClass(tc, x.keyword, x.key)
      case Err(e) => Err(Crash(e))
      case Ok(None) => Err(NotFound(AnnotationClass(x.keyword)))
      case Ok(Some(f)) => Ok((x, f))
  }

  /** A `When` lengthens the run of `When`s, backing the object up at its first; any other keyword ends it. */
  function TrackWhen(rt: Runtime, tc: StoryClass, st: Run, keyword: string): Run
  {
    if keyword == "When" then
      var t := if st.whenCount == 0 then st.tester.(backup := Some(BackupOf(rt, tc, st.instance))) else st.tester;
      Run(t, st.instance, st.whenCount + 1)
    else st.(whenCount := 0)
  }

  /** A `ComparisonFailure` is counted, recorded if it is the first, and followed by a restore when the step was a `Then`. */
  function Absorb(decl: ClassDecl, st: Run, fields: Fields, expected: Option<string>, actual: Option<string>,
                  keyword: string, sentence: string): StepOutcome
  {
    var t := st.tester;
    var t1 := if t.numFails == 0 then t.(result := actual, expected := expected, firstFailedSentence := Some(sentence)) else t;
    var t2 := t1.(numFails := t1.numFails + 1);
    if keyword == "Then" then
      match Restore(t2.backup, decl, fields)
      case Err(e) => StepOutcome(Run(t2, fields, st.whenCount), Some(Crash(e)))
      case Ok(g) => StepOutcome(Run(t2, g, st.whenCount), None)
    else StepOutcome(Run(t2, fields, st.whenCount), None)
  }

  /** The argument: `Integer.parseInt` of the last word for an `int`/`Integer` parameter, the word itself otherwise. */
  function ArgumentOf(rt: Runtime, m: StepMethod, parameter: string): Result<Arg, ClassName>
  {
    match m.param
    case NoParameter => Err(ARRAY_INDEX)
    case IntParameter => (match rt.parseInt(parameter) case None => Err(NUMBER_FORMAT) case Some(n) => Ok(IntArg(n)))
    case OtherParameter => Ok(StringArg(parameter))
  }

  /**
   * The invocation and its `catch`: only a `ComparisonFailure` is absorbed.
   * An exception thrown by `Method.invoke` itself (an argument of the wrong
   * type) propagates unwrapped in Java; here it is an `InvocationFailure`
   * too. Either way the story stops with that exception.
   */
  function Perform(rt: Runtime, decl: ClassDecl, st: Run, x: Sentence, f: Found, sentence: string): StepOutcome
  {
    var arg := ArgumentOf(rt, f.step, x.parameter);
    if arg.Err? then StepOutcome(st, Some(Crash(arg.error)))
    else
      match rt.invoke(f, arg.value, st.instance)
      case Returned(g) => StepOutcome(st.(instance := g), None)
      case Threw(g, cause) =>
        if !IsInstance(COMPARISON_FAILURE, cause) then StepOutcome(st.(instance := g), Some(InvocationFailure(cause)))
        else Absorb(decl, st, g, rt.comparisonExpected(cause), rt.comparisonActual(cause), x.keyword, sentence)
  }

  /** One iteration of the sentence loop. */
  function Step(rt: Runtime, tc: StoryClass, st: Run, sentence: string): StepOutcome
  {
    match Resolve(tc, sentence)
    case Err(e) => StepOutcome(st, Some(e))
    case Ok(p) => Perform(rt, tc.decl, TrackWhen(rt, tc, st, p.0.keyword), p.0, p.1, sentence)
  }

  /** The loop over the sentences, stopping at the first exception. */
  function RunStory(rt: Runtime, tc: StoryClass, st: Run, sentences: seq<string>): StepOutcome
  {
    if sentences == [] then StepOutcome(st, None)
    else
      var prev := RunStory(rt, tc, st, sentences[..|sentences| - 1]);
      if prev.failure.Some? then prev else Step(rt, tc, prev.run, sentences[|sentences| - 1])
  }

  /** What a call leaves in the tester, and what it throws (`None`: it returns normally). */
  datatype Verdict = Verdict(tester: Tester, failure: Option<Failure>)

  /** `testOnInheritanceTree(story, testClass)`, a `None` argument being `null`. */
  function TestSpec(rt: Runtime, t: Tester, story: Option<string>, tc: Option<StoryClass>): (v: Verdict)
    ensures story.None? || tc.None? ==> v == Verdict(t, Some(Crash(ILLEGAL_ARGUMENT)))
  {
    if story.None? || tc.None? then Verdict(t, Some(Crash(ILLEGAL_ARGUMENT)))
    else
      var t0 := t.(numFails := 0);
      match rt.construct(tc.value.decl.name)
      case None => Verdict(t0, Some(ConstructionFailed))
      case Some(init) =>
        Conclude(RunStory(rt, tc.value, Run(t0, init, 0), SplitLines(story.value)))
  }

  /** After the loop: an exception from a sentence propagates; otherwise any failure makes a `StoryTestException`. */
  function Conclude(o: StepOutcome): (v: Verdict)
    ensures v.tester == o.run.tester
  {
    var t := o.run.tester;
    if o.failure.Some? then Verdict(t, o.failure)
    else if t.numFails > 0 then
      Verdict(t, Some(StoryTestFailed(t.numFails, t.firstFailedSentence, t.expected, t.result)))
    else Verdict(t, None)
  }

  /**
   * `testOnNestedClasses(story, testClass)`: the key of the first sentence is
   * looked up as a `Given` in the class and, depth first, in its nested
   * classes; the story then runs on the class that declares it.
   */
  function NestedSpec(rt: Runtime, t: Tester, story: Option<string>, tc: Option<StoryClass>): (v: Verdict)
    ensures story.None? || tc.None? ==> v == Verdict(t, Some(Crash(ILLEGAL_ARGUMENT)))
  {
    if story.None? || tc.None? then Verdict(t, Some(Crash(ILLEGAL_ARGUMENT)))
    else
      match FirstSentenceKey(story.value)
      case Err(e) => Verdict(t, Some(Crash(e)))
      case Ok(key) =>
        match SearchNestedGiven(key, tc.value)
        case Err(e) => Verdict(t, Some(Crash(e)))
        case Ok(None) => Verdict(t, Some(NotFound(Given)))
        case Ok(Some(c)) => TestSpec(rt, t, story, Some(c))
  }

  /**
   * An interface searched by `testOnNestedClasses` that declares no matching
   * `Given` itself makes the call throw a NullPointerException, whatever its
   * nested classes declare, and leaves the tester as it was.
   */
  lemma InterfaceRootThrows(rt: Runtime, t: Tester, story: string, tc: StoryClass)
    requires tc.isInterface
    requires FirstSentenceKey(story).Ok?
    requires FindDeclared(tc.decl.name, tc.decl.methods, "Given", FirstSentenceKey(story).value) == Ok(None)
    ensures NestedSpec(rt, t, Some(story), Some(tc)) == Verdict(t, Some(Crash(NULL_POINTER)))
  {
  }

  // ------------------------------------------------------------- lemmas

  /** What the step's invocation did, when the sentence got that far. */
  function Invoked(rt: Runtime, tc: StoryClass, st: Run, sentence: string): Option<Invocation>
  {
    match Resolve(tc, sentence)
    case Err(_) => None
    case Ok(p) =>
      var arg := ArgumentOf(rt, p.1.step, p.0.parameter);
      if arg.Err? then None else Some(rt.invoke(p.1, arg.value, st.instance))
  }

  /** The step threw a `ComparisonFailure`, which the tester absorbs. */
  predicate Absorbed(rt: Runtime, tc: StoryClass, st: Run, sentence: string)
  {
    var inv := Invoked(rt, tc, st, sentence);
    inv.Some? && inv.value.Threw? && IsInstance(COMPARISON_FAILURE, inv.value.cause)
  }

  /**
   * A sentence that fails to parse or names no step throws before anything
   * changes. Otherwise a `When` lengthens the run of `When`s and every other
   * keyword ends it, and the backup is replaced exactly at the first `When` of
   * a run, by a snapshot of the object as it was before that step.
   */
  lemma StepTracksWhens(rt: Runtime, tc: StoryClass, st: Run, sentence: string)
    ensures Resolve(tc, sentence).Err? ==> Step(rt, tc, st, sentence) == StepOutcome(st, Some(Resolve(tc, sentence).error))
    ensures Resolve(tc, sentence).Ok? ==>
      var kw := Resolve(tc, sentence).value.0.keyword;
      var r := Step(rt, tc, st, sentence).run;
      && r.whenCount == (if kw == "When" then st.whenCount + 1 else 0)
      && r.tester.backup == (if kw == "When" && st.whenCount == 0 then Some(BackupOf(rt, tc, st.instance)) else st.tester.backup)
  {
    var res := Resolve(tc, sentence);
    if res.Ok? {
      var x, f := res.value.0, res.value.1;
      PerformKeepsWhens(rt, tc.decl, TrackWhen(rt, tc, st, x.keyword), x, f, sentence);
    }
  }

  /** The invocation and its `catch` neither touch the backup nor the run of `When`s. */
  lemma PerformKeepsWhens(rt: Runtime, decl: ClassDecl, st: Run, x: Sentence, f: Found, sentence: string)
    ensures Perform(rt, decl, st, x, f, sentence).run.whenCount == st.whenCount
    ensures Perform(rt, decl, st, x, f, sentence).run.tester.backup == st.tester.backup
  {
  }

  /** The three fields that describe the first failure. */
  function FirstFailure(t: Tester): (Option<string>, Option<string>, Option<string>)
  {
    (t.firstFailedSentence, t.expected, t.result)
  }

  /**
   * Only a `ComparisonFailure` is absorbed: it adds one to `numFails` and
   * is recorded only when it is the first; otherwise the count and the
   * record stay.
   */
  lemma StepCountsFailures(rt: Runtime, tc: StoryClass, st: Run, sentence: string)
    ensures var t := Step(rt, tc, st, sentence).run.tester;
      t.numFails == st.tester.numFails + (if Absorbed(rt, tc, st, sentence) then 1 else 0)
    ensures var t := Step(rt, tc, st, sentence).run.tester;
      st.tester.numFails != 0 || !Absorbed(rt, tc, st, sentence) ==> FirstFailure(t) == FirstFailure(st.tester)
    ensures var t := Step(rt, tc, st, sentence).run.tester;
      st.tester.numFails == 0 && Absorbed(rt, tc, st, sentence) ==>
        var cause := Invoked(rt, tc, st, sentence).value.cause;
        FirstFailure(t) == (Some(sentence), rt.comparisonExpected(cause), rt.comparisonActual(cause))
  {
    var res := Resolve(tc, sentence);
    if res.Ok? {
      var x, f := res.value.0, res.value.1;
      var tw := TrackWhen(rt, tc, st, x.keyword);
      assert tw.tester.numFails == st.tester.numFails && FirstFailure(tw.tester) == FirstFailure(st.tester);
      assert tw.instance == st.instance;
      var arg := ArgumentOf(rt, f.step, x.parameter);
      if arg.Ok? {
        match rt.invoke(f, arg.value, st.instance)
        case Returned(g) =>
        case Threw(g, cause) =>
          if IsInstance(COMPARISON_FAILURE, cause) {
            AbsorbCounts(tc.decl, tw, g, rt.comparisonExpected(cause), rt.comparisonActual(cause), x.keyword, sentence);
          }
      }
    }
  }

  /** The count goes up by one, and the record is written only by the first failure. */
  lemma AbsorbCounts(decl: ClassDecl, st: Run, fields: Fields, expected: Option<string>, actual: Option<string>,
                     keyword: string, sentence: string)
    ensures var t := Absorb(decl, st, fields, expected, actual, keyword, sentence).run.tester;
      && t.numFails == st.tester.numFails + 1
      && FirstFailure(t) == if st.tester.numFails == 0 then (Some(sentence), expected, actual) else FirstFailure(st.tester)
  {
  }

  /**
   * Any other exception from the step propagates wrapped, and after an
   * absorbed `Then` the object is restored from the backup.
   */
  lemma StepPropagates(rt: Runtime, tc: StoryClass, st: Run, sentence: string)
    ensures var inv := Invoked(rt, tc, st, sentence);
      inv.Some? && inv.value.Threw? && !IsInstance(COMPARISON_FAILURE, inv.value.cause) ==>
        Step(rt, tc, st, sentence).failure == Some(InvocationFailure(inv.value.cause))
    ensures Absorbed(rt, tc, st, sentence) && Resolve(tc, sentence).value.0.keyword == "Then" ==>
      var o := Step(rt, tc, st, sentence);
      match Restore(o.run.tester.backup, tc.decl, Invoked(rt, tc, st, sentence).value.fields)
      case Err(e) => o.failure == Some(Crash(e))
      case Ok(g) => o.failure.None? && o.run.instance == g
  {
  }

  /** A story that has not thrown after `i` sentences runs its next sentence as one more step. */
  lemma RunStorySnoc(rt: Runtime, tc: StoryClass, st: Run, sentences: seq<string>, i: nat)
    requires i < |sentences| && RunStory(rt, tc, st, sentences[..i]).failure.None?
    ensures RunStory(rt, tc, st, sentences[..i + 1]) == Step(rt, tc, RunStory(rt, tc, st, sentences[..i]).run, sentences[i])
  {
    assert sentences[..i + 1][..i] == sentences[..i];
  }

  /** Once a sentence throws, the rest of the story is not read. */
  lemma {:induction false} RunStoryStops(rt: Runtime, tc: StoryClass, st: Run, sentences: seq<string>, n: nat)
    requires n <= |sentences|
    requires RunStory(rt, tc, st, sentences[..n]).failure.Some?
    ensures RunStory(rt, tc, st, sentences) == RunStory(rt, tc, st, sentences[..n])
  {
    if n < |sentences| {
      var init := sentences[..|sentences| - 1];
      assert init[..n] == sentences[..n];
      RunStoryStops(rt, tc, st, init, n);
    } else {
      assert sentences[..n] == sentences;
    }
  }

  /** The failure count never goes down, and once there is a failure its record stays for the rest of the story. */
  lemma {:induction false} RunStoryKeepsFirstFailure(rt: Runtime, tc: StoryClass, st: Run, sentences: seq<string>)
    ensures RunStory(rt, tc, st, sentences).run.tester.numFails >= st.tester.numFails
    ensures st.tester.numFails > 0 ==> FirstFailure(RunStory(rt, tc, st, sentences).run.tester) == FirstFailure(st.tester)
  {
    if sentences != [] {
      var init := sentences[..|sentences| - 1];
      RunStoryKeepsFirstFailure(rt, tc, st, init);
      var prev := RunStory(rt, tc, st, init);
      StepCountsFailures(rt, tc, prev.run, sentences[|sentences| - 1]);
    }
  }

  /** Starting from no failures, a story that ends with failures has recorded one of its own sentences as the first. */
  lemma {:induction false} RunStoryRecordsFirst(rt: Runtime, tc: StoryClass, st: Run, sentences: seq<string>)
    requires st.tester.numFails == 0
    ensures var t := RunStory(rt, tc, st, sentences).run.tester;
      t.numFails > 0 ==> t.firstFailedSentence.Some? && t.firstFailedSentence.value in sentences
  {
    if sentences != [] {
      var init := sentences[..|sentences| - 1];
      var last := sentences[|sentences| - 1];
      RunStoryRecordsFirst(rt, tc, st, init);
      var prev := RunStory(rt, tc, st, init);
      StepCountsFailures(rt, tc, prev.run, last);
      assert forall x :: x in init ==> x in sentences;
    }
  }

  /**
   * `testOnInheritanceTree` returns normally only when no step failed; with
   * failures it throws a `StoryTestException` carrying their number and the
   * first failing sentence of this story.
   */
  lemma StoryVerdict(rt: Runtime, t: Tester, story: string, tc: StoryClass)
    ensures var v := TestSpec(rt, t, Some(story), Some(tc));
      v.failure.None? ==> v.tester.numFails == 0
    ensures var v := TestSpec(rt, t, Some(story), Some(tc));
      v.failure.Some? && v.failure.value.StoryTestFailed? ==>
        v.failure.value.numFails > 0 && v.failure.value.numFails == v.tester.numFails
        && v.failure.value.sentence.Some? && v.failure.value.sentence.value in SplitLines(story)
  {
    var t0 := t.(numFails := 0);
    var init := rt.construct(tc.decl.name);
    if init.Some? {
      var st := Run(t0, init.value, 0);
      var o := RunStory(rt, tc, st, SplitLines(story));
      assert TestSpec(rt, t, Some(story), Some(tc)) == Conclude(o);
      RunStoryRecordsFirst(rt, tc, st, SplitLines(story));
      RunStoryNeverReports(rt, tc, st, SplitLines(story));
      RunStoryKeepsFirstFailure(rt, tc, st, SplitLines(story));
      ConcludeReports(o);
    }
  }

  lemma ConcludeReports(o: StepOutcome)
    requires o.failure.None? || !o.failure.value.StoryTestFailed?
    ensures Conclude(o).failure.None? ==> o.run.tester.numFails <= 0
    ensures Conclude(o).failure.Some? && Conclude(o).failure.value.StoryTestFailed? ==>
      o.failure.None? && Conclude(o).failure.value.numFails == o.run.tester.numFails > 0
      && Conclude(o).failure.value.sentence == o.run.tester.firstFailedSentence
  {
  }

  /** A sentence never throws the `StoryTestException` itself: that is thrown only after the loop. */
  lemma {:induction false} RunStoryNeverReports(rt: Runtime, tc: StoryClass, st: Run, sentences: seq<string>)
    ensures var o := RunStory(rt, tc, st, sentences); o.failure.None? || !o.failure.value.StoryTestFailed?
  {
    if sentences != [] {
      var prev := RunStory(rt, tc, st, sentences[..|sentences| - 1]);
      RunStoryNeverReports(rt, tc, st, sentences[..|sentences| - 1]);
      StepNeverReports(rt, tc, prev.run, sentences[|sentences| - 1]);
    }
  }

  lemma StepNeverReports(rt: Runtime, tc: StoryClass, st: Run, sentence: string)
    ensures var o := Step(rt, tc, st, sentence); o.failure.None? || !o.failure.value.StoryTestFailed?
  {
    match Resolve(tc, sentence)
    case Err(e) =>
    case Ok(p) => PerformNeverReports(rt, tc.decl, TrackWhen(rt, tc, st, p.0.keyword), p.0, p.1, sentence);
  }

  lemma PerformNeverReports(rt: Runtime, decl: ClassDecl, st: Run, x: Sentence, f: Found, sentence: string)
    ensures var o := Perform(rt, decl, st, x, f, sentence); o.failure.None? || !o.failure.value.StoryTestFailed?
  {
    var arg := ArgumentOf(rt, f.step, x.parameter);
    if arg.Ok? {
      match rt.invoke(f, arg.value, st.instance)
      case Returned(g) =>
      case Threw(g, cause) =>
        if IsInstance(COMPARISON_FAILURE, cause) {
          var o := Absorb(decl, st, g, rt.comparisonExpected(cause), rt.comparisonActual(cause), x.keyword, sentence);
          assert o.failure.None? || o.failure.value.Crash?;
        }
    }
  }

  // ------------------------------------------------------------ the tester

  class StoryTester {
    var objectBackup: Option<Backup>
    var firstFailedSentence: Option<string>
    var expected: Option<string>
    var result: Option<string>
    var numFails: int

    function State(): Tester
      reads this
    {
      Tester(objectBackup, firstFailedSentence, expected, result, numFails)
    }

    /** No backup, no failure recorded. */
    constructor ()
      ensures State() == Tester(None, None, None, None, 0)
    {
      objectBackup := None;
      firstFailedSentence := None;
      expected := None;
      result := None;
      numFails := 0;
    }

    /** `backUpInstance(obj)`: each declared field copied into a new instance, which becomes the backup. */
    method BackUpInstance(rt: Runtime, tc: StoryClass, inst: Fields)
      modifies this
      ensures State() == old(State()).(backup := Some(BackupOf(rt, tc, inst)))
    {
      var decl := tc.decl;
      var values: Fields := Fresh(rt, decl.name);
      ghost var init := values;
      var i := 0;
      while i < |decl.fields|
        invariant 0 <= i <= |decl.fields|
        invariant values == BackupValues(rt, decl.name, decl.fields[..i], init, inst)
      {
        var key := (decl.name, decl.fields[i]);
        var v := Get(inst, key);
        var copy;
        if v.Null? {
          copy := Null;
        } else if v.policy == Cloneable {
          copy := rt.clone(v);
        } else if v.policy == CopyConstructor {
          copy := rt.copy(v);
        } else {
          copy := v;
        }
        assert decl.fields[..i + 1][..i] == decl.fields[..i];
        values := values[key := copy];
        i := i + 1;
      }
      assert decl.fields[..i] == decl.fields;
      objectBackup := Some(Backup(Names(Chain(tc)), values));
    }

    /** `restoreInstance(obj)`: every declared field of the object takes the backup's value. */
    method RestoreInstance(decl: ClassDecl, inst: Fields) returns (r: Result<Fields, ClassName>)
      ensures r == Restore(objectBackup, decl, inst)
    {
      var fields := inst;
      var i := 0;
      while i < |decl.fields|
        invariant 0 <= i <= |decl.fields|
        invariant i == 0 ==> fields == inst
        invariant i > 0 ==>
          (objectBackup.Some? && decl.name in objectBackup.value.classes
           && fields == RestoreValues(objectBackup.value.values, decl.name, decl.fields[..i], inst))
      {
        if objectBackup.None? {
          return Err(NULL_POINTER);
        }
        if decl.name !in objectBackup.value.classes {
          return Err(ILLEGAL_ARGUMENT);
        }
        assert decl.fields[..i + 1][..i] == decl.fields[..i];
        var key := (decl.name, decl.fields[i]);
        fields := fields[key := Get(objectBackup.value.values, key)];
        i := i + 1;
      }
      assert decl.fields[..i] == decl.fields;
      return Ok(fields);
    }

    /** One pass of the sentence loop of `testOnInheritanceTree`. */
    method ProcessSentence(rt: Runtime, tc: StoryClass, inst: Fields, whenCount: int, sentence: string)
      returns (inst': Fields, whenCount': int, failure: Option<Failure>)
      modifies this
      ensures StepOutcome(Run(State(), inst', whenCount'), failure) == Step(rt, tc, Run(old(State()), inst, whenCount), sentence)
    {
      var resolved := Resolve(tc, sentence);
      if resolved.Err? {
        return inst, whenCount, Some(resolved.error);
      }
      var x, f := resolved.value.0, resolved.value.1;
      whenCount' := TrackWhens(rt, tc, inst, whenCount, x.keyword);
      inst', failure := InvokeStep(rt, tc.decl, inst, whenCount', x, f, sentence);
    }

    /** The `When` bookkeeping before the invocation. */
    method TrackWhens(rt: Runtime, tc: StoryClass, inst: Fields, whenCount: int, keyword: string) returns (whenCount': int)
      modifies this
      ensures Run(State(), inst, whenCount') == TrackWhen(rt, tc, Run(old(State()), inst, whenCount), keyword)
    {
      if keyword == "When" {
        if whenCount == 0 {
          BackUpInstance(rt, tc, inst);
        }
        whenCount' := whenCount + 1;
      } else {
        whenCount' := 0;
      }
    }

    /** The invocation inside the `try`, and the `catch`. */
    method InvokeStep(rt: Runtime, decl: ClassDecl, inst: Fields, whenCount: int, x: Sentence, f: Found, sentence: string)
      returns (inst': Fields, failure: Option<Failure>)
      modifies this
      ensures StepOutcome(Run(State(), inst', whenCount), failure) == Perform(rt, decl, Run(old(State()), inst, whenCount), x, f, sentence)
    {
      var arg := ArgumentOf(rt, f.step, x.parameter);
      if arg.Err? {
        return inst, Some(Crash(arg.error));
      }
      var inv := rt.invoke(f, arg.value, inst);
      if inv.Returned? {
        return inv.fields, None;
      }
      if !IsInstance(COMPARISON_FAILURE, inv.cause) {
        return inv.fields, Some(InvocationFailure(inv.cause));
      }
      inst', failure := AbsorbFailure(decl, inv.fields, whenCount, rt.comparisonExpected(inv.cause), rt.comparisonActual(inv.cause), x.keyword, sentence);
    }

    /** The `catch` of a `ComparisonFailure`. */
    method AbsorbFailure(decl: ClassDecl, fields: Fields, whenCount: int, expected': Option<string>, actual: Option<string>,
                         keyword: string, sentence: string)
      returns (inst': Fields, failure: Option<Failure>)
      modifies this
      ensures StepOutcome(Run(State(), inst', whenCount), failure)
           == Absorb(decl, Run(old(State()), fields, whenCount), fields, expected', actual, keyword, sentence)
    {
      if numFails == 0 {
        result := actual;
        expected := expected';
        firstFailedSentence := Some(sentence);
      }
      numFails := numFails + 1;
      inst', failure := fields, None;
      if keyword == "Then" {
        var restored := RestoreInstance(decl, fields);
        if restored.Err? {
          return fields, Some(Crash(restored.error));
        }
        inst' := restored.value;
      }
    }

    /** `testOnInheritanceTree(story, testClass)`. */
    method TestOnInheritanceTree(rt: Runtime, story: Option<string>, testClass: Option<StoryClass>)
      returns (failure: Option<Failure>)
      modifies this
      ensures Verdict(State(), failure) == TestSpec(rt, old(State()), story, testClass)
    {
      if story.None? || testClass.None? {
        return Some(Crash(ILLEGAL_ARGUMENT));
      }
      var tc := testClass.value;
      var whenCount := 0;
      numFails := 0;
      var init := rt.construct(tc.decl.name);
      if init.None? {
        return Some(ConstructionFailed);
      }
      var inst := init.value;
      var sentences := SplitLines(story.value);
      ghost var start := Run(State(), inst, 0);
      var i := 0;
      while i < |sentences|
        invariant 0 <= i <= |sentences|
        invariant RunStory(rt, tc, start, sentences[..i]) == StepOutcome(Run(State(), inst, whenCount), None)
      {
        ghost var before := Run(State(), inst, whenCount);
        var f;
        inst, whenCount, f := ProcessSentence(rt, tc, inst, whenCount, sentences[i]);
        RunStorySnoc(rt, tc, start, sentences, i);
        if f.Some? {
          RunStoryStops(rt, tc, start, sentences, i + 1);
          return f;
        }
        i := i + 1;
      }
      assert sentences[..i] == sentences;
      if numFails > 0 {
        return Some(StoryTestFailed(numFails, firstFailedSentence, expected, result));
      }
      return None;
    }

    /** `testOnNestedClasses(story, testClass)`. */
    method TestOnNestedClasses(rt: Runtime, story: Option<string>, testClass: Option<StoryClass>)
      returns (failure: Option<Failure>)
      modifies this
      ensures Verdict(State(), failure) == NestedSpec(rt, old(State()), story, testClass)
    {
      if testClass.None? || story.None? {
        return Some(Crash(ILLEGAL_ARGUMENT));
      }
      var key := FirstSentenceKey(story.value);
      if key.Err? {
        return Some(Crash(key.error));
      }
      var declaresGiven := SearchNestedGiven(key.value, testClass.value);
      if declaresGiven.Err? {
        return Some(Crash(declaresGiven.error));
      }
      if declaresGiven.value.None? {
        return Some(NotFound(Given));
      }
      failure := TestOnInheritanceTree(rt, story, declaresGiven.value);
    }
  }
}
