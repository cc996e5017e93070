# Object-oriented programming course solutions, modelled in Dafny

This project models the core of a repository of solutions to an
object-oriented programming course. It covers four pieces of that repository.

- **The OOP unit-test engine** (`236703-hw4/OOP4_Provided/Solution`):
  - `OOPUnitCore.runClass` finds the tests of a test class and orders them.
  - It runs setup, before and after hooks around each test, with a snapshot
    of the instance's fields taken before each test.
  - It classifies each outcome as SUCCESS, FAILURE,
    EXPECTED_EXCEPTION_MISMATCH or ERROR, using the instance's
    `@OOPExceptionRule` field (`OOPExpectedExceptionImpl`).
  - The results go into an `OOPTestSummary`, which counts them (`OOPResultImpl`
    is one result).
- **The story tester** (`hw4/StoryTesterImpl.java`):
  - It runs a Given/When/Then story against a class and the class's
    superclasses, or against the first nested class that declares the
    story's first `Given`.
  - It backs the object up at the first `When` of a run and restores it after
    a failed `Then`.
  - It counts the failures and reports the first.
- **The Rush-hour move** (`hw5/part2/MoveVehicle.h`): the template
  metaprogram that moves one vehicle on a board, a compile error being any
  move that would collide, leave the board or break the move's rules.
- **Two domain managers**:
  - TechnionTunes (`hw2`): users, songs, ratings, friendship, rating queries,
    and whether two users "get along" through friends who share favourite
    songs.
  - Two drafts of HamburgerNetwork (`OOP2_Spring24/OOP`): hungry students,
    restaurants, ratings, favourites, friendship (one-way in the `Solution`
    draft, two-way in the other) and level-bounded recommendations.

How each part is modelled:

- Pure code (results, summaries, story parsing, the search for steps, the
  move on the board) becomes datatypes, functions and lemmas.
- Code that updates objects becomes classes:
  - the runner's test instance;
  - the expected-exception rule;
  - the story tester;
  - users, songs, students, restaurants and the networks.
  Their methods have `modifies` clauses and are proved against specification
  functions. Examples: the test loop against `RunTests`, the story loop
  against `RunStory`, and the breadth-first searches against reachability in
  a graph.
- Reflection, `Method.invoke`, `clone()` and `Integer.parseInt` are
  parameters of the model (a `Runtime` value).
- A thrown exception is an `Err`/`Fail` value that names it.

Modules:

- `Wrappers`: Option, Result and Outcome.
- `JavaLang`: 32-bit arithmetic, `Objects.hash` and `String.hashCode`, class
  chains for `instanceof`.
- `JavaText`: decimal rendering and string order.
- `Sorting` and `Views`: stable insertion sort and sorted views of maps.
- `Graphs`: reachability and hop-bounded balls.
- `TestResults`, `TestSummary`, `ExpectedExceptions` and `UnitCore`: the
  unit-test engine.
- `StoryParsing` and `StoryTesting`: the story tester.
- `RushHour`: the Rush-hour move.
- `TunesEntities` and `Tunes`: TechnionTunes.
- `Burgers` and `HamburgerEntities`: what both network drafts share.
- `HamburgerOneWay` and `HamburgerTwoWay`: one module per network draft.

## Model

| member | source | states |
|---|---|---|
| TestResults.Equals | 236703-hw4/OOP4_Provided/Solution/OOPResultImpl.java:28-36 | `equals` holds exactly for another result with the same kind and the same message (two null messages being equal); null and other classes are unequal |
| TestResults.HashCode | 236703-hw4/OOP4_Provided/Solution/OOPResultImpl.java:38-41 | `Objects.hash(type, message)` is a 32-bit int |
| TestResults.EqualResultsHashEqual | 236703-hw4/OOP4_Provided/Solution/OOPResultImpl.java:28-41 | results that `equals` accepts have the same hash |
| TestResults.EqualsSymmetric | 236703-hw4/OOP4_Provided/Solution/OOPResultImpl.java:28-36 | `equals` is symmetric |
| TestSummary.Lookup | 236703-hw4/OOP4_Provided/Solution/OOPUnitCore.java:81 | a lookup in the result map finds nothing exactly when the test name is not a key, and otherwise finds the stored entry |
| TestSummary.Put | 236703-hw4/OOP4_Provided/Solution/OOPUnitCore.java:123-155 | `LinkedHashMap.put`: an existing key keeps its place, a new key goes last; the key then maps to the new result and every other key is unchanged |
| TestSummary.PutNew | 236703-hw4/OOP4_Provided/Solution/OOPUnitCore.java:81 | putting a new key appends exactly that entry |
| TestSummary.Count | 236703-hw4/OOP4_Provided/Solution/OOPTestSummary.java:13-17 | the count of a kind never exceeds the number of stored results |
| TestSummary.CountPositive | 236703-hw4/OOP4_Provided/Solution/OOPTestSummary.java:13-17 | a kind's count is positive exactly when some stored result has that kind |
| TestSummary.CountAll | 236703-hw4/OOP4_Provided/Solution/OOPTestSummary.java:13-17 | a kind's count is the summary's size exactly when every result has that kind |
| TestSummary.CountsPartition | 236703-hw4/OOP4_Provided/Solution/OOPTestSummary.java:19-33 | successes, failures, mismatches and errors add up to the number of results |
| TestSummary.CountAfterPut | 236703-hw4/OOP4_Provided/Solution/OOPTestSummary.java:13-17 | a put adds one to the new kind's count and, when it overwrites, takes one from the old kind's |
| ExpectedExceptions.MessageText | 236703-hw4/OOP4_Provided/Solution/OOPExpectedExceptionImpl.java:43-46 | the text searched is the exception's message, or "" when that is null |
| ExpectedExceptions.MessagesMatch | 236703-hw4/OOP4_Provided/Solution/OOPExpectedExceptionImpl.java:48-52 | the fragment loop succeeds exactly when every fragment is non-null and occurs in the text |
| ExpectedExceptions.Accepts | 236703-hw4/OOP4_Provided/Solution/OOPExpectedExceptionImpl.java:37-55 | `assertExpected` is false with no expected class or for a non-instance; for an instance it holds exactly when every fragment matches |
| ExpectedExceptions.AcceptsWithoutMessages | 236703-hw4/OOP4_Provided/Solution/OOPExpectedExceptionImpl.java:37-55 | with no fragments, any instance of the expected class is accepted |
| ExpectedExceptions.NullFragmentRejects | 236703-hw4/OOP4_Provided/Solution/OOPExpectedExceptionImpl.java:49 | one recorded null fragment rejects every exception |
| ExpectedExceptions.ExpectedException.constructor | 236703-hw4/OOP4_Provided/Solution/OOPExpectedExceptionImpl.java:14-17 | a new rule expects no class and holds no fragments |
| ExpectedExceptions.ExpectedException.NoneExpected | 236703-hw4/OOP4_Provided/Solution/OOPExpectedExceptionImpl.java:57-59 | `none()` returns a fresh rule that expects nothing |
| ExpectedExceptions.ExpectedException.GetExpectedException | 236703-hw4/OOP4_Provided/Solution/OOPExpectedExceptionImpl.java:19-22 | the class the last `expect` recorded, none before any |
| ExpectedExceptions.ExpectedException.Expect | 236703-hw4/OOP4_Provided/Solution/OOPExpectedExceptionImpl.java:25-29 | the last class expected wins, `null` resetting the rule to expect nothing; the fragments stay, and the rule itself is returned |
| ExpectedExceptions.ExpectedException.ExpectMessage | 236703-hw4/OOP4_Provided/Solution/OOPExpectedExceptionImpl.java:31-35 | the fragment is appended, keeping duplicates and nulls, and the rule itself is returned |
| ExpectedExceptions.ExpectedException.AssertExpected | 236703-hw4/OOP4_Provided/Solution/OOPExpectedExceptionImpl.java:37-55 | the answer is `Accepts` of the rule's state, and nothing changes |
| UnitCore.Chain | 236703-hw4/OOP4_Provided/Solution/OOPUnitCore.java:171-184 | the superclass walk visits the class first, then each ancestor |
| UnitCore.RunMethods | 236703-hw4/OOP4_Provided/Solution/OOPUnitCore.java:173-182 | a class without a selected hook leaves the fields as they were |
| UnitCore.RunChain | 236703-hw4/OOP4_Provided/Solution/OOPUnitCore.java:169-214 | a chain without a selected hook leaves the fields as they were |
| UnitCore.CastRule | 236703-hw4/OOP4_Provided/Solution/OOPUnitCore.java:240 | the cast fails exactly on an object that is not a rule, and gives null exactly on null |
| UnitCore.FirstRuleField | 236703-hw4/OOP4_Provided/Solution/OOPUnitCore.java:233-245 | the position found is the first `@OOPExceptionRule` field, and none means there is no such field |
| UnitCore.RuleOf | 236703-hw4/OOP4_Provided/Solution/OOPUnitCore.java:226-251 | with no rule field anywhere on the chain the rule is null |
| UnitCore.FirstRuleFieldDecides | 236703-hw4/OOP4_Provided/Solution/OOPUnitCore.java:226-251 | the first rule field on the chain decides the rule, even when it holds null |
| UnitCore.Classify | 236703-hw4/OOP4_Provided/Solution/OOPUnitCore.java:124-147 | each of the four kinds holds exactly under its own branch condition; a failure carries the cause's message, an error the cause's class name, a success no message; a bad rule field aborts |
| UnitCore.BodyResult | 236703-hw4/OOP4_Provided/Solution/OOPUnitCore.java:119-147 | a body that returns is a success with a null message; one that throws is classified with the rule read after the body ran; a call `invoke` refuses (a test method with parameters) has a null cause and throws a NullPointerException out of the run |
| UnitCore.SelectTests | 236703-hw4/OOP4_Provided/Solution/OOPUnitCore.java:87-96 | exactly the own methods with `@OOPTest` whose tag is empty or matches are selected |
| UnitCore.OrderLeTotal | 236703-hw4/OOP4_Provided/Solution/OOPUnitCore.java:99-101 | comparing by `order` is a total preorder, as `List.sort` needs |
| Sorting.InsertionSort | 236703-hw4/OOP4_Provided/Solution/OOPUnitCore.java:99-101 | `List.sort` with a total preorder returns a sorted permutation of its input |
| Sorting.InsertionSortStable | 236703-hw4/OOP4_Provided/Solution/OOPUnitCore.java:99-101 | the sort is stable: elements that tie keep their relative order |
| UnitCore.ScheduleIsSelection | 236703-hw4/OOP4_Provided/Solution/OOPUnitCore.java:87-101 | exactly the selected tests run; an ORDERED class runs them sorted by `order`, ties in the order the runtime lists the methods |
| UnitCore.RefusedTestAborts | 236703-hw4/OOP4_Provided/Solution/OOPUnitCore.java:121-146 | a test method that `invoke` refuses ends the whole run with a NullPointerException, from `cause.getClass()` on the null cause |
| UnitCore.TestStepRecords | 236703-hw4/OOP4_Provided/Solution/OOPUnitCore.java:104-157 | a test's entry is its body's result, fixed before the after-hooks run, and other entries stay |
| UnitCore.TestStep | 236703-hw4/OOP4_Provided/Solution/OOPUnitCore.java:105-156 | one test: the before-hooks, the body, its result recorded under the test's name, then the after-hooks; a rule field holding a non-rule object aborts the run |
| UnitCore.RunTests | 236703-hw4/OOP4_Provided/Solution/OOPUnitCore.java:104-157 | the tests run one after another in the order given, each from the fields the previous one left, until one ends the run |
| UnitCore.RunTestsKeys | 236703-hw4/OOP4_Provided/Solution/OOPUnitCore.java:104-157 | a completed run has one entry per test, in running order |
| UnitCore.RunSpec | 236703-hw4/OOP4_Provided/Solution/OOPUnitCore.java:62-161 | a null or unannotated class throws an illegal argument before anything runs, and a class that cannot be constructed gives a null summary |
| UnitCore.SummaryMatchesSchedule | 236703-hw4/OOP4_Provided/Solution/OOPUnitCore.java:62-161 | a summary has exactly one entry per scheduled test, in execution order |
| UnitCore.Snapshot | 236703-hw4/OOP4_Provided/Solution/OOPUnitCore.java:269-287 | the backup of a field is null for null, a clone, a copy, or the same reference, by the field's copy policy |
| UnitCore.TestInstance.constructor | 236703-hw4/OOP4_Provided/Solution/OOPUnitCore.java:72-78 | the instance holds the constructed fields |
| UnitCore.TestInstance.Invoke | 236703-hw4/OOP4_Provided/Solution/OOPUnitCore.java:120-123 | invoking a method leaves the fields the method produced |
| UnitCore.TestInstance.RunHooks | 236703-hw4/OOP4_Provided/Solution/OOPUnitCore.java:169-214 | the fields become those of running the chain's selected hooks in order |
| UnitCore.TestInstance.RunClassHooks | 236703-hw4/OOP4_Provided/Solution/OOPUnitCore.java:173-182 | the fields become those of running, in order, the hooks one class declares that the hook kind selects |
| UnitCore.TestInstance.GetExpectedExceptionField | 236703-hw4/OOP4_Provided/Solution/OOPUnitCore.java:226-251 | the answer is `RuleOf` the current fields, and nothing changes |
| UnitCore.FindRule | 236703-hw4/OOP4_Provided/Solution/OOPUnitCore.java:226-251 | the walk up the chain yields `RuleOf`: the first rule-annotated field decides, cast to a rule |
| UnitCore.FindRuleField | 236703-hw4/OOP4_Provided/Solution/OOPUnitCore.java:234-237 | the scan of one class's fields finds its first rule-annotated field, if any |
| UnitCore.TestInstance.BackupState | 236703-hw4/OOP4_Provided/Solution/OOPUnitCore.java:260-292 | a fresh instance holds exactly the chain's fields, each the snapshot of the original value |
| UnitCore.TestInstance.RestoreState | 236703-hw4/OOP4_Provided/Solution/OOPUnitCore.java:301-310 | every chain field takes the backup's value and every other entry stays |
| UnitCore.SnapshotFields | 236703-hw4/OOP4_Provided/Solution/OOPUnitCore.java:267-288 | the backup gains exactly the listed fields, each the snapshot of the instance's value, and keeps what it held |
| UnitCore.CopyFields | 236703-hw4/OOP4_Provided/Solution/OOPUnitCore.java:304-307 | each listed field takes the backup's value and every other entry keeps its value |
| UnitCore.CollectTests | 236703-hw4/OOP4_Provided/Solution/OOPUnitCore.java:87-96 | the collection loop returns `SelectTests` |
| UnitCore.ExecuteTest | 236703-hw4/OOP4_Provided/Solution/OOPUnitCore.java:104-157 | one pass of the loop yields what `TestStep` specifies |
| UnitCore.RunTestLoop | 236703-hw4/OOP4_Provided/Solution/OOPUnitCore.java:104-157 | the loop yields what `RunTests` specifies |
| UnitCore.RunClass | 236703-hw4/OOP4_Provided/Solution/OOPUnitCore.java:62-161 | `runClass(c, tag)` ends as `RunSpec` says |
| UnitCore.RunTestsAborts | 236703-hw4/OOP4_Provided/Solution/OOPUnitCore.java:104-157 | once a test aborts the run, the later tests change nothing |
| UnitCore.RunClassAll | 236703-hw4/OOP4_Provided/Solution/OOPUnitCore.java:50-53 | `runClass(c)` is `runClass(c, "")` |
| UnitCore.ObjectsEquals | 236703-hw4/OOP4_Provided/Solution/OOPUnitCore.java:30 | `Objects.equals`: the same reference is equal, null equals only null, otherwise `equals` decides |
| UnitCore.AssertEquals | 236703-hw4/OOP4_Provided/Solution/OOPUnitCore.java:28-33 | the assertion throws exactly when the two are not `Objects.equals`, with both values |
| UnitCore.Fail | 236703-hw4/OOP4_Provided/Solution/OOPUnitCore.java:40-42 | `fail()` always throws |
| StoryParsing.IndexOf | hw4/StoryTesterImpl.java:225-226 | the first position of the character, -1 exactly when it is absent |
| StoryParsing.LastIndexOf | hw4/StoryTesterImpl.java:170-171 | the last position of the character, -1 exactly when it is absent |
| StoryParsing.LastIndexOfAt | hw4/StoryTesterImpl.java:170-171 | a position holding the character with none after it is the one reported |
| StoryParsing.IndexOfAt | hw4/StoryTesterImpl.java:225-226 | a position holding the character with none before it is the one reported |
| StoryParsing.ParseSentence | hw4/StoryTesterImpl.java:167-171 | a sentence without a space is an array index error; a parsed sentence is well formed and renders back to the input |
| StoryParsing.SentenceParts | hw4/StoryTesterImpl.java:167-171 | given the first space and the last space of the rest, the sentence splits into keyword, key and parameter |
| StoryParsing.ParseRender | hw4/StoryTesterImpl.java:167-171 | every well-formed sentence parses back to itself |
| StoryParsing.SplitLines | hw4/StoryTesterImpl.java:166 | a story without a line feed is its only sentence, and no sentence holds a line feed |
| StoryParsing.SplitJoin | hw4/StoryTesterImpl.java:166 | splitting joined lines gives the lines back, unless the last is empty |
| StoryParsing.SplitThenJoin | hw4/StoryTesterImpl.java:166 | joining the sentences gives a prefix of the story: only the trailing line feeds are lost |
| StoryParsing.FirstLine | hw4/StoryTesterImpl.java:224-225 | the first line is a prefix of the story without a line feed |
| StoryParsing.FirstSentenceKey | hw4/StoryTesterImpl.java:225-226 | the only failure is a string index error |
| StoryParsing.KeyBetweenSpaces | hw4/StoryTesterImpl.java:225-226 | the text between the first and the last space; a line without two such spaces is a string index error |
| StoryParsing.LineKeyAgrees | hw4/StoryTesterImpl.java:224-231 | the text between the spaces exists exactly when the line parses as a sentence, and is that sentence's key |
| StoryParsing.FirstKeyAgrees | hw4/StoryTesterImpl.java:224-231 | the nested search's key exists exactly when the first line parses, and is that sentence's key |
| StoryParsing.FirstLineIsFirstSentence | hw4/StoryTesterImpl.java:166-226 | the first sentence the story loop reads is the line the nested search looked at |
| StoryTesting.AnnotationClass | hw4/StoryTesterImpl.java:143-149 | "Given" and "When" name their annotations, and any other word names `@Then` |
| StoryTesting.Chain | hw4/StoryTesterImpl.java:111-120 | the search walks the class, then its superclasses |
| StoryTesting.FindDeclared | hw4/StoryTesterImpl.java:112-114 | a method it finds is one of the class's declared methods and carries the matching annotation |
| StoryTesting.SearchInheritance | hw4/StoryTesterImpl.java:111-120 | a method it finds carries the matching annotation and is declared by a class of the chain |
| StoryTesting.SearchClass | hw4/StoryTesterImpl.java:111-120 | on a class, the search walks its chain up to `Object`; on an interface, whose superclass is null, it throws a NullPointerException exactly when none of the interface's own methods matches |
| StoryTesting.HasAnnotation | hw4/StoryTesterImpl.java:242-254 | the method matches when it carries the annotation and the annotation's value up to its last space equals the key; a value without a space throws |
| StoryTesting.AnnotationMatchesKey | hw4/StoryTesterImpl.java:242-254 | a step annotated `key placeholder` matches exactly the sentences with key `key`, whatever their parameter |
| StoryTesting.SentenceFindsStep | hw4/StoryTesterImpl.java:167-173 | a sentence written as keyword, key and parameter finds the step annotated with that key |
| StoryTesting.SearchIsFirstCandidate | hw4/StoryTesterImpl.java:111-120 | `searchInheritance` returns the first matching method, walking from the class towards `Object`, or the first exception a value raises |
| StoryTesting.FindDeclaredIsFirst | hw4/StoryTesterImpl.java:111-120 | within one class, the loop over the declared methods stops at the first candidate that matches or throws |
| StoryTesting.SearchNestedIsPreorder | hw4/StoryTesterImpl.java:263-274 | `searchNestedGiven` finds the first class, in pre-order over the nesting tree, whose search decides the `Given` step, and stops at the first search that throws (an interface root without its own `Given` included) |
| StoryTesting.SearchNestedGiven | hw4/StoryTesterImpl.java:263-274 | a class it returns declares the `Given` step along its chain, and is not an interface unless it is the class searched; an interface root that declares no matching `Given` itself throws a NullPointerException before any nested class is searched |
| StoryTesting.SearchNested | hw4/StoryTesterImpl.java:266-272 | a class the loop over the nested classes returns declares the `Given` step in its chain and is not an interface |
| StoryTesting.SearchNestedAllIsPreorder | hw4/StoryTesterImpl.java:263-274 | the loop over the nested classes finds the first such class in pre-order over all of them |
| StoryTesting.Snapshot | hw4/StoryTesterImpl.java:69-101 | a field's backup is null, a clone, a copy, or the same reference, by the field's copy policy |
| StoryTesting.BackupOf | hw4/StoryTesterImpl.java:69-101 | the backup is an instance of the object's class and of each of its superclasses, and holds the snapshot of every field the class declares, each field named by its declaring class and its name |
| StoryTesting.BackupValuesSpec | hw4/StoryTesterImpl.java:69-101 | every field the class declares holds the snapshot of the object's value; every other field of the fresh instance keeps what the constructor gave it |
| StoryTesting.Restore | hw4/StoryTesterImpl.java:128-135 | restoring a class with fields throws when there is no backup, or when the backup's class is neither that class nor a subclass of it; otherwise every declared field takes the backup's value |
| StoryTesting.RestoreValuesSpec | hw4/StoryTesterImpl.java:128-135 | the restore loop writes the backup's value into every declared field and leaves the other entries alone |
| StoryTesting.RestoreUndoes | hw4/StoryTesterImpl.java:69-135 | restoring from a backup of the same class puts every declared field back to its snapshot, whatever happened in between |
| StoryTesting.RestoreFromSubclass | hw4/StoryTesterImpl.java:69-135 | a backup of an object restores any class on its superclass chain without throwing; every field a superclass declares takes the value the constructor gave the backup, even one the subclass shadows with a field of the same name |
| StoryTesting.Resolve | hw4/StoryTesterImpl.java:167-180 | a sentence either fails to parse, makes the search throw, names no step (Given, When or Then not found), or yields its parts and the step the class's search finds |
| StoryTesting.TestSpec | hw4/StoryTesterImpl.java:159-210 | a null story or class is an illegal argument, and the failure count starts at zero |
| StoryTesting.Conclude | hw4/StoryTesterImpl.java:205-209 | an exception from a sentence propagates; otherwise any failure throws a story exception carrying the count and the first failure |
| StoryTesting.NestedSpec | hw4/StoryTesterImpl.java:220-232 | a null argument is an illegal argument, and a `Given` that no class declares is "Given not found" |
| StoryTesting.InterfaceRootThrows | hw4/StoryTesterImpl.java:111-120 | `testOnNestedClasses` on an interface that declares no matching `Given` itself throws a NullPointerException, whatever its nested classes declare, and leaves the tester unchanged |
| StoryTesting.StepTracksWhens | hw4/StoryTesterImpl.java:183-186 | a sentence that fails to resolve changes nothing; a `When` lengthens the run of `When`s and the backup is replaced exactly at a run's first `When` |
| StoryTesting.PerformKeepsWhens | hw4/StoryTesterImpl.java:188-204 | the invocation and its catch touch neither the backup nor the run of `When`s |
| StoryTesting.StepCountsFailures | hw4/StoryTesterImpl.java:195-203 | only a `ComparisonFailure` is counted, adding one, and it is recorded only if it is the first |
| StoryTesting.StepPropagates | hw4/StoryTesterImpl.java:195-204 | any other exception from a step propagates, and after an absorbed `Then` the object is restored |
| StoryTesting.RunStoryStops | hw4/StoryTesterImpl.java:166-205 | once a sentence throws, the rest of the story is not read |
| StoryTesting.RunStory | hw4/StoryTesterImpl.java:166-205 | the sentence loop: each line of the story in order, from the state the previous one left, until one throws |
| StoryTesting.RunStoryKeepsFirstFailure | hw4/StoryTesterImpl.java:195-202 | the failure count never goes down, and the first failure's record stays |
| StoryTesting.RunStoryRecordsFirst | hw4/StoryTesterImpl.java:195-202 | starting from no failures, a story that ends with failures recorded one of its own sentences as the first |
| StoryTesting.StoryVerdict | hw4/StoryTesterImpl.java:159-210 | the story returns normally only when nothing failed; otherwise it throws with the number of failures and the first failing sentence |
| StoryTesting.ConcludeReports | hw4/StoryTesterImpl.java:207-209 | after the loop, failures throw exactly the story exception with their count |
| StoryTesting.RunStoryNeverReports | hw4/StoryTesterImpl.java:166-205 | no sentence throws the story exception itself; that happens only after the loop |
| StoryTesting.StoryTester.constructor | hw4/StoryTesterImpl.java:18-22 | a new tester has no backup, no failure record and no failures |
| StoryTesting.StoryTester.BackUpInstance | hw4/StoryTesterImpl.java:69-101 | the backup becomes a fresh instance of the object's class holding a snapshot of its declared fields, and nothing else changes |
| StoryTesting.StoryTester.RestoreInstance | hw4/StoryTesterImpl.java:128-135 | the result is `Restore` from the current backup |
| StoryTesting.StoryTester.ProcessSentence | hw4/StoryTesterImpl.java:166-205 | one pass of the sentence loop does what `Step` specifies |
| StoryTesting.StoryTester.TrackWhens | hw4/StoryTesterImpl.java:183-186 | the `When` bookkeeping does what `TrackWhen` specifies |
| StoryTesting.StoryTester.InvokeStep | hw4/StoryTesterImpl.java:188-204 | the invocation and its catch do what `Perform` specifies |
| StoryTesting.StoryTester.AbsorbFailure | hw4/StoryTesterImpl.java:195-203 | the catch of a `ComparisonFailure` does what `Absorb` specifies |
| StoryTesting.StoryTester.TestOnInheritanceTree | hw4/StoryTesterImpl.java:159-210 | the tester's new state and the exception thrown are those of `TestSpec` |
| StoryTesting.StoryTester.TestOnNestedClasses | hw4/StoryTesterImpl.java:220-232 | the tester's new state and the exception thrown are those of `NestedSpec` |
| RushHour.MakeMove | hw5/part2/MoveVehicle.h:22-43 | a move compiles exactly for a non-negative amount and a non-EMPTY type |
| RushHour.FindFrom | hw5/part2/MoveVehicle.h:59-126 | the scan finds the first cell, in row-major order from the start, that holds the type; none means "Type was not found!" |
| RushHour.FindCar | hw5/part2/MoveVehicle.h:134-161 | the car is found at its first cell in row-major order, if it is on the board |
| RushHour.FarEnd | hw5/part2/MoveVehicle.h:175-220 | the far end is `len - 1` cells from the first cell, along the row or the column of the move |
| RushHour.Transpose | hw5/part2/MoveVehicle.h:362-364 | row `j` of the transpose is column `j` of the board |
| RushHour.TransposeTwice | hw5/part2/MoveVehicle.h:360-365 | transposing twice gives a board with non-empty rows back |
| RushHour.StepRight | hw5/part2/MoveVehicle.h:255-276 | a step right needs the target cell to be EMPTY; it then writes the car there and clears the cell left behind |
| RushHour.SlideRight | hw5/part2/MoveVehicle.h:255-292 | zero steps leave the board unchanged |
| RushHour.StepLeft | hw5/part2/MoveVehicle.h:307-328 | a step left needs the target cell to be EMPTY; it then writes the car there and clears the cell left behind |
| RushHour.SlideLeft | hw5/part2/MoveVehicle.h:307-344 | zero steps leave the board unchanged |
| RushHour.Direct | hw5/part2/MoveVehicle.h:239-418 | DOWN and UP move RIGHT and LEFT on the transposed board and transpose back; zero steps return the board as it is |
| RushHour.MoveVehicle | hw5/part2/MoveVehicle.h:448-482 | the start cell must be on the board and hold a vehicle whose axis is the move's axis, and the amount must be non-negative |
| RushHour.SlideRightClosed | hw5/part2/MoveVehicle.h:255-292 | sliding right succeeds exactly when the cells past the car are on the board and EMPTY, and then only the car's row changes |
| RushHour.SlideLeftClosed | hw5/part2/MoveVehicle.h:307-344 | sliding left succeeds exactly when the cells before the car are on the board and EMPTY |
| RushHour.FindCarAt | hw5/part2/MoveVehicle.h:59-161 | the search locates a car at its first cell: the left end of a horizontal car, the top of a vertical one |
| RushHour.FarEndIsLastCell | hw5/part2/MoveVehicle.h:175-220 | the far end computed for a car is its last cell |
| RushHour.SlideRightMovesCar | hw5/part2/MoveVehicle.h:255-292 | a horizontal car slid right is the same car, that many cells further right |
| RushHour.SlideLeftMovesCar | hw5/part2/MoveVehicle.h:307-344 | a horizontal car slid left is the same car, that many cells further left |
| RushHour.CarAtTranspose | hw5/part2/MoveVehicle.h:360-365 | a vertical car is a horizontal car of the transposed board |
| RushHour.MoveRight | hw5/part2/MoveVehicle.h:448-482 | moving a horizontal car right compiles exactly when the amount is non-negative and the cells past it are EMPTY; the car then moves that far and only its row changes |
| RushHour.MoveLeft | hw5/part2/MoveVehicle.h:448-482 | moving a horizontal car left compiles exactly when the amount is non-negative and the cells before it are EMPTY; the car then moves that far and only its row changes |
| RushHour.MoveDown | hw5/part2/MoveVehicle.h:360-381 | moving a vertical car down compiles exactly when the cells below it are EMPTY; the car is then the same car lower down and only its column changes |
| RushHour.MoveUp | hw5/part2/MoveVehicle.h:397-418 | moving a vertical car up compiles exactly when the cells above it are EMPTY; the car is then the same car higher up and only its column changes |
| RushHour.ZeroStepMove | hw5/part2/MoveVehicle.h:448-482 | a zero-step move that passes the checks returns the board unchanged |
| RushHour.ZeroStepTransposes | hw5/part2/MoveVehicle.h:378-381 | skipping the transposition for zero steps agrees with transposing there and back |
| TunesEntities.ContainsSong | hw2/UserImpl.java:105 | a list contains a song exactly when it holds one with the same ID |
| TunesEntities.AnyContained | hw2/UserImpl.java:105 | `anyMatch(contains)` holds exactly when the lists share a song ID |
| TunesEntities.Song.constructor | hw2/SongImpl.java:19-28 | a new song holds its details and no ratings |
| TunesEntities.Song.New | hw2/SongImpl.java:19-28 | a negative ID, a negative length or a null name or singer is an illegal argument; otherwise a fresh unrated song |
| TunesEntities.Song.RateSong | hw2/SongImpl.java:51-59 | a rate outside 0..10 is refused first, then a second rate by the same user; otherwise the rate is recorded |
| TunesEntities.Song.Raters | hw2/SongImpl.java:62-69 | every rater once, ordered by rate descending, then age ascending, then ID descending |
| TunesEntities.Song.Ratings | hw2/SongImpl.java:72-78 | the raters grouped by rate: each rater under exactly the rate given, and no empty group |
| TunesEntities.Song.AverageRating | hw2/SongImpl.java:81-86 | 0 without ratings, otherwise between 0 and 10 |
| TunesEntities.Song.HashCode | hw2/SongImpl.java:97-99 | `Objects.hash(id)` is `31 + id` for an ID in range |
| TunesEntities.Song.Equals | hw2/SongImpl.java:89-95 | two songs are equal exactly when their IDs are |
| TunesEntities.Song.CompareTo | hw2/SongImpl.java:102-104 | the comparison follows the IDs |
| TunesEntities.User.constructor | hw2/UserImpl.java:19-28 | a new user holds its details, no ratings and no friends |
| TunesEntities.User.New | hw2/UserImpl.java:19-28 | a negative ID or age or a null name is an illegal argument; otherwise a fresh user |
| TunesEntities.User.RateSong | hw2/UserImpl.java:46-55 | a rate outside 0..10 is refused first, then a song already rated; otherwise the rate is recorded, the user returned, and the playlist grows by the song's length |
| TunesEntities.User.AddFriend | hw2/UserImpl.java:90-98 | the same user is refused, then an existing friend; otherwise only this user's friends grow |
| TunesEntities.User.RatedSongs | hw2/UserImpl.java:71-78 | every rated song once, ordered by rate descending, then length ascending, then ID descending |
| TunesEntities.User.RatedSongSet | hw2/TechnionTunesImpl.java:142-144 | the set of the rated songs |
| TunesEntities.User.FavoriteIds | hw2/UserImpl.java:81-87 | the IDs of the songs rated at least 8 |
| TunesEntities.User.FavoriteSongs | hw2/UserImpl.java:81-87 | the songs rated at least 8, each once, in ascending ID order |
| TunesEntities.User.FavoriteSongInCommon | hw2/UserImpl.java:101-106 | false for a non-friend; otherwise true exactly when the favourite lists, or equally the favourite ID sets, overlap |
| TunesEntities.User.PlaylistLength | hw2/UserImpl.java:66-68 | 0 with no songs, and the exact sum of lengths when that fits in an int |
| TunesEntities.User.GetFriends | hw2/UserImpl.java:109-115 | each friend, mapped to the number of songs that friend rated |
| TunesEntities.User.HashCode | hw2/UserImpl.java:131-133 | `Objects.hash(id)` is `31 + id` for an ID in range |
| TunesEntities.User.Equals | hw2/UserImpl.java:123-128 | two users are equal exactly when their IDs are |
| TunesEntities.User.CompareTo | hw2/UserImpl.java:118-120 | the comparison follows the IDs |
| TunesEntities.UserEqualityConsistent | hw2/UserImpl.java:118-133 | equal users hash alike and compare as equal |
| TunesEntities.SongEqualityConsistent | hw2/SongImpl.java:88-104 | equal songs hash alike and compare as equal |
| TunesEntities.SharedFavorites | hw2/UserImpl.java:101-106 | two favourite lists overlap exactly when the favourite ID sets intersect |
| Tunes.GetAlongGraph | hw2/TechnionTunesImpl.java:236-243 | the graph `canGetAlong` searches is closed over the registered users |
| Tunes.GetAlongEdges | hw2/TechnionTunesImpl.java:240-242 | an edge leads exactly to a registered friend with whom a favourite song is shared |
| Tunes.AddUserKeepsOk | hw2/TechnionTunesImpl.java:32-40 | a fresh user keeps the registry's invariant |
| Tunes.AddSongKeepsOk | hw2/TechnionTunesImpl.java:85-93 | a fresh song keeps the registry's invariant |
| Tunes.BefriendKeepsOk | hw2/TechnionTunesImpl.java:68-73 | befriending two distinct non-friends both ways keeps the invariant |
| Tunes.RateKeepsOk | hw2/TechnionTunesImpl.java:123-128 | recording a fresh valid rate on both sides keeps the invariant |
| Tunes.TechnionTunes.constructor | hw2/TechnionTunesImpl.java:17-20 | a new system has no users and no songs |
| Tunes.TechnionTunes.AddUser | hw2/TechnionTunesImpl.java:32-40 | a taken ID is refused first, then invalid details; otherwise a fresh user with no ratings or friends is registered under the ID, and nothing else changes |
| Tunes.TechnionTunes.GetUser | hw2/TechnionTunesImpl.java:50-56 | an unknown ID fails with "user doesn't exist"; otherwise the registered user with that ID |
| Tunes.TechnionTunes.GetAlongEdge | hw2/TechnionTunesImpl.java:236-241 | `favoriteSongInCommon` between registered users is exactly an edge of the get-along graph |
| Tunes.TechnionTunes.GetSong | hw2/TechnionTunesImpl.java:103-109 | an unknown ID fails with "song doesn't exist"; otherwise the registered song with that ID |
| Tunes.TechnionTunes.AddSong | hw2/TechnionTunesImpl.java:85-93 | a taken ID is refused first, then invalid details; otherwise a fresh unrated song is registered under the ID, and nothing else changes |
| Tunes.TechnionTunes.MostRatedSongs | hw2/TechnionTunesImpl.java:185-192 | a negative number is refused; otherwise the first `num` songs, ordered by raters descending, then length ascending, then ID descending, each before every song left out |
| Tunes.TechnionTunes.Iterator | hw2/TechnionTunesImpl.java:256-261 | every song once, shorter first, then the smaller ID |
| Tunes.TechnionTunes.GetIntersection | hw2/TechnionTunesImpl.java:138-147 | null or empty input gives the empty set; an unknown ID fails; otherwise exactly the songs every listed user rated |
| Tunes.TechnionTunes.CanGetAlong | hw2/TechnionTunesImpl.java:219-247 | a missing user fails; otherwise the answer is whether the second user is reachable from the first in the get-along graph |
| Tunes.TechnionTunes.Search | hw2/TechnionTunesImpl.java:227-246 | the breadth-first search answers reachability in the graph |
| Tunes.TechnionTunes.EnqueueFriends | hw2/TechnionTunesImpl.java:240-244 | each unvisited get-along friend is queued, the queue keeps what it had, and everything queued is reachable |
| Tunes.TechnionTunes.MakeFriends | hw2/TechnionTunesImpl.java:68-73 | a missing user fails first, then the same user twice, then existing friends; otherwise both friend tables gain the other |
| Tunes.TechnionTunes.Befriend | hw2/TechnionTunesImpl.java:71-72 | each user's `AddFriend` accepts the other, and nothing else changes |
| Tunes.TechnionTunes.RateSong | hw2/TechnionTunesImpl.java:123-128 | a missing user, then a missing song, then a bad rate, then a song already rated fails; otherwise the rate is recorded by the user and by the song |
| Tunes.TechnionTunes.Record | hw2/TechnionTunesImpl.java:126-127 | the user's `rateSong`, then the song's, records the rate on both sides |
| Burgers.Average | OOP2_Spring24/OOP/Solution/RestaurantImpl.java:37-46 | the average rating is 0 when nobody rated |
| Burgers.AverageBounds | OOP2_Spring24/OOP/Solution/RestaurantImpl.java:25-46 | ratings `rate` accepts average between 0 and 5 |
| Burgers.MeanOf | OOP2_Spring24/OOP/Solution/RestaurantImpl.java:37-46 | the accumulating loop computes `Average` |
| Burgers.RatingKeyOrder | OOP2_Spring24/OOP/Solution/HungryStudentImpl.java:71-96 | ordered keys mean a higher average first, then the nearer, then the smaller ID |
| Burgers.DistKeyOrder | OOP2_Spring24/OOP/Solution/HungryStudentImpl.java:98-123 | ordered keys mean the nearer first, then the higher average, then the smaller ID |
| Burgers.KeptByKey | OOP2_Spring24/OOP/Solution/HungryStudentImpl.java:71-123 | the filter is a bound on the key's first field |
| Burgers.RankedMembers | OOP2_Spring24/OOP/Solution/HungryStudentImpl.java:71-123 | every entry of a view is a favourite the filter keeps |
| Burgers.RankedComplete | OOP2_Spring24/OOP/Solution/HungryStudentImpl.java:71-123 | every favourite the filter keeps is in the view |
| Burgers.RankedOrder | OOP2_Spring24/OOP/Solution/HungryStudentImpl.java:71-123 | a view lists its entries in the comparator's order |
| Burgers.IdKeyOrder | OOP2_Spring24/OOP/Solution/HamburgerNetworkImpl.java:68-77 | a natural-order `TreeSet` of restaurants compares by ID |
| Burgers.CollectedById | OOP2_Spring24/OOP/Solution/HamburgerNetworkImpl.java:64-103 | in natural order the result lists IDs ascending, one for each kept favourite of a friend |
| Burgers.TreeAdd | OOP2_Spring24/OOP/Solution/HamburgerNetworkImpl.java:84 | `TreeSet.add` keeps key order, drops an element whose key is present, and otherwise adds it |
| Burgers.AddAll | OOP2_Spring24/OOP/Solution/HamburgerNetworkImpl.java:84 | `addAll` keeps key order and holds exactly the keys of both |
| Burgers.GatheredCollected | OOP2_Spring24/OOP/Solution/HamburgerNetworkImpl.java:79-86 | adding each friend's view to the tree in turn collects what `Collected` describes |
| Burgers.LevelSearch | OOP2_Spring24/OOP/Solution/HamburgerNetworkImpl.java:167-190 | the level-bounded breadth-first search answers whether a goal node lies at most `t` edges from the start |
| Graphs.BallIsWithinHops | OOP2_Spring24/OOP/Solution/HamburgerNetworkImpl.java:167-190 | the students the level-by-level search visits within `n` levels are exactly those at most `n` friendships away |
| Graphs.BallMeetsGoal | OOP2_Spring24/OOP/Solution/HamburgerNetworkImpl.java:167-190 | the visited students meet a set of students exactly when one of the set is at most `n` friendships away |
| Graphs.BallWithinHops | OOP2_Spring24/OOP/Solution/HamburgerNetworkImpl.java:167-190 | every student the search visits within `n` levels ends a walk of at most `n` friendships |
| Graphs.HopsWithinBall | OOP2_Spring24/OOP/Solution/HamburgerNetworkImpl.java:167-190 | every student at most `n` friendships away is visited within `n` levels |
| Burgers.ScanLevel | OOP2_Spring24/OOP/Solution/HamburgerNetworkImpl.java:173-187 | one level either finds a goal node in it, or queues exactly the next layer and marks it visited |
| Burgers.RenderRestaurant | OOP2_Spring24/OOP/Solution/RestaurantImpl.java:67-86 | the builder code produces the name, ID, distance and the sorted menu |
| HamburgerEntities.Restaurant.constructor | OOP2_Spring24/OOP/Solution/RestaurantImpl.java:13-19 | a new restaurant holds its details and no ratings |
| HamburgerEntities.Restaurant.Rate | OOP2_Spring24/OOP/Solution/RestaurantImpl.java:25-31 | a rating outside 0..5 is refused; otherwise it replaces the student's earlier rating, and valid ratings stay valid |
| HamburgerEntities.Restaurant.NumberOfRates | OOP2_Spring24/OOP/Solution/RestaurantImpl.java:33-35 | one rating per student, 0 exactly when nobody rated |
| HamburgerEntities.Restaurant.AverageRating | OOP2_Spring24/OOP/Solution/RestaurantImpl.java:37-46 | the exact mean, 0 without ratings, between 0 and 5 for valid ratings |
| HamburgerEntities.Restaurant.HashCode | OOP2_Spring24/OOP/Solution/RestaurantImpl.java:56-59 | the hash is `Objects.hash(id)`, wrapped to 32 bits |
| HamburgerEntities.Restaurant.Equals | OOP2_Spring24/OOP/Solution/RestaurantImpl.java:49-54 | two restaurants are equal exactly when their IDs are |
| HamburgerEntities.Restaurant.DidStudentRate | OOP2_Spring24/OOP/Solution/RestaurantImpl.java:100-102 | a student has rated the restaurant exactly when the student's ID is among the raters |
| HamburgerEntities.Restaurant.CompareTo | OOP2_Spring24/OOP/Solution/RestaurantImpl.java:61-65 | -1, 0 or 1 following the IDs, 0 exactly when `equals` holds |
| HamburgerEntities.Restaurant.ToString | OOP2_Spring24/OOP/Solution/RestaurantImpl.java:67-86 | the text is the name, ID and distance, then the menu sorted and comma-separated |
| HamburgerEntities.RestaurantHashAgrees | OOP2_Spring24/OOP/Solution/RestaurantImpl.java:48-65 | equal restaurants hash alike and compare as equal |
| HamburgerEntities.StudentHashAgrees | OOP2_Spring24/OOP/Solution/HungryStudentImpl.java:125-147 | equal students hash alike and compare as equal |
| HamburgerEntities.RestaurantCompareAntisymmetric | OOP2_Spring24/OOP/Solution/RestaurantImpl.java:61-65 | `compareTo` is antisymmetric |
| HamburgerEntities.RerateKeepsCount | OOP2_Spring24/OOP/Solution/RestaurantImpl.java:25-35 | a second rating by the same student leaves the count unchanged |
| HamburgerEntities.RankingMembers | OOP2_Spring24/OOP/Solution/HungryStudentImpl.java:71-123 | every entry of a student's view is a favourite the filter keeps, with its current stats |
| HamburgerEntities.RankingComplete | OOP2_Spring24/OOP/Solution/HungryStudentImpl.java:71-123 | every favourite the filter keeps is in the student's view |
| HamburgerEntities.RankingOrder | OOP2_Spring24/OOP/Solution/HungryStudentImpl.java:71-123 | a student's view is in the comparator's order |
| HamburgerEntities.FavoritesView | OOP2_Spring24/OOP/Solution/HungryStudentImpl.java:71-123 | the view holds exactly the kept favourites, in the comparator's order |
| HamburgerEntities.HungryStudent.constructor | OOP2_Spring24/OOP/Solution/HungryStudentImpl.java:16-21 | a new student has no favourites and no friends |
| HamburgerEntities.HungryStudent.Favorite | OOP2_Spring24/OOP/Solution/HungryStudentImpl.java:23-36 | a restaurant the student has not rated is refused; one already listed is kept once; otherwise it is appended |
| HamburgerEntities.HungryStudent.AddFriend | OOP2_Spring24/OOP/Solution/HungryStudentImpl.java:44-56 | the student itself is refused, then an existing friend; otherwise only this student's table gains the friend |
| HamburgerEntities.HungryStudent.AddFriendBothWays | OOP2_Spring24/OOP/HungryStudentImpl.java:44-57 | the same refusals; otherwise each student's table gains the other |
| HamburgerEntities.HungryStudent.GetFriends | OOP2_Spring24/OOP/Solution/HungryStudentImpl.java:58-69 | every friend once, in ascending ID order |
| HamburgerEntities.HungryStudent.FavoritesByRating | OOP2_Spring24/OOP/Solution/HungryStudentImpl.java:71-96 | the favourites with an average of at least the limit, best average first, then the nearer, then the smaller ID |
| HamburgerEntities.HungryStudent.FavoritesByDist | OOP2_Spring24/OOP/Solution/HungryStudentImpl.java:98-123 | the favourites at most the limit away, nearest first, then the best average, then the smaller ID |
| HamburgerEntities.HungryStudent.HashCode | OOP2_Spring24/OOP/Solution/HungryStudentImpl.java:144-147 | the hash is the ID |
| HamburgerEntities.HungryStudent.Equals | OOP2_Spring24/OOP/Solution/HungryStudentImpl.java:126-132 | two students are equal exactly when their IDs are |
| HamburgerEntities.HungryStudent.CompareTo | OOP2_Spring24/OOP/Solution/HungryStudentImpl.java:134-142 | -1, 0 or 1 following the IDs, 0 exactly when `equals` holds |
| HamburgerEntities.HungryStudent.ToString | OOP2_Spring24/OOP/Solution/HungryStudentImpl.java:149-161 | the text is the name and ID, then the distinct favourite names sorted and comma-separated |
| HamburgerEntities.FavoriteNames | OOP2_Spring24/OOP/Solution/HungryStudentImpl.java:149-161 | exactly the names of the favourites |
| HamburgerEntities.Collect | OOP2_Spring24/OOP/Solution/HamburgerNetworkImpl.java:79-86 | adding each friend's view to one `TreeSet` collects what `Collected` describes |
| HamburgerEntities.RatingLimitKeepsAll | OOP2_Spring24/OOP/Solution/HamburgerNetworkImpl.java:84 | a rating limit of 0 drops no favourite |
| HamburgerEntities.DistanceLimitKeepsAll | OOP2_Spring24/OOP/Solution/HamburgerNetworkImpl.java:100 | a distance limit of `Integer.MAX_VALUE` drops no favourite |
| HamburgerOneWay.HamburgerNetwork.constructor | OOP2_Spring24/OOP/Solution/HamburgerNetworkImpl.java:9-12 | a new network has no students and no restaurants |
| HamburgerOneWay.HamburgerNetwork.JoinNetwork | OOP2_Spring24/OOP/Solution/HamburgerNetworkImpl.java:14-21 | a taken ID is refused; otherwise a fresh student is registered under it and returned |
| HamburgerOneWay.HamburgerNetwork.AddRestaurant | OOP2_Spring24/OOP/Solution/HamburgerNetworkImpl.java:23-30 | a taken ID is refused; otherwise a fresh restaurant is registered under it and returned |
| HamburgerOneWay.HamburgerNetwork.RegisteredStudents | OOP2_Spring24/OOP/Solution/HamburgerNetworkImpl.java:32-34 | exactly the registered students |
| HamburgerOneWay.HamburgerNetwork.RegisteredRestaurants | OOP2_Spring24/OOP/Solution/HamburgerNetworkImpl.java:36-38 | exactly the registered restaurants |
| HamburgerOneWay.HamburgerNetwork.GetStudent | OOP2_Spring24/OOP/Solution/HamburgerNetworkImpl.java:40-46 | the student under the ID, failing exactly when there is none |
| HamburgerOneWay.HamburgerNetwork.GetRestaurant | OOP2_Spring24/OOP/Solution/HamburgerNetworkImpl.java:48-54 | the restaurant under the ID, failing exactly when there is none |
| HamburgerOneWay.HamburgerNetwork.AddConnection | OOP2_Spring24/OOP/Solution/HamburgerNetworkImpl.java:56-62 | an unregistered student is refused, then `s1.addFriend(s2)` decides; only `s1`'s table changes |
| HamburgerOneWay.HamburgerNetwork.FriendGraph | OOP2_Spring24/OOP/Solution/HamburgerNetworkImpl.java:156-191 | the friendship graph has the registered students as nodes |
| HamburgerOneWay.HamburgerNetwork.FavoritesByRating | OOP2_Spring24/OOP/Solution/HamburgerNetworkImpl.java:64-87 | an unregistered student is refused; otherwise the friends' favourites with an average of at least 0, in ID order, once each |
| HamburgerOneWay.HamburgerNetwork.FavoritesByDist | OOP2_Spring24/OOP/Solution/HamburgerNetworkImpl.java:89-103 | an unregistered student is refused; otherwise the friends' favourites within `Integer.MAX_VALUE`, in ID order, once each |
| HamburgerOneWay.HamburgerNetwork.GetRecommendation | OOP2_Spring24/OOP/Solution/HamburgerNetworkImpl.java:156-191 | the student is checked first, then the restaurant, then a negative `t`; otherwise true exactly when a student within `t` friendships has the restaurant as a favourite |
| HamburgerOneWay.HamburgerNetwork.ToString | OOP2_Spring24/OOP/Solution/HamburgerNetworkImpl.java:105-150 | the text is `NetworkText` of the friendship graph and the restaurant IDs |
| HamburgerOneWay.RenderNetwork | OOP2_Spring24/OOP/Solution/HamburgerNetworkImpl.java:105-150 | the builder code produces the sorted student IDs, the sorted restaurant IDs, and one line of sorted friend IDs per student |
| HamburgerOneWay.AppendStudentLines | OOP2_Spring24/OOP/Solution/HamburgerNetworkImpl.java:132-147 | the loop appends one line per student, in order |
| HamburgerTwoWay.HamburgerNetwork.constructor | OOP2_Spring24/OOP/HamburgerNetworkImpl.java:21-24 | a new network has no students and no restaurants |
| HamburgerTwoWay.HamburgerNetwork.JoinNetwork | OOP2_Spring24/OOP/HamburgerNetworkImpl.java:26-34 | a taken ID is refused; otherwise a fresh student is registered under it and returned |
| HamburgerTwoWay.HamburgerNetwork.AddRestaurant | OOP2_Spring24/OOP/HamburgerNetworkImpl.java:36-44 | a taken ID is refused; otherwise a fresh restaurant is registered under it and returned |
| HamburgerTwoWay.HamburgerNetwork.GetRestaurant | OOP2_Spring24/OOP/HamburgerNetworkImpl.java:54-60 | the restaurant under the ID, failing exactly when there is none |
| HamburgerTwoWay.HamburgerNetwork.GetStudent | OOP2_Spring24/OOP/HamburgerNetworkImpl.java:62-68 | the student under the ID, failing exactly when there is none |
| HamburgerTwoWay.HamburgerNetwork.AddConnectionById | OOP2_Spring24/OOP/HamburgerNetworkImpl.java:70-78 | an unregistered ID is refused, then the student itself, then an existing friend; otherwise both students gain each other and no other student changes |
| HamburgerTwoWay.HamburgerNetwork.AddConnection | OOP2_Spring24/OOP/HamburgerNetworkImpl.java:80-87 | the same refusals and the same two-way friendship, for student objects |
| HamburgerTwoWay.HamburgerNetwork.FriendGraph | OOP2_Spring24/OOP/HamburgerNetworkImpl.java:137-172 | the friendship graph has the registered students as nodes |
| HamburgerTwoWay.HamburgerNetwork.FriendshipMutual | OOP2_Spring24/OOP/HungryStudentImpl.java:44-57 | friendship is mutual: the graph is symmetric |
| HamburgerTwoWay.HamburgerNetwork.ReachMutual | OOP2_Spring24/OOP/HamburgerNetworkImpl.java:137-172 | a student within `t` friendships of another has the other within `t` friendships too |
| HamburgerTwoWay.HamburgerNetwork.FavoritesByRating | OOP2_Spring24/OOP/HamburgerNetworkImpl.java:89-111 | an unregistered student is refused; otherwise the friends' favourites, best average first, then the nearer, then the smaller ID, once each |
| HamburgerTwoWay.HamburgerNetwork.FavoritesByDist | OOP2_Spring24/OOP/HamburgerNetworkImpl.java:113-135 | an unregistered student is refused; otherwise the friends' favourites, nearest first, then the best average, then the smaller ID, once each |
| HamburgerTwoWay.HamburgerNetwork.GetRecommendation | OOP2_Spring24/OOP/HamburgerNetworkImpl.java:137-172 | the student is checked first, then the restaurant; then true when a student within `t` friendships has the restaurant as a favourite, and otherwise (a negative `t` included) an impossible connection |
| HamburgerTwoWay.HamburgerNetwork.RecommendationReach | OOP2_Spring24/OOP/HamburgerNetworkImpl.java:137-172 | the level search meets a student holding the favourite exactly when such a student is within `t` friendships |
| HamburgerTwoWay.HamburgerNetwork.FriendGraphClosed | OOP2_Spring24/OOP/HamburgerNetworkImpl.java:70-87 | every friend is a registered student, so the search never leaves the network |
| HamburgerTwoWay.HamburgerNetwork.RegisteredStudents | OOP2_Spring24/OOP/HamburgerNetworkImpl.java:174-178 | exactly the registered students |
| HamburgerTwoWay.HamburgerNetwork.RegisteredRestaurants | OOP2_Spring24/OOP/HamburgerNetworkImpl.java:180-184 | exactly the registered restaurants |
| HamburgerTwoWay.HashAsWritten | OOP2_Spring24/OOP/RestaurantImpl.java:88-91 | this draft's hash mixes ID, name, distance, menu and ratings |
| JavaLang.HashSumAt | OOP2_Spring24/OOP/RestaurantImpl.java:88-91 | the hash of the menu set and of the ratings map does not depend on the order in which the collection visits its elements |
| JavaLang.Wrap32OfSum | OOP2_Spring24/OOP/RestaurantImpl.java:88-91 | adding the element hashes in `int` arithmetic, wrapping at each step, gives the exact sum wrapped once |
| HamburgerTwoWay.EqualButHashedApart | OOP2_Spring24/OOP/RestaurantImpl.java:74-91 | two restaurants with the same ID are equal, yet this draft's hash separates them |
| HamburgerTwoWay.RatingMovesHash | OOP2_Spring24/OOP/RestaurantImpl.java:40-91 | a rating changes this draft's hash of a restaurant |

## Left out

- Floating point: averages (`averageRating`, `getAverageRating`) are exact
  quotients, and the orders built on them compare exact values. Double
  rounding and NaN are not modelled.
- Hash-table iteration order:
  - `registeredStudents`, `registeredRestaurants`, `getRaters` grouping and
    `getIntersection` are sets or orders fixed by a comparator;
  - the friends `canGetAlong` queues are taken in an unspecified order.
- Object identity: the network and the registry look objects up by ID. An
  object forged outside with the ID of a registered one is not modelled
  (`Known`), so `containsValue` is a lookup by ID.
- Null references and casts: `Option` stands for a nullable argument where
  the source handles null. Arguments the source dereferences without a check
  are never null here; for example, `UnitCore.SelectTests` and
  `UnitCore.RunClass` take a non-null tag, while Java's `tag.isEmpty()`
  (`236703-hw4/OOP4_Provided/Solution/OOPUnitCore.java:92`) throws a
  NullPointerException for a null tag once the class declares a test method. Casts to `RestaurantImpl` and `HungryStudentImpl`
  are not modelled, since every object is of that class here.
- Restaurant ratings are keyed by the rating student's ID, which is what the
  student's `equals` and `hashCode` use.
- `getRecommendationAux` (`OOP2_Spring24/OOP/Solution/HamburgerNetworkImpl.java:152-154`)
  has no body and does not compile, so it has no counterpart.
- Getters that only return a field (`getID`, `getName`, `getMenu`,
  `favorites`, `getRestaurants`, `getStudents` and the like) are field reads.
- The network's `favoritesBy*` read each restaurant's stats once, as they are
  during the call. A comparator that reads a rating changed mid-call is not
  modelled.
- TechnionTunes `sortSongs` takes an arbitrary caller comparator.
  `getHighestRatedSongs` and `getTopLikers` order by a floating-point
  average. None of the three is modelled.
- Reflection (`getDeclaredMethods`, annotations, `setAccessible`,
  `Method.invoke`, `Field.get/set`, constructors), `clone()`, copy
  constructors and `Integer.parseInt`: these are the `Runtime` parameter of
  `UnitCore` and `StoryTesting`.
- Exception messages of classes that are not part of this model:
  - `OOPExceptionMismatchError`, `OOPAssertionFailure`, `ComparisonFailure`
    and `StoryTestExceptionImpl`;
  - their texts are opaque strings or the parameter `rt.mismatch`.
- UnitCore.RunClass: two branches of `runClass` cannot run, because hooks
  swallow their own exceptions:
  - restoring the snapshot after a before-hook fails;
  - turning an after-hook failure into ERROR.
  `TestInstance.RestoreState` is still modelled as its own method.
- UnitCore.TestInstance.BackupState: a `clone` that cannot be looked up
  crashes the source with a null cause. The model assumes every snapshot
  succeeds.
- StoryTesting.BackupOf: `clone()` and the copy constructor are total
  functions of the runtime, and every field can be set. The model does not
  capture these failures of `backUpInstance` (`hw4/StoryTesterImpl.java:69-101`):
  - `getDeclaredMethod("clone")` failing for an array field or an inherited `clone`;
  - a `clone()` or copy constructor that throws;
  - `field.set` on a `static final` field.
- RushHour.MoveVehicle: the board is rectangular (every row as long as the
  first). `List.h`, `Utilities.h`, `TransposeList.h`, `BoardCell.h`,
  `CellType.h` and `Direction.h` are not part of this model; their list
  operations are sequence index, update and transpose. The colours of
  vehicles are vehicle numbers.
- Concurrency: none of the modelled code is concurrent.
- States reached only by calling an entity directly: `Tunes.SystemOk` and
  `Valid` of both `HamburgerNetwork` classes hold of every state the
  systems' own operations reach, and the operations require them. A client
  can break them from outside:
  - `getUser(id).AddFriend(...)` or `rateSong(...)` on a user obtained from
    `TechnionTunes` updates one side only; a later `makeFriends` or
    `rateSong` on that pair then makes the first update and throws on the
    second;
  - `addFriend` on a registered student with an unregistered one leaves a
    friend the network does not know.
  Such states are not modelled, and `TechnionTunes.Link` and
  `TechnionTunes.RateBoth` treat the second failure as impossible.
- Strings are sequences of Unicode scalar values, not of UTF-16 code units.
  `JavaText.StringLt`, `JavaText.SortedStrings` and `JavaLang.StringHash`
  agree with Java's `compareTo` and `hashCode` on strings without characters
  outside the Basic Multilingual Plane; a supplementary character counts as
  one character with its code point, where Java sees two surrogates.
- StoryTesting.Fresh: the fields of the backup's fresh instance come from the
  constructor that made the test instance before the story began. When that
  constructor fails, the story has already stopped with a construction
  failure, so the empty map the model falls back to is never read.

## Findings

| source | as written | input that shows it | evidently intended | confidence | as-written member | corrected member |
|---|---|---|---|---|---|---|
| OOP2_Spring24/OOP/RestaurantImpl.java:88-91 | `hashCode` hashes ID, name, distance, menu and ratings, while `equals` compares the ID only | two restaurants with ID 1, distance 0, empty menu and no ratings, named "a" and "b": equal, with hashes 32442399 and 32472190 | hash the ID only, as the other draft does, so that equal restaurants hash alike | not executed | HamburgerTwoWay.EqualButHashedApart | HamburgerEntities.Restaurant.HashCode |
