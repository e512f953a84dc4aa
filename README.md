# A verified model of a small dependency-injection container

This project models the `DIContainer` of the `di` module. The module holds it in two
versions:

- stage 4 (`nextstep.study.di.stage4.annotations`) wires only the fields annotated with `@Inject`;
- stage 3 (`nextstep.study.di.stage3.context`) wires every field a class declares.

Both versions receive a set of classes and work in two phases. In the build phase
they make one bean per class through its zero-argument constructor. In the wiring
phase they visit every bean; for each candidate field they ask `getBean` for the
field's declared type and store the answer when it is not null. `getBean(T)`
returns the first bean, in the bean set's iteration order, whose class equals `T`
or is assignable to `T`.

How Java reflection is modelled:

- Reflection becomes data (module `Reflection`). A `Universe` lists the known classes.
  For each class it records what its zero-argument constructor does (`CtorOutcome`)
  and its declared fields (`FieldDecl`: name, declared type, whether it carries
  `@Inject`, whether `Field.set` accepts a value, and what the constructor leaves in it).
  It also records each class's proper supertypes.
- `Assignable` is `isAssignableFrom`, reflexive by definition.
- A bean is a Dafny `class Bean` with a fixed `cls` and a `fields` map that wiring overwrites.
- Exceptions become `Result`/`Outcome` values carrying a `ContainerError`:
  - `ConstructionFailed` is the `RuntimeException` that wraps a constructor failure;
  - `FieldAccessFailed` is the `RuntimeException` that wraps the `IllegalAccessException` of `Field.set`.

The modules are:

- `Beans`: what both versions share. `instantiateClass`, `createBeans` and `getBean` are
  identical in the two files and are defined once here. The module also holds the
  specification of wiring one bean (`WireFields`).
- `Lifecycle`: the wiring phase as a whole. It contains a specification of
  `beans.forEach(this::setFields)` in any visiting order.
- `Stage4` and `Stage3`: a `class DIContainer` each.
  - The Java constructor is the static method `New`, which returns the container or the exception.
  - `WireBeans`, `SetFields`, `SetField` and `GetBean` follow the Java methods.
  - `Valid()` and `Ready()` describe a constructed container.

Everything rests on one fact: resolution reads only the bean set and the beans'
classes, never a bean's fields. Because of that, wiring one bean is a function of
that bean's class and initial fields. Wiring is therefore order-independent and
idempotent, and every resolvable candidate field ends up holding `getBean` of its type.

The code gives an exact-type match no priority: the filter
`getClass().equals(T) || T.isAssignableFrom(getClass())` reduces to assignability,
and `findFirst` takes the first match in iteration order
(`Reflection.MatchesIsAssignable`, `Beans.ExactMatchNotPreferred`). It does not
reject duplicate classes: it receives a `Set<Class<?>>`, which cannot hold any, so
`New` takes the classes as distinct.

## Model

| member | source | states |
|---|---|---|
| Reflection.MatchesIsAssignable | di/src/test/java/nextstep/study/di/stage4/annotations/DIContainer.java:68 | the `equals` half of `getBean`'s filter adds nothing: a class passes the filter exactly when the requested type is assignable from it |
| Reflection.InjectFields | di/src/test/java/nextstep/study/di/stage4/annotations/DIContainer.java:47-49 | the `@Inject` filter keeps at most as many fields as are declared |
| Reflection.InjectFieldsSpec | di/src/test/java/nextstep/study/di/stage4/annotations/DIContainer.java:47-49 | a field is kept exactly when it is declared and carries `@Inject`; kept names stay distinct |
| Reflection.CandidatesSpec | di/src/test/java/nextstep/study/di/stage3/context/DIContainer.java:41-42 | stage 3 wires every declared field and stage 4 exactly the `@Inject` ones; candidates are declared fields with distinct names |
| Reflection.PlainFieldNotCandidate | di/src/test/java/nextstep/study/di/stage4/annotations/DIContainer.java:47-50 | a field without `@Inject` is never among stage 4's wiring candidates |
| Beans.InitialFields | di/src/test/java/nextstep/study/di/stage4/annotations/DIContainer.java:37 | a freshly constructed object holds every declared field, with the value its constructor left in it |
| Beans.Resolve | di/src/test/java/nextstep/study/di/stage4/annotations/DIContainer.java:66-71 | a bean `getBean(T)` returns is assignable to `T` |
| Beans.ResolveSpec | di/src/test/java/nextstep/study/di/stage4/annotations/DIContainer.java:66-71 | `getBean(T)` is null exactly when no bean is assignable to `T`; otherwise it returns a member of the bean set that is assignable to `T`, and no earlier bean is assignable to `T` |
| Beans.ResolveIffResolvable | di/src/test/java/nextstep/study/di/stage4/annotations/DIContainer.java:67-70 | whether `getBean(T)` finds a bean depends only on the beans' classes |
| Beans.ExactMatchNotPreferred | di/src/test/java/nextstep/study/di/stage4/annotations/DIContainer.java:67-70 | a subtype bean that comes first is returned even though a bean of exactly the requested class exists |
| Beans.WireFieldsOutcome | di/src/test/java/nextstep/study/di/stage4/annotations/DIContainer.java:50-63 | wiring a bean's candidates throws exactly when some resolvable candidate refuses `Field.set`; the error names the first such field |
| Beans.WireFieldsResult | di/src/test/java/nextstep/study/di/stage4/annotations/DIContainer.java:50-63 | after successful wiring, each candidate holds `getBean` of its type or, when that is null, its old value; no field is added or removed; non-candidate fields are untouched |
| Beans.WireFieldsIdempotent | di/src/test/java/nextstep/study/di/stage4/annotations/DIContainer.java:50-63 | wiring a bean a second time changes nothing |
| Beans.InstantiateClass | di/src/test/java/nextstep/study/di/stage4/annotations/DIContainer.java:33-43 | a new object of the class with its constructed fields, or the wrapped constructor failure |
| Beans.CreateBeans | di/src/test/java/nextstep/study/di/stage4/annotations/DIContainer.java:27-31 | succeeds exactly when every constructor works; gives one fresh, distinct bean per class, in class order, each with its constructed fields; otherwise gives the error of the first failing class |
| Lifecycle.WireBeanOutcome | di/src/test/java/nextstep/study/di/stage4/annotations/DIContainer.java:45-51 | `setFields` on a bean succeeds exactly when its class wires cleanly against the bean classes; its error names a candidate that resolves and refuses `Field.set` |
| Lifecycle.WiringSuccessIsClean | di/src/test/java/nextstep/study/di/stage4/annotations/DIContainer.java:45-51 | when `setFields` succeeds, no candidate of the bean's class that some bean satisfies refuses `Field.set` |
| Lifecycle.WiredFieldsSpec | di/src/test/java/nextstep/study/di/stage4/annotations/DIContainer.java:45-63 | `setFields` keeps every declared field and adds none; a second call changes nothing; on success each candidate holds `getBean` of its type or its old value; non-candidate fields keep their values |
| Lifecycle.WireAllSucceeds | di/src/test/java/nextstep/study/di/stage4/annotations/DIContainer.java:19 | `forEach(setFields)` in any order succeeds exactly when every visited bean's class wires cleanly |
| Lifecycle.WireAllResult | di/src/test/java/nextstep/study/di/stage4/annotations/DIContainer.java:19 | a successful `forEach(setFields)` leaves each visited bean with what `setFields` gives it from its own fields, whatever was wired before |
| Lifecycle.WiringOrderIndependent | di/src/test/java/nextstep/study/di/stage4/annotations/DIContainer.java:19 | two visiting orders of the same beans both succeed or both fail, and on success leave the same fields |
| Lifecycle.WiringSucceeded | di/src/test/java/nextstep/study/di/stage4/annotations/DIContainer.java:17-20 | if `setFields` succeeds on every freshly built bean, every class wires cleanly and each bean keeps all its declared fields |
| Lifecycle.WiringFailureIsGenuine | di/src/test/java/nextstep/study/di/stage4/annotations/DIContainer.java:17-20 | if `setFields` throws on a freshly built bean, the error is a real `Field.set` refusal on a resolvable candidate, and not every class wires cleanly |
| Lifecycle.ContainerStateIsForEach | di/src/test/java/nextstep/study/di/stage4/annotations/DIContainer.java:17-20 | the fields of a wired container are exactly what `forEach(setFields)` over its beans, in any order, leaves |
| Stage4.DIContainer.New | di/src/test/java/nextstep/study/di/stage4/annotations/DIContainer.java:17-20 | the constructor succeeds exactly when every constructor works and every class wires cleanly; otherwise it returns the first constructor failure or a genuine wiring error; on success there is one fresh bean per class, and every bean is wired from its constructed fields and keeps all its declared fields |
| Stage4.DIContainer.WireBeans | di/src/test/java/nextstep/study/di/stage4/annotations/DIContainer.java:19 | visiting the beans in order gives each one what `setFields` gives it, and stops at the first bean whose wiring throws, with that error; every earlier bean was wired without error |
| Stage4.DIContainer.SetFields | di/src/test/java/nextstep/study/di/stage4/annotations/DIContainer.java:45-51 | the loop over `@Inject` fields leaves the bean's fields, and returns the outcome, that wiring its `@Inject` candidates specifies |
| Stage4.DIContainer.SetField | di/src/test/java/nextstep/study/di/stage4/annotations/DIContainer.java:53-63 | when `getBean` is null the bean is unchanged and no error occurs; otherwise the field receives that bean, or `Field.set` refuses and the bean is unchanged |
| Stage4.DIContainer.GetBean | di/src/test/java/nextstep/study/di/stage4/annotations/DIContainer.java:66-71 | null exactly when no bean is assignable; otherwise a member of the bean set that is assignable to the type, the first such in iteration order; the answer depends on the fixed bean set alone, so wiring never changes it |
| Stage4.InjectFieldHoldsBean | di/src/test/java/nextstep/study/di/stage4/annotations/DIContainer.java:53-59 | in a constructed container every `@Inject` field holds `getBean` of its type, or its constructed value when that is null |
| Stage4.PlainFieldKeepsConstructedValue | di/src/test/java/nextstep/study/di/stage4/annotations/DIContainer.java:47-50 | in a constructed container every field without `@Inject` holds the value its constructor gave it |
| Stage3.DIContainer.New | di/src/test/java/nextstep/study/di/stage3/context/DIContainer.java:16-19 | as for stage 4, with every declared field a wiring candidate |
| Stage3.DIContainer.WireBeans | di/src/test/java/nextstep/study/di/stage3/context/DIContainer.java:18 | visiting the beans in order gives each one what `setFields` gives it, and stops at the first bean whose wiring throws, with that error; every earlier bean was wired without error |
| Stage3.DIContainer.SetFields | di/src/test/java/nextstep/study/di/stage3/context/DIContainer.java:39-53 | the `for` loop over all declared fields leaves the bean's fields, and returns the outcome, that wiring every declared field specifies |
| Stage3.DIContainer.GetBean | di/src/test/java/nextstep/study/di/stage3/context/DIContainer.java:55-61 | null exactly when no bean is assignable; otherwise the first bean in iteration order that is assignable to the type |
| Stage3.DeclaredFieldHoldsBean | di/src/test/java/nextstep/study/di/stage3/context/DIContainer.java:41-48 | in a constructed container every declared field holds `getBean` of its type, or its constructed value when that is null |
| Stage3.SelfTypedFieldResolves | di/src/test/java/nextstep/study/di/stage3/context/DIContainer.java:44-47 | a field whose type the bean's own class satisfies always receives an assignable bean; it receives the bean itself when no earlier bean matches |

## Left out

- `createContainerForPackage` and `ClassPathScanner` (stage 4, lines 22-25) are not part of this model. The classpath scan is a call into the Reflections library, so the scanned classes are an input to `New`.
- `e.printStackTrace()` is output and is not modelled. The wrapped cause is kept in `ConstructionFailed`.
- `setAccessible(true)` always succeeds in the model. When it fails it throws the unchecked `InaccessibleObjectException`, which the `catch` at stage 4 lines 38-39 (stage 3 lines 32-33) does not catch.
- Unchecked reflection failures abort construction unwrapped, and the model has no outcome for them. These are that `InaccessibleObjectException`, an `ExceptionInInitializerError` from a failing static initialiser during `newInstance`, and the like. The four `CtorOutcome` failures are only the checked exceptions the container wraps.
- A field that `Field.set` refuses with `IllegalAccessException` (a `static final` field, or a final field of a record class, for one) is a field whose `settable` flag is false.
- Fields inherited from a superclass are not represented. Neither version wires them, because `getDeclaredFields` excludes them, so an inherited `@Inject` field is silently skipped.
- `getBean(null)` throws `NullPointerException` whenever the bean set is non-empty. The model's requested type is always a class, so it has no such case.
- The iteration order of the `HashSet` of beans is hash-based and unspecified. Java uses two independent orders: the build phase iterates the input `Set<Class<?>>`, while `forEach(setFields)` and `getBean` iterate the bean `HashSet`. The model merges them into one, the order of the class sequence given to `New`. The build phase, `WireBeans` and `getBean`'s first match follow that order. `Lifecycle.WiringOrderIndependent` shows the wired fields do not depend on it; which bean `getBean` picks among several matches does depend on it.
- Bean identity: `Collectors.toSet()` merges objects that are `equals`. The model assumes identity equality, as for classes that do not override `equals`, so the bean set holds one bean per class.
- Static fields are shared by all instances of a class. The model gives every declared field its own slot per bean.
- Field values are not type-checked against the field's declared type, beyond what `getBean` guarantees. `Field.set` never receives an unassignable bean here, so the `IllegalArgumentException` path cannot occur.
- The aop, transaction, thread and reflection test files are not part of this model. They are proxy glue, a database demonstration, a thread-pool demonstration and library reflection calls.
