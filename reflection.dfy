/** What the container learns about classes through Java reflection, as plain
    data: which classes exist, what their zero-argument constructor does,
    which fields they declare, and which class is assignable to which. */
module Reflection {

  /** A `Class<?>` handle, identified by its name. */
  type ClassId = string

  type FieldName = string

  /** What `getDeclaredConstructor()` followed by `newInstance()` does for a
      class, once `setAccessible(true)` has succeeded. Every outcome but
      `Constructs` is one of the four checked exceptions the container
      catches and rethrows wrapped; unchecked failures are not modelled. */
  datatype CtorOutcome =
    | Constructs                          // a new instance is returned
    | NoSuchMethod                        // no zero-argument constructor (an interface has none)
    | IllegalAccess                       // cannot arise after `setAccessible(true)`; kept because the `catch` names it
    | Instantiation                       // the class is abstract
    | InvocationTarget(cause: string)     // the constructor body threw `cause`

  /** The value a field holds when the constructor returns: null, or some
      value the constructor made itself (a primitive or an object the
      container does not manage), identified by an opaque token. */
  datatype InitValue = NullInit | OwnInit(token: nat)

  /** One entry of `getDeclaredFields()`. `settable` says whether
      `Field.set` succeeds once the field is made accessible (it throws
      `IllegalAccessException` for a static final field, or a final field
      of a record class). */
  datatype FieldDecl = FieldDecl(
    name: FieldName,
    declaredType: ClassId,
    inject: bool,
    settable: bool,
    initial: InitValue)

  datatype ClassInfo = ClassInfo(ctor: CtorOutcome, fields: seq<FieldDecl>)

  /** The classes the JVM knows, and for each class every proper supertype
      (superclasses and implemented interfaces) it has. */
  datatype Universe = Universe(
    classes: map<ClassId, ClassInfo>,
    supers: map<ClassId, set<ClassId>>)

  /** `requested.isAssignableFrom(concrete)`: reflexive by definition. */
  predicate Assignable(u: Universe, requested: ClassId, concrete: ClassId) {
    requested == concrete || (concrete in u.supers && requested in u.supers[concrete])
  }

  /** The filter `getBean` applies to a bean of class `concrete`, as written:
      the class equals the requested one, or the requested one is
      assignable from it. */
  predicate Matches(u: Universe, requested: ClassId, concrete: ClassId) {
    concrete == requested || Assignable(u, requested, concrete)
  }

  /** The equality test in the filter adds nothing: `isAssignableFrom` is
      reflexive, so an exact match gets no priority over a subtype. */
  lemma MatchesIsAssignable(u: Universe, requested: ClassId, concrete: ClassId)
    ensures Matches(u, requested, concrete) <==> Assignable(u, requested, concrete)
  {
  }

  /** A class never declares two fields of the same name. */
  predicate NamesDistinct(decls: seq<FieldDecl>) {
    forall i, j :: 0 <= i < j < |decls| ==> decls[i].name != decls[j].name
  }

  /** What the JVM guarantees of every class's field declarations. */
  predicate WellFormed(u: Universe) {
    forall c :: c in u.classes ==> NamesDistinct(u.classes[c].fields)
  }

  /** Whether `decls` declares a field called `k`. */
  predicate Declares(decls: seq<FieldDecl>, k: FieldName) {
    exists d :: d in decls && d.name == k
  }

  /** The declared fields that carry `@Inject`, in the order
      `getDeclaredFields()` returns them. */
  function InjectFields(decls: seq<FieldDecl>): (r: seq<FieldDecl>)
    ensures |r| <= |decls|
  {
    if decls == [] then []
    else if decls[0].inject then [decls[0]] + InjectFields(decls[1..])
    else InjectFields(decls[1..])
  }

  /** The annotated fields are exactly the declared fields that carry
      `@Inject`, and no two of them share a name. */
  lemma {:induction false} InjectFieldsSpec(decls: seq<FieldDecl>)
    ensures forall d :: d in InjectFields(decls) <==> d in decls && d.inject
    ensures NamesDistinct(decls) ==> NamesDistinct(InjectFields(decls))
  {
    if decls != [] {
      var rest := InjectFields(decls[1..]);
      InjectFieldsSpec(decls[1..]);
      assert forall d :: d in decls <==> d == decls[0] || d in decls[1..];
      if decls[0].inject && NamesDistinct(decls) {
        forall d | d in rest ensures d.name != decls[0].name {
          var k :| 0 <= k < |decls[1..]| && decls[1..][k] == d;
          assert decls[k + 1] == d;
        }
        assert NamesDistinct(decls[1..]) by {
          forall i, j | 0 <= i < j < |decls[1..]| ensures decls[1..][i].name != decls[1..][j].name {
            assert decls[1..][i] == decls[i + 1] && decls[1..][j] == decls[j + 1];
          }
        }
        var r := [decls[0]] + rest;
        forall i, j | 0 <= i < j < |r| ensures r[i].name != r[j].name {
          if i == 0 {
            assert r[j] in rest;
          } else {
            assert r[i] == rest[i - 1] && r[j] == rest[j - 1];
          }
        }
      } else if NamesDistinct(decls) {
        assert NamesDistinct(decls[1..]) by {
          forall i, j | 0 <= i < j < |decls[1..]| ensures decls[1..][i].name != decls[1..][j].name {
            assert decls[1..][i] == decls[i + 1] && decls[1..][j] == decls[j + 1];
          }
        }
      }
    }
  }

  /** Which declared fields a container wires: the `@Inject`-annotated ones,
      or every declared field. */
  datatype Mode = InjectAnnotated | AllDeclared

  function Candidates(mode: Mode, decls: seq<FieldDecl>): (r: seq<FieldDecl>)
    ensures |r| <= |decls|
  {
    match mode
    case InjectAnnotated => InjectFields(decls)
    case AllDeclared => decls
  }

  /** A container wires declared fields only, all of them in the plain mode
      and exactly the `@Inject` ones in the annotation-driven mode; their
      names stay distinct. */
  lemma CandidatesSpec(mode: Mode, decls: seq<FieldDecl>)
    ensures forall d :: d in Candidates(mode, decls) ==> d in decls
    ensures mode == AllDeclared ==> Candidates(mode, decls) == decls
    ensures mode == InjectAnnotated ==> forall d :: d in Candidates(mode, decls) <==> d in decls && d.inject
    ensures NamesDistinct(decls) ==> NamesDistinct(Candidates(mode, decls))
  {
    InjectFieldsSpec(decls);
  }

  /** A field that is not `@Inject` is never a wiring candidate of an
      annotation-driven container, even if another declaration shares its
      type. */
  lemma PlainFieldNotCandidate(decls: seq<FieldDecl>, d: FieldDecl)
    requires NamesDistinct(decls)
    requires d in decls && !d.inject
    ensures !Declares(Candidates(InjectAnnotated, decls), d.name)
  {
    InjectFieldsSpec(decls);
  }
}
