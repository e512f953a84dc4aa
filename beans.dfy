/** Beans and the operations both containers share: making one bean per
    class through its zero-argument constructor, finding the first bean
    assignable to a requested type, and wiring a bean's candidate fields. */
module Beans {
  import opened Wrappers
  import opened Reflection

  /** A bean: an object whose class is fixed at construction and whose
      declared fields the container may overwrite. */
  class Bean {
    const cls: ClassId
    var fields: Fields

    constructor (cls: ClassId, fields: Fields)
      ensures this.cls == cls && this.fields == fields
    {
      this.cls := cls;
      this.fields := fields;
    }
  }

  /** What a field holds: null, a value of the bean's own making, or a
      reference to a bean. */
  datatype Value = Null | Own(token: nat) | Ref(bean: Bean)

  type Fields = map<FieldName, Value>

  /** The exceptions that abort a container: `RuntimeException` wrapping
      the reflective exception thrown by a constructor, or the
      `IllegalAccessException` thrown by `Field.set`. */
  datatype ContainerError =
    | ConstructionFailed(cls: ClassId, cause: CtorOutcome)
    | FieldAccessFailed(cls: ClassId, field: FieldName)

  function FromInit(v: InitValue): Value {
    match v
    case NullInit => Null
    case OwnInit(t) => Own(t)
  }

  /** The fields of a freshly constructed object of a class declaring `decls`. */
  function InitialFields(decls: seq<FieldDecl>): (f: Fields)
    requires NamesDistinct(decls)
    ensures forall d :: d in decls ==> d.name in f && f[d.name] == FromInit(d.initial)
  {
    map d | d in decls :: d.name := FromInit(d.initial)
  }

  /** A field map holding every field its class declares. */
  predicate Shaped(u: Universe, cls: ClassId, f: Fields) {
    cls in u.classes && forall d :: d in u.classes[cls].fields ==> d.name in f
  }

  predicate ClassesDistinct(classes: seq<ClassId>) {
    forall i, j :: 0 <= i < j < |classes| ==> classes[i] != classes[j]
  }

  predicate BeansDistinct(beans: seq<Bean>) {
    forall i, j :: 0 <= i < j < |beans| ==> beans[i] != beans[j]
  }

  function ClassesOf(beans: seq<Bean>): (cs: seq<ClassId>)
    ensures |cs| == |beans| && forall i :: 0 <= i < |beans| ==> cs[i] == beans[i].cls
  {
    seq(|beans|, i requires 0 <= i < |beans| => beans[i].cls)
  }

  // ---------------------------------------------------------------------
  // Resolution: `getBean`
  // ---------------------------------------------------------------------

  /** Some bean of the given classes is assignable to `t`. */
  predicate Resolvable(u: Universe, classes: seq<ClassId>, t: ClassId) {
    exists c :: c in classes && Assignable(u, t, c)
  }

  /** The bean `getBean(t)` returns: the first, in the bean set's iteration
      order, whose class passes the filter; `None` stands for null. It reads
      the beans' classes only, never their fields. */
  function Resolve(u: Universe, beans: seq<Bean>, t: ClassId): (r: Option<Bean>)
    ensures r.Some? ==> Assignable(u, t, r.value.cls)
    decreases |beans|
  {
    if beans == [] then None
    else if Matches(u, t, beans[0].cls) then Some(beans[0])
    else Resolve(u, beans[1..], t)
  }

  /** `getBean` returns null exactly when no bean is assignable to `t`;
      otherwise it returns a bean of the set that is assignable to `t` and
      no bean before it in iteration order is. */
  lemma {:induction false} ResolveSpec(u: Universe, beans: seq<Bean>, t: ClassId)
    ensures var r := Resolve(u, beans, t);
      && (r.None? <==> forall i :: 0 <= i < |beans| ==> !Assignable(u, t, beans[i].cls))
      && (r.Some? ==> r.value in beans)
      && (r.Some? ==> exists i :: 0 <= i < |beans| && beans[i] == r.value
                                  && forall j :: 0 <= j < i ==> !Assignable(u, t, beans[j].cls))
    decreases |beans|
  {
    if beans != [] && !Matches(u, t, beans[0].cls) {
      var rest := beans[1..];
      ResolveSpec(u, rest, t);
      assert forall i :: 1 <= i < |beans| ==> beans[i] == rest[i - 1];
      var r := Resolve(u, rest, t);
      if r.Some? {
        var k :| 0 <= k < |rest| && rest[k] == r.value
                 && forall j :: 0 <= j < k ==> !Assignable(u, t, rest[j].cls);
        assert beans[k + 1] == r.value;
      }
    } else if beans != [] {
      assert beans[0] in beans;
    }
  }

  /** Resolution depends only on which classes the beans have. */
  lemma ResolveIffResolvable(u: Universe, beans: seq<Bean>, t: ClassId)
    ensures Resolve(u, beans, t).Some? <==> Resolvable(u, ClassesOf(beans), t)
  {
    var cs := ClassesOf(beans);
    ResolveSpec(u, beans, t);
    if Resolvable(u, cs, t) {
      var c :| c in cs && Assignable(u, t, c);
      var i :| 0 <= i < |cs| && cs[i] == c;
      assert Assignable(u, t, beans[i].cls);
    }
  }

  /** A bean whose class is exactly the requested one does not win over a
      subtype bean that comes first in iteration order. */
  lemma ExactMatchNotPreferred(sub: Bean, exact: Bean)
    requires sub.cls == "JdbcUserDao" && exact.cls == "UserDao"
    ensures var u := Universe(map[], map["JdbcUserDao" := {"UserDao"}]);
            Resolve(u, [sub, exact], "UserDao") == Some(sub) && sub != exact
  {
  }

  // ---------------------------------------------------------------------
  // Wiring one bean: `setFields` / `setField`
  // ---------------------------------------------------------------------

  /** The value a field holds after `setField`: the resolved bean, or what
      it held before when nothing resolves. */
  function WiredValue(u: Universe, beans: seq<Bean>, d: FieldDecl, v: Value): Value {
    match Resolve(u, beans, d.declaredType)
    case Some(b) => Ref(b)
    case None => v
  }

  /** `setField` applied in turn to each of `cands`, on a bean of class
      `owner` whose fields are `fields`; the first `Field.set` that throws
      aborts the rest. */
  function WireFields(u: Universe, beans: seq<Bean>, owner: ClassId, cands: seq<FieldDecl>, fields: Fields)
    : Result<Fields, ContainerError>
    decreases |cands|
  {
    if cands == [] then Success(fields)
    else
      var d := cands[0];
      match Resolve(u, beans, d.declaredType)
      case None => WireFields(u, beans, owner, cands[1..], fields)
      case Some(b) =>
        if d.settable then WireFields(u, beans, owner, cands[1..], fields[d.name := Ref(b)])
        else Failure(FieldAccessFailed(owner, d.name))
  }

  /** The candidate at index `i` is one whose wiring throws. */
  predicate Throws(u: Universe, beans: seq<Bean>, cands: seq<FieldDecl>, i: int)
    requires 0 <= i < |cands|
  {
    Resolve(u, beans, cands[i].declaredType).Some? && !cands[i].settable
  }

  /** No candidate's wiring throws. */
  predicate WireOk(u: Universe, beans: seq<Bean>, cands: seq<FieldDecl>) {
    forall i :: 0 <= i < |cands| ==> !Throws(u, beans, cands, i)
  }

  /** Wiring succeeds exactly when no resolved candidate is unsettable;
      otherwise the error names the first candidate whose `Field.set` threw. */
  lemma {:induction false} WireFieldsOutcome(u: Universe, beans: seq<Bean>, owner: ClassId, cands: seq<FieldDecl>, fields: Fields)
    ensures var r := WireFields(u, beans, owner, cands, fields);
      && (r.Success? <==> WireOk(u, beans, cands))
      && (r.Failure? ==> exists i :: 0 <= i < |cands| && Throws(u, beans, cands, i)
                           && (forall j :: 0 <= j < i ==> !Throws(u, beans, cands, j))
                           && r.error == FieldAccessFailed(owner, cands[i].name))
  {
    if cands != [] {
      var d, rest := cands[0], cands[1..];
      WireOkUncons(u, beans, cands);
      if !Throws(u, beans, cands, 0) {
        var next := if Resolve(u, beans, d.declaredType).Some?
                    then fields[d.name := Ref(Resolve(u, beans, d.declaredType).value)]
                    else fields;
        WireFieldsOutcome(u, beans, owner, rest, next);
        var r := WireFields(u, beans, owner, rest, next);
        assert WireFields(u, beans, owner, cands, fields) == r;
        if r.Failure? {
          var i :| 0 <= i < |rest| && Throws(u, beans, rest, i)
                   && (forall j :: 0 <= j < i ==> !Throws(u, beans, rest, j))
                   && r.error == FieldAccessFailed(owner, rest[i].name);
          assert Throws(u, beans, cands, i + 1) && rest[i] == cands[i + 1];
          forall j | 0 <= j < i + 1 ensures !Throws(u, beans, cands, j) {
            if j > 0 { assert !Throws(u, beans, rest, j - 1); }
          }
        }
      }
    }
  }

  lemma WireOkUncons(u: Universe, beans: seq<Bean>, cands: seq<FieldDecl>)
    requires cands != []
    ensures WireOk(u, beans, cands) <==> !Throws(u, beans, cands, 0) && WireOk(u, beans, cands[1..])
    ensures forall i :: 0 <= i < |cands[1..]| ==> (Throws(u, beans, cands[1..], i) <==> Throws(u, beans, cands, i + 1))
  {
    var rest := cands[1..];
    forall i | 0 <= i < |rest| ensures Throws(u, beans, rest, i) <==> Throws(u, beans, cands, i + 1) {
      assert rest[i] == cands[i + 1];
    }
    if !Throws(u, beans, cands, 0) && WireOk(u, beans, rest) {
      forall i | 0 <= i < |cands| ensures !Throws(u, beans, cands, i) {
        if i > 0 { assert !Throws(u, beans, rest, i - 1); }
      }
    }
  }

  /** After successful wiring every candidate holds its resolved bean, or
      its old value when nothing resolves, and every other field keeps its
      value. */
  lemma {:induction false} WireFieldsResult(u: Universe, beans: seq<Bean>, owner: ClassId, cands: seq<FieldDecl>, fields: Fields)
    requires NamesDistinct(cands)
    requires forall d :: d in cands ==> d.name in fields
    ensures var r := WireFields(u, beans, owner, cands, fields);
      r.Success? ==>
        && r.value.Keys == fields.Keys
        && (forall d :: d in cands ==> r.value[d.name] == WiredValue(u, beans, d, fields[d.name]))
        && (forall k :: k in fields && !Declares(cands, k) ==> r.value[k] == fields[k])
  {
    if cands != [] {
      var d, rest := cands[0], cands[1..];
      assert NamesDistinct(rest);
      assert forall e :: e in rest ==> e.name != d.name by {
        forall e | e in rest ensures e.name != d.name {
          var k :| 0 <= k < |rest| && rest[k] == e;
          assert cands[k + 1] == e;
        }
      }
      assert forall e :: e in cands <==> e == d || e in rest;
      var next := if Resolve(u, beans, d.declaredType).Some? && d.settable
                  then fields[d.name := Ref(Resolve(u, beans, d.declaredType).value)]
                  else fields;
      WireFieldsResult(u, beans, owner, rest, next);
      var r := WireFields(u, beans, owner, cands, fields);
      if r.Success? {
        assert r == WireFields(u, beans, owner, rest, next);
        assert r.value[d.name] == WiredValue(u, beans, d, fields[d.name]) by {
          assert !Declares(rest, d.name);
        }
        forall k | k in fields && !Declares(cands, k) ensures r.value[k] == fields[k] {
          assert !Declares(rest, k);
          assert k != d.name;
        }
      }
    }
  }

  /** Wiring a bean twice gives what wiring it once gave: resolution never
      reads the fields wiring writes. */
  lemma WireFieldsIdempotent(u: Universe, beans: seq<Bean>, owner: ClassId, cands: seq<FieldDecl>, fields: Fields)
    requires NamesDistinct(cands)
    requires forall d :: d in cands ==> d.name in fields
    ensures var r := WireFields(u, beans, owner, cands, fields);
            r.Success? ==> WireFields(u, beans, owner, cands, r.value) == r
  {
    var r := WireFields(u, beans, owner, cands, fields);
    WireFieldsOutcome(u, beans, owner, cands, fields);
    WireFieldsResult(u, beans, owner, cands, fields);
    if r.Success? {
      WireFieldsOutcome(u, beans, owner, cands, r.value);
      WireFieldsResult(u, beans, owner, cands, r.value);
      var r2 := WireFields(u, beans, owner, cands, r.value);
      forall k | k in r.value ensures r2.value[k] == r.value[k] {
        if Declares(cands, k) {
          var d :| d in cands && d.name == k;
          assert r2.value[k] == WiredValue(u, beans, d, r.value[k]);
        }
      }
      assert r2.value == r.value;
    }
  }

  // ---------------------------------------------------------------------
  // Building: `instantiateClass` / `createBeans`
  // ---------------------------------------------------------------------

  predicate Constructible(u: Universe, c: ClassId) {
    c in u.classes && u.classes[c].ctor == Constructs
  }

  predicate AllConstructible(u: Universe, classes: seq<ClassId>) {
    forall i :: 0 <= i < |classes| ==> Constructible(u, classes[i])
  }

  /** `e` is the wrapped exception of the first class, in stream order,
      whose constructor fails. */
  predicate FirstConstructionError(u: Universe, classes: seq<ClassId>, e: ContainerError) {
    exists k :: 0 <= k < |classes| && classes[k] in u.classes && !Constructible(u, classes[k])
      && (forall j :: 0 <= j < k ==> Constructible(u, classes[j]))
      && e == ConstructionFailed(classes[k], u.classes[classes[k]].ctor)
  }

  /** A new object of class `c` through its zero-argument constructor, or
      the wrapped reason the constructor could not be used. */
  method InstantiateClass(u: Universe, c: ClassId) returns (r: Result<Bean, ContainerError>)
    requires WellFormed(u) && c in u.classes
    ensures r.Success? <==> Constructible(u, c)
    ensures r.Failure? ==> r.error == ConstructionFailed(c, u.classes[c].ctor)
    ensures r.Success? ==> fresh(r.value) && r.value.cls == c
                           && r.value.fields == InitialFields(u.classes[c].fields)
  {
    var info := u.classes[c];
    if info.ctor != Constructs {
      return Failure(ConstructionFailed(c, info.ctor));
    }
    var bean := new Bean(c, InitialFields(info.fields));
    r := Success(bean);
  }

  /** One new bean per class, in the classes' order; the first class whose
      constructor fails aborts the build. */
  method CreateBeans(u: Universe, classes: seq<ClassId>) returns (r: Result<seq<Bean>, ContainerError>)
    requires WellFormed(u)
    requires forall i :: 0 <= i < |classes| ==> classes[i] in u.classes
    ensures r.Success? <==> AllConstructible(u, classes)
    ensures r.Failure? ==> FirstConstructionError(u, classes, r.error)
    ensures r.Success? ==> |r.value| == |classes| && BeansDistinct(r.value)
    ensures r.Success? ==> forall i :: 0 <= i < |classes| ==>
              fresh(r.value[i]) && r.value[i].cls == classes[i]
              && r.value[i].fields == InitialFields(u.classes[classes[i]].fields)
  {
    var acc: seq<Bean> := [];
    for i := 0 to |classes|
      invariant |acc| == i
      invariant forall j :: 0 <= j < i ==> Constructible(u, classes[j])
      invariant BeansDistinct(acc)
      invariant forall j :: 0 <= j < i ==>
                  fresh(acc[j]) && acc[j].cls == classes[j]
                  && acc[j].fields == InitialFields(u.classes[classes[j]].fields)
    {
      var made := InstantiateClass(u, classes[i]);
      if made.Failure? {
        assert !Constructible(u, classes[i]);
        return Failure(made.error);
      }
      acc := acc + [made.value];
    }
    r := Success(acc);
  }
}
