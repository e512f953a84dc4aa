/** The implicit-wiring container (stage 3): it builds one bean per class
    and then wires every field each bean's class declares. */
module Stage3 {
  import opened Wrappers
  import opened Reflection
  import opened Beans
  import opened Lifecycle

  class DIContainer {
    /** The class metadata the JVM supplies. */
    const u: Universe
    /** The bean set, in its iteration order; fixed once built. */
    const beans: seq<Bean>

    /** Holds a bean set that has been built; `New` wires it. */
    constructor Of(u: Universe, beans: seq<Bean>)
      ensures this.u == u && this.beans == beans
    {
      this.u := u;
      this.beans := beans;
    }

    /** One object per bean, each holding every field its class declares. */
    ghost predicate Valid()
      reads beans
    {
      && WellFormed(u)
      && BeansDistinct(beans)
      && forall i :: 0 <= i < |beans| ==> Shaped(u, beans[i].cls, beans[i].fields)
    }

    /** Every bean has been wired against the complete bean set. */
    ghost predicate Ready()
      reads beans
    {
      WiredFromInitial(u, AllDeclared, beans) && AllWireOk(u, AllDeclared, ClassesOf(beans))
    }

    /** `new DIContainer(classes)`: build every bean, then wire every bean.
        Any failing constructor or `Field.set` aborts and no container is
        returned. */
    static method New(u: Universe, classes: seq<ClassId>) returns (r: Result<DIContainer, ContainerError>)
      requires WellFormed(u)
      requires forall i :: 0 <= i < |classes| ==> classes[i] in u.classes
      requires ClassesDistinct(classes)
      ensures r.Success? <==> AllConstructible(u, classes) && AllWireOk(u, AllDeclared, classes)
      ensures r.Failure? && !AllConstructible(u, classes) ==> FirstConstructionError(u, classes, r.error)
      ensures r.Failure? && AllConstructible(u, classes) ==> GenuineWiringError(u, AllDeclared, classes, r.error)
      ensures r.Success? ==> fresh(r.value) && r.value.u == u && ClassesOf(r.value.beans) == classes
      ensures r.Success? ==> forall i :: 0 <= i < |classes| ==> fresh(r.value.beans[i])
      ensures r.Success? ==> r.value.Valid() && r.value.Ready()
    {
      var built := CreateBeans(u, classes);
      if built.Failure? {
        return Failure(built.error);
      }
      var beans := built.value;
      assert ClassesOf(beans) == classes;
      var c := new DIContainer.Of(u, beans);
      var wired := c.WireBeans();
      if wired.Fail? {
        var i :| 0 <= i < |beans| && WireOutcomes(u, AllDeclared, beans)[i].Failure?
                 && wired.error == WireOutcomes(u, AllDeclared, beans)[i].error;
        WiringFailureIsGenuine(u, AllDeclared, beans, i);
        return Failure(wired.error);
      }
      WiringSucceeded(u, AllDeclared, beans);
      r := Success(c);
    }

    /** `beans.forEach(this::setFields)` on freshly built beans: each bean
        in turn gets the fields `setFields` gives it, until one throws. */
    method WireBeans() returns (r: Outcome<ContainerError>)
      requires WellFormed(u) && BeansDistinct(beans)
      requires forall i :: 0 <= i < |beans| ==>
                 beans[i].cls in u.classes && beans[i].fields == InitialFields(u.classes[beans[i].cls].fields)
      modifies beans
      ensures var outs := WireOutcomes(u, AllDeclared, beans);
        && (r.Pass? <==> forall i :: 0 <= i < |beans| ==> outs[i].Success?)
        && (r.Fail? ==> exists i :: 0 <= i < |beans| && outs[i].Failure? && r.error == outs[i].error
                              && forall j :: 0 <= j < i ==> outs[j].Success?)
        && (r.Pass? ==> forall i :: 0 <= i < |beans| ==> beans[i].fields == outs[i].value)
    {
      ghost var init := InitialsOf(u, beans);
      ghost var outs := WireOutcomes(u, AllDeclared, beans);
      for i := 0 to |beans|
        invariant forall j :: 0 <= j < i ==> outs[j].Success? && beans[j].fields == outs[j].value
        invariant forall j :: i <= j < |beans| ==> beans[j].fields == init[j]
      {
        var bean := beans[i];
        WireOutcomeEntry(u, AllDeclared, beans, i);
        r := SetFields(bean);
        if r.Fail? {
          assert outs[i].Failure? && r.error == outs[i].error
                 && forall j :: 0 <= j < i ==> outs[j].Success?;
          return;
        }
      }
      r := Pass;
    }

    /** `setFields`: for each declared field of `bean`, in the order
        `getDeclaredFields()` returns them, store `getBean` of its type
        when that is not null; a `Field.set` that refuses aborts. */
    method SetFields(bean: Bean) returns (r: Outcome<ContainerError>)
      requires bean.cls in u.classes
      modifies bean
      ensures var w := WireBean(u, AllDeclared, beans, bean.cls, old(bean.fields));
        && (r.Pass? <==> w.Success?)
        && (r.Pass? ==> bean.fields == w.value)
        && (r.Fail? ==> r.error == w.error)
    {
      var declaredFields := u.classes[bean.cls].fields;
      for i := 0 to |declaredFields|
        invariant WireFields(u, beans, bean.cls, declaredFields[i..], bean.fields)
                  == WireFields(u, beans, bean.cls, declaredFields, old(bean.fields))
      {
        assert declaredFields[i..][1..] == declaredFields[i + 1..];
        var field := declaredFields[i];
        var fieldBean := GetBean(field.declaredType);
        if fieldBean.Some? {
          if !field.settable {
            return Fail(FieldAccessFailed(bean.cls, field.name));
          }
          bean.fields := bean.fields[field.name := Ref(fieldBean.value)];
        }
      }
      r := Pass;
    }

    /** `getBean`: the first bean assignable to `t`, or null. */
    method GetBean(t: ClassId) returns (r: Option<Bean>)
      ensures r.None? <==> forall i :: 0 <= i < |beans| ==> !Assignable(u, t, beans[i].cls)
      ensures r.Some? ==> r.value in beans && Assignable(u, t, r.value.cls)
      ensures r.Some? ==> exists i :: 0 <= i < |beans| && beans[i] == r.value
                            && forall j :: 0 <= j < i ==> !Assignable(u, t, beans[j].cls)
      ensures r == Resolve(u, beans, t)
    {
      r := Resolve(u, beans, t);
      ResolveSpec(u, beans, t);
    }
  }

  /** In a ready container every declared field holds `getBean` of its
      type, or its constructed value when that is null. */
  lemma DeclaredFieldHoldsBean(c: DIContainer, i: int, d: FieldDecl)
    requires c.Valid() && c.Ready()
    requires 0 <= i < |c.beans| && d in c.u.classes[c.beans[i].cls].fields
    ensures c.beans[i].fields[d.name] == match Resolve(c.u, c.beans, d.declaredType)
                                        case Some(b) => Ref(b)
                                        case None => FromInit(d.initial)
  {
    var cls := c.beans[i].cls;
    assert ClassesOf(c.beans)[i] == cls;
    WiredFieldsSpec(c.u, AllDeclared, c.beans, cls, InitialFields(c.u.classes[cls].fields));
  }

  /** A field whose type the bean's own class satisfies always receives a
      bean, and receives the bean itself when no earlier bean matches. */
  lemma SelfTypedFieldResolves(c: DIContainer, i: int, d: FieldDecl)
    requires c.Valid() && c.Ready()
    requires 0 <= i < |c.beans| && d in c.u.classes[c.beans[i].cls].fields
    requires Assignable(c.u, d.declaredType, c.beans[i].cls)
    ensures c.beans[i].fields[d.name].Ref?
    ensures Assignable(c.u, d.declaredType, c.beans[i].fields[d.name].bean.cls)
    ensures (forall j :: 0 <= j < i ==> !Assignable(c.u, d.declaredType, c.beans[j].cls))
            ==> c.beans[i].fields[d.name] == Ref(c.beans[i])
  {
    DeclaredFieldHoldsBean(c, i, d);
    ResolveSpec(c.u, c.beans, d.declaredType);
    var found := Resolve(c.u, c.beans, d.declaredType);
    if forall j :: 0 <= j < i ==> !Assignable(c.u, d.declaredType, c.beans[j].cls) {
      var k :| 0 <= k < |c.beans| && c.beans[k] == found.value
               && forall j :: 0 <= j < k ==> !Assignable(c.u, d.declaredType, c.beans[j].cls);
      assert k == i;
    }
  }
}
