/** The wiring phase of a container as a whole: `beans.forEach(this::setFields)`
    over a bean set that the build phase fixed. Because resolution reads the
    bean set and never a bean's fields, each bean's wired fields are a
    function of its own class and initial fields alone, so the order in
    which beans are wired does not matter and wiring twice changes nothing. */
module Lifecycle {
  import opened Wrappers
  import opened Reflection
  import opened Beans

  /** The fields a container of the given mode wires on a bean of class `cls`. */
  function CandidatesOf(u: Universe, mode: Mode, cls: ClassId): seq<FieldDecl>
    requires cls in u.classes
  {
    Candidates(mode, u.classes[cls].fields)
  }

  /** `setFields` on a bean of class `cls` whose fields are `f`. */
  function WireBean(u: Universe, mode: Mode, beans: seq<Bean>, cls: ClassId, f: Fields): Result<Fields, ContainerError>
    requires cls in u.classes
  {
    WireFields(u, beans, cls, CandidatesOf(u, mode, cls), f)
  }

  /** The fields left by `setFields`: the wired ones, or `f` if it threw. */
  function WiredFields(u: Universe, mode: Mode, beans: seq<Bean>, cls: ClassId, f: Fields): Fields
    requires cls in u.classes
  {
    match WireBean(u, mode, beans, cls, f)
    case Success(g) => g
    case Failure(_) => f
  }

  /** No wiring candidate of class `cls` that some bean of `classes`
      satisfies is a field `Field.set` refuses. */
  predicate ClassWireOk(u: Universe, mode: Mode, classes: seq<ClassId>, cls: ClassId)
    requires cls in u.classes
  {
    forall d :: d in CandidatesOf(u, mode, cls) && Resolvable(u, classes, d.declaredType) ==> d.settable
  }

  predicate AllWireOk(u: Universe, mode: Mode, classes: seq<ClassId>) {
    forall i :: 0 <= i < |classes| ==> classes[i] in u.classes && ClassWireOk(u, mode, classes, classes[i])
  }

  /** `e` is the exception of a `Field.set` that a container over `classes`
      really performs: on a candidate field of one of the classes whose
      type some bean satisfies. */
  predicate GenuineWiringError(u: Universe, mode: Mode, classes: seq<ClassId>, e: ContainerError) {
    && e.FieldAccessFailed?
    && e.cls in classes && e.cls in u.classes
    && exists d :: d in CandidatesOf(u, mode, e.cls) && d.name == e.field
                   && Resolvable(u, classes, d.declaredType) && !d.settable
  }

  /** Whether `setFields` throws depends only on the bean classes, and when
      it does the error is genuine. */
  lemma WireBeanOutcome(u: Universe, mode: Mode, beans: seq<Bean>, cls: ClassId, f: Fields)
    requires cls in u.classes
    ensures var r := WireBean(u, mode, beans, cls, f);
      && (r.Success? <==> ClassWireOk(u, mode, ClassesOf(beans), cls))
      && (r.Failure? ==>
            && r.error.FieldAccessFailed? && r.error.cls == cls
            && exists d :: d in CandidatesOf(u, mode, cls) && d.name == r.error.field
                           && Resolvable(u, ClassesOf(beans), d.declaredType) && !d.settable)
  {
    var cands := CandidatesOf(u, mode, cls);
    WireFieldsOutcome(u, beans, cls, cands, f);
    forall d | d in cands
      ensures Resolve(u, beans, d.declaredType).Some? <==> Resolvable(u, ClassesOf(beans), d.declaredType)
    {
      ResolveIffResolvable(u, beans, d.declaredType);
    }
    if WireOk(u, beans, cands) {
      forall d | d in cands && Resolvable(u, ClassesOf(beans), d.declaredType) ensures d.settable {
        var i :| 0 <= i < |cands| && cands[i] == d;
        assert !Throws(u, beans, cands, i);
      }
    } else {
      var i :| 0 <= i < |cands| && Throws(u, beans, cands, i);
      assert cands[i] in cands;
    }
  }

  /** When `setFields` succeeds on a bean, its class wires cleanly. */
  lemma WiringSuccessIsClean(u: Universe, mode: Mode, beans: seq<Bean>, cls: ClassId, f: Fields)
    requires cls in u.classes
    requires WireBean(u, mode, beans, cls, f).Success?
    ensures ClassWireOk(u, mode, ClassesOf(beans), cls)
  {
    WireBeanOutcome(u, mode, beans, cls, f);
  }

  /** `setFields` keeps the bean's shape; every candidate ends up holding the
      bean `getBean` gives for its type, or its old value when that is null;
      every other field is untouched; and applying it again changes nothing. */
  lemma WiredFieldsSpec(u: Universe, mode: Mode, beans: seq<Bean>, cls: ClassId, f: Fields)
    requires WellFormed(u) && Shaped(u, cls, f)
    ensures var g := WiredFields(u, mode, beans, cls, f);
      && Shaped(u, cls, g) && g.Keys == f.Keys
      && WiredFields(u, mode, beans, cls, g) == g
      && (ClassWireOk(u, mode, ClassesOf(beans), cls) ==>
            forall d :: d in u.classes[cls].fields && d in CandidatesOf(u, mode, cls) ==> g[d.name] == WiredValue(u, beans, d, f[d.name]))
      && (forall k :: k in f && !Declares(CandidatesOf(u, mode, cls), k) ==> g[k] == f[k])
  {
    var cands := CandidatesOf(u, mode, cls);
    CandidatesSpec(mode, u.classes[cls].fields);
    WireBeanOutcome(u, mode, beans, cls, f);
    WireFieldsResult(u, beans, cls, cands, f);
    WireFieldsIdempotent(u, beans, cls, cands, f);
  }

  /** `forEach(setFields)` over `order`, on field storage `state`: the first
      bean whose wiring throws aborts the rest. */
  function WireAll(u: Universe, mode: Mode, beans: seq<Bean>, order: seq<Bean>, state: map<Bean, Fields>)
    : Result<map<Bean, Fields>, ContainerError>
    requires forall b :: b in order ==> b in state && b.cls in u.classes
    decreases |order|
  {
    if order == [] then Success(state)
    else
      var b := order[0];
      match WireBean(u, mode, beans, b.cls, state[b])
      case Failure(e) => Failure(e)
      case Success(g) => WireAll(u, mode, beans, order[1..], state[b := g])
  }

  /** The field storage after wiring each bean of `order` from its own
      fields in `state`. */
  function WiredState(u: Universe, mode: Mode, beans: seq<Bean>, order: seq<Bean>, state: map<Bean, Fields>)
    : map<Bean, Fields>
    requires forall b :: b in order ==> b in state && b.cls in u.classes
  {
    map b | b in state :: if b in order then WiredFields(u, mode, beans, b.cls, state[b]) else state[b]
  }

  /** Wiring in any order succeeds exactly when the class of every bean it
      visits wires cleanly. */
  lemma {:induction false} WireAllSucceeds(u: Universe, mode: Mode, beans: seq<Bean>, order: seq<Bean>, state: map<Bean, Fields>)
    requires forall b :: b in order ==> b in state && b.cls in u.classes
    ensures WireAll(u, mode, beans, order, state).Success?
            <==> forall b :: b in order ==> ClassWireOk(u, mode, ClassesOf(beans), b.cls)
  {
    if order != [] {
      var b0, rest := order[0], order[1..];
      assert forall b :: b in order <==> b == b0 || b in rest;
      WireBeanOutcome(u, mode, beans, b0.cls, state[b0]);
      var w := WireBean(u, mode, beans, b0.cls, state[b0]);
      if w.Success? {
        WireAllSucceeds(u, mode, beans, rest, state[b0 := w.value]);
      }
    }
  }

  /** Wiring the head of `order` and then the rest from the updated storage
      ends where wiring all of `order` from `state` ends, given that the
      head's wiring is a fixed point. */
  lemma WiredStateStep(u: Universe, mode: Mode, beans: seq<Bean>, order: seq<Bean>, state: map<Bean, Fields>, g: Fields)
    requires order != []
    requires forall b :: b in order ==> b in state && b.cls in u.classes
    requires g == WiredFields(u, mode, beans, order[0].cls, state[order[0]])
    requires WiredFields(u, mode, beans, order[0].cls, g) == g
    ensures WiredState(u, mode, beans, order[1..], state[order[0] := g]) == WiredState(u, mode, beans, order, state)
  {
    var b0, rest := order[0], order[1..];
    assert forall b :: b in order <==> b == b0 || b in rest;
    var lhs := WiredState(u, mode, beans, rest, state[b0 := g]);
    var rhs := WiredState(u, mode, beans, order, state);
    forall b | b in state ensures lhs[b] == rhs[b] {
    }
    assert lhs.Keys == rhs.Keys;
  }

  /** Successful wiring in any order leaves each visited bean with the
      fields `setFields` gives it from its own fields, whatever came before. */
  lemma {:induction false} WireAllResult(u: Universe, mode: Mode, beans: seq<Bean>, order: seq<Bean>, state: map<Bean, Fields>)
    requires WellFormed(u)
    requires forall b :: b in order ==> b in state && b.cls in u.classes && Shaped(u, b.cls, state[b])
    ensures var r := WireAll(u, mode, beans, order, state);
            r.Success? ==> r.value == WiredState(u, mode, beans, order, state)
  {
    if order != [] {
      var b0, rest := order[0], order[1..];
      var w := WireBean(u, mode, beans, b0.cls, state[b0]);
      if w.Success? {
        var g := w.value;
        WiredFieldsSpec(u, mode, beans, b0.cls, state[b0]);
        WireAllResult(u, mode, beans, rest, state[b0 := g]);
        WiredStateStep(u, mode, beans, order, state, g);
      }
    }
  }

  /** The order in which `forEach` visits the beans does not change whether
      wiring succeeds nor, when it does, any bean's final fields. */
  lemma WiringOrderIndependent(u: Universe, mode: Mode, beans: seq<Bean>, o1: seq<Bean>, o2: seq<Bean>, state: map<Bean, Fields>)
    requires WellFormed(u)
    requires forall b :: b in o1 <==> b in o2
    requires forall b :: b in o1 ==> b in state && b.cls in u.classes && Shaped(u, b.cls, state[b])
    ensures WireAll(u, mode, beans, o1, state).Success? <==> WireAll(u, mode, beans, o2, state).Success?
    ensures WireAll(u, mode, beans, o1, state).Success? ==> WireAll(u, mode, beans, o1, state) == WireAll(u, mode, beans, o2, state)
  {
    WireAllSucceeds(u, mode, beans, o1, state);
    WireAllSucceeds(u, mode, beans, o2, state);
    WireAllResult(u, mode, beans, o1, state);
    WireAllResult(u, mode, beans, o2, state);
    WiredStateSameMembers(u, mode, beans, o1, o2, state);
  }

  lemma WiredStateSameMembers(u: Universe, mode: Mode, beans: seq<Bean>, o1: seq<Bean>, o2: seq<Bean>, state: map<Bean, Fields>)
    requires forall b :: b in o1 <==> b in o2
    requires forall b :: b in o1 ==> b in state && b.cls in u.classes
    ensures WiredState(u, mode, beans, o1, state) == WiredState(u, mode, beans, o2, state)
  {
    var w1, w2 := WiredState(u, mode, beans, o1, state), WiredState(u, mode, beans, o2, state);
    forall b | b in state ensures w1[b] == w2[b] {
    }
    assert w1.Keys == w2.Keys;
  }

  /** The field storage right after the build phase. */
  function InitialState(u: Universe, beans: seq<Bean>): map<Bean, Fields>
    requires WellFormed(u) && forall b :: b in beans ==> b.cls in u.classes
  {
    map b | b in beans :: InitialFields(u.classes[b.cls].fields)
  }

  /** The fields each bean holds right after the build phase, in bean order. */
  function InitialsOf(u: Universe, beans: seq<Bean>): (fs: seq<Fields>)
    requires WellFormed(u) && forall j :: 0 <= j < |beans| ==> beans[j].cls in u.classes
    ensures |fs| == |beans|
  {
    seq(|beans|, j requires 0 <= j < |beans| => InitialFields(u.classes[beans[j].cls].fields))
  }

  /** The fields `setFields` gives a fresh instance of each bean's class,
      resolving against the complete bean set, in bean order. */
  function WiredInitials(u: Universe, mode: Mode, beans: seq<Bean>): (ws: seq<Fields>)
    requires WellFormed(u) && forall j :: 0 <= j < |beans| ==> beans[j].cls in u.classes
    ensures |ws| == |beans|
  {
    var init := InitialsOf(u, beans);
    seq(|beans|, j requires 0 <= j < |beans| => WiredFields(u, mode, beans, beans[j].cls, init[j]))
  }

  /** What `setFields` does to each freshly built bean, in bean order. */
  function WireOutcomes(u: Universe, mode: Mode, beans: seq<Bean>): (os: seq<Result<Fields, ContainerError>>)
    requires WellFormed(u) && forall j :: 0 <= j < |beans| ==> beans[j].cls in u.classes
    ensures |os| == |beans|
  {
    var init := InitialsOf(u, beans);
    seq(|beans|, j requires 0 <= j < |beans| => WireBean(u, mode, beans, beans[j].cls, init[j]))
  }

  /** When `setFields` succeeds on every freshly built bean, every class
      wires cleanly and each bean ends up with its wired fields, which keep
      every field its class declares. */
  lemma WiringSucceeded(u: Universe, mode: Mode, beans: seq<Bean>)
    requires WellFormed(u) && forall j :: 0 <= j < |beans| ==> beans[j].cls in u.classes
    requires forall j :: 0 <= j < |beans| ==> WireOutcomes(u, mode, beans)[j].Success?
    ensures AllWireOk(u, mode, ClassesOf(beans))
    ensures forall j :: 0 <= j < |beans| ==>
              && WireOutcomes(u, mode, beans)[j].value == WiredInitials(u, mode, beans)[j]
              && Shaped(u, beans[j].cls, WiredInitials(u, mode, beans)[j])
  {
    var init := InitialsOf(u, beans);
    var classes := ClassesOf(beans);
    forall j | 0 <= j < |beans|
      ensures classes[j] in u.classes && ClassWireOk(u, mode, classes, classes[j])
      ensures Shaped(u, beans[j].cls, WiredInitials(u, mode, beans)[j])
    {
      WireOutcomeEntry(u, mode, beans, j);
      WiringSuccessIsClean(u, mode, beans, beans[j].cls, init[j]);
      WiredFieldsSpec(u, mode, beans, beans[j].cls, init[j]);
    }
  }

  /** When `setFields` throws on one of the freshly built beans, the
      container's wiring fails genuinely. */
  lemma WiringFailureIsGenuine(u: Universe, mode: Mode, beans: seq<Bean>, i: int)
    requires WellFormed(u) && forall j :: 0 <= j < |beans| ==> beans[j].cls in u.classes
    requires 0 <= i < |beans| && WireOutcomes(u, mode, beans)[i].Failure?
    ensures GenuineWiringError(u, mode, ClassesOf(beans), WireOutcomes(u, mode, beans)[i].error)
    ensures !AllWireOk(u, mode, ClassesOf(beans))
  {
    WireOutcomeEntry(u, mode, beans, i);
    WireBeanOutcome(u, mode, beans, beans[i].cls, InitialsOf(u, beans)[i]);
    assert ClassesOf(beans)[i] == beans[i].cls;
  }

  lemma WireOutcomeEntry(u: Universe, mode: Mode, beans: seq<Bean>, j: int)
    requires WellFormed(u) && forall j :: 0 <= j < |beans| ==> beans[j].cls in u.classes
    requires 0 <= j < |beans|
    ensures WireOutcomes(u, mode, beans)[j] == WireBean(u, mode, beans, beans[j].cls, InitialsOf(u, beans)[j])
    ensures WiredInitials(u, mode, beans)[j] == WiredFields(u, mode, beans, beans[j].cls, InitialsOf(u, beans)[j])
    ensures Shaped(u, beans[j].cls, InitialsOf(u, beans)[j])
  {
  }

  /** Every bean holds the fields `setFields` gives a fresh instance of its
      class, resolving against the complete bean set. */
  ghost predicate WiredFromInitial(u: Universe, mode: Mode, beans: seq<Bean>)
    reads beans
  {
    && WellFormed(u)
    && (forall j :: 0 <= j < |beans| ==> beans[j].cls in u.classes)
    && forall j :: 0 <= j < |beans| ==> beans[j].fields == WiredInitials(u, mode, beans)[j]
  }

  /** A container whose beans are wired from their initial fields holds
      exactly what `forEach(setFields)` over its beans, in any order, leaves. */
  lemma ContainerStateIsForEach(u: Universe, mode: Mode, beans: seq<Bean>, order: seq<Bean>)
    requires WiredFromInitial(u, mode, beans)
    requires AllWireOk(u, mode, ClassesOf(beans))
    requires forall b :: b in order <==> b in beans
    ensures WireAll(u, mode, beans, order, InitialState(u, beans)) == Success(map b | b in beans :: b.fields)
  {
    var init := InitialState(u, beans);
    var have := map b | b in beans :: b.fields;
    InitialStateReady(u, mode, beans, order);
    WireAllSucceeds(u, mode, beans, order, init);
    WireAllResult(u, mode, beans, order, init);
    var r := WireAll(u, mode, beans, order, init);
    assert r.value == WiredState(u, mode, beans, order, init);
    WiredStateIsHeld(u, mode, beans, order);
    assert r.value == have;
  }

  /** Every bean of `order` starts from a well-shaped entry of the initial
      storage and its class wires cleanly. */
  lemma InitialStateReady(u: Universe, mode: Mode, beans: seq<Bean>, order: seq<Bean>)
    requires WellFormed(u) && forall j :: 0 <= j < |beans| ==> beans[j].cls in u.classes
    requires AllWireOk(u, mode, ClassesOf(beans))
    requires forall b :: b in order ==> b in beans
    ensures forall b :: b in order ==>
              && b in InitialState(u, beans) && b.cls in u.classes
              && Shaped(u, b.cls, InitialState(u, beans)[b])
              && ClassWireOk(u, mode, ClassesOf(beans), b.cls)
  {
    forall b | b in order
      ensures b in InitialState(u, beans) && Shaped(u, b.cls, InitialState(u, beans)[b])
      ensures ClassWireOk(u, mode, ClassesOf(beans), b.cls)
    {
      var i :| 0 <= i < |beans| && beans[i] == b;
      assert ClassesOf(beans)[i] == b.cls;
    }
  }

  /** Wiring every bean from the initial storage yields the fields the beans
      of a wired container hold. */
  lemma WiredStateIsHeld(u: Universe, mode: Mode, beans: seq<Bean>, order: seq<Bean>)
    requires WiredFromInitial(u, mode, beans)
    requires forall b :: b in order <==> b in beans
    ensures WiredState(u, mode, beans, order, InitialState(u, beans)) == map b | b in beans :: b.fields
  {
    var init := InitialState(u, beans);
    var ws := WiredState(u, mode, beans, order, init);
    var have := map b | b in beans :: b.fields;
    forall i | 0 <= i < |beans| ensures beans[i] in ws && beans[i] in have && ws[beans[i]] == have[beans[i]] {
      WiredInitialEntry(u, mode, beans, i);
    }
    MapsAgreeOn(ws, have, beans);
  }

  /** Two maps whose keys are the elements of `ks` and that agree on each of
      them are equal. */
  lemma MapsAgreeOn<K, V>(m1: map<K, V>, m2: map<K, V>, ks: seq<K>)
    requires forall k :: k in m1 ==> k in ks
    requires forall k :: k in m2 ==> k in ks
    requires forall i :: 0 <= i < |ks| ==> ks[i] in m1 && ks[i] in m2 && m1[ks[i]] == m2[ks[i]]
    ensures m1 == m2
  {
    forall k | k in m1 ensures k in m2 && m1[k] == m2[k] {
      var i :| 0 <= i < |ks| && ks[i] == k;
    }
    forall k | k in m2 ensures k in m1 {
      var i :| 0 <= i < |ks| && ks[i] == k;
    }
  }

  lemma WiredInitialEntry(u: Universe, mode: Mode, beans: seq<Bean>, i: int)
    requires WellFormed(u) && forall j :: 0 <= j < |beans| ==> beans[j].cls in u.classes
    requires 0 <= i < |beans|
    ensures beans[i] in InitialState(u, beans)
    ensures WiredInitials(u, mode, beans)[i] == WiredFields(u, mode, beans, beans[i].cls, InitialState(u, beans)[beans[i]])
  {
  }
}
