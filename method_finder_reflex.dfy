/** The reflexive receiver finder: walk a class and its superclasses up to the first
    system class, and keep every declared method that is public, not abstract,
    static, bridge or synthetic, and carries the receiver annotation. Classes and
    methods are plain metadata here, the values reflection would report. */
module MethodFinderReflex {
  import opened SignalTypes

  /** The `java.lang.reflect.Modifier` bits the filter looks at (32-bit Java `int`s). */
  const PUBLIC: bv32 := 0x1
  const STATIC: bv32 := 0x8
  const BRIDGE: bv32 := 0x40
  const ABSTRACT: bv32 := 0x400
  const SYNTHETIC: bv32 := 0x1000
  const MODIFIERS_IGNORE: bv32 := ABSTRACT | STATIC | BRIDGE | SYNTHETIC

  /** A declared method as reflection reports it; `annotated` says whether
      `getAnnotation(SignalReceiver.class)` is non-null. */
  datatype MethodDecl = MethodDecl(name: string, modifiers: bv32, annotated: bool, parameterTypes: seq<ClassName>)

  /** A class: its name, its declared methods in reflection order, and its
      superclass (`None` for a null `getSuperclass()`). */
  datatype ClassDecl = ClassDecl(name: ClassName, declaredMethods: seq<MethodDecl>, superclass: Option<ClassDecl>)

  /** The filter of `findByClass`: a method is kept exactly when it is public, has
      none of the four ignored bits, and is annotated. */
  predicate IsReceiver(m: MethodDecl)
    ensures IsReceiver(m) <==>
      && m.modifiers & PUBLIC != 0
      && m.modifiers & ABSTRACT == 0 && m.modifiers & STATIC == 0
      && m.modifiers & BRIDGE == 0 && m.modifiers & SYNTHETIC == 0
      && m.annotated
  {
    m.modifiers & PUBLIC != 0 && m.modifiers & MODIFIERS_IGNORE == 0 && m.annotated
  }

  /** The descriptor recorded for a kept method: name and parameter types; the
      thread mode is left unset (null). */
  function Entry(m: MethodDecl): RegisterMethodInfo
  {
    RegisterMethodInfo(m.name, m.parameterTypes, None)
  }

  /** The descriptors of the kept methods of `ms`, in declaration order. */
  function Selected(ms: seq<MethodDecl>): (r: seq<RegisterMethodInfo>)
    ensures |r| <= |ms|
    ensures forall e :: e in r <==> exists i :: 0 <= i < |ms| && IsReceiver(ms[i]) && e == Entry(ms[i])
    ensures forall e :: e in r ==> e.threadMode.None?
    decreases |ms|
  {
    if ms == [] then []
    else
      var rest := Selected(ms[1..]);
      assert forall e :: e in rest ==> exists i :: 1 <= i < |ms| && IsReceiver(ms[i]) && e == Entry(ms[i]) by {
        forall e | e in rest ensures exists i :: 1 <= i < |ms| && IsReceiver(ms[i]) && e == Entry(ms[i]) {
          var i :| 0 <= i < |ms[1..]| && IsReceiver(ms[1..][i]) && e == Entry(ms[1..][i]);
          assert ms[1..][i] == ms[i + 1];
        }
      }
      assert forall i :: 1 <= i < |ms| && IsReceiver(ms[i]) ==> Entry(ms[i]) in rest by {
        forall i | 1 <= i < |ms| && IsReceiver(ms[i]) ensures Entry(ms[i]) in rest {
          assert ms[1..][i - 1] == ms[i];
        }
      }
      if IsReceiver(ms[0]) then [Entry(ms[0])] + rest else rest
  }

  /** Selecting from a longer list appends the verdict on the new last method. */
  lemma {:induction false} SelectedSnoc(ms: seq<MethodDecl>, m: MethodDecl)
    ensures Selected(ms + [m]) == Selected(ms) + (if IsReceiver(m) then [Entry(m)] else [])
    decreases |ms|
  {
    if ms == [] {
      assert [m][1..] == [];
    } else {
      assert (ms + [m])[0] == ms[0];
      assert (ms + [m])[1..] == ms[1..] + [m];
      SelectedSnoc(ms[1..], m);
    }
  }

  /** `findByClass`: append the descriptors of the kept declared methods of `clazz`
      to `ret`, in declaration order. */
  method FindByClass(clazz: ClassDecl, ret: seq<RegisterMethodInfo>) returns (r: seq<RegisterMethodInfo>)
    ensures r == ret + Selected(clazz.declaredMethods)
  {
    var methods := clazz.declaredMethods;
    r := ret;
    for i := 0 to |methods|
      invariant r == ret + Selected(methods[..i])
    {
      var method_ := methods[i];
      assert methods[..i + 1] == methods[..i] + [method_];
      SelectedSnoc(methods[..i], method_);
      if method_.modifiers & PUBLIC != 0 && method_.modifiers & MODIFIERS_IGNORE == 0 {
        if method_.annotated {
          r := r + [Entry(method_)];
        }
      }
    }
    assert methods[..|methods|] == methods;
  }

  /** The system packages whose classes the walk skips. */
  predicate IsSystemName(name: ClassName)
  {
    "java." <= name || "javax." <= name || "android." <= name
  }

  /** The classes `find` visits: `c`, then each superclass in turn up to, but not
      including, the first one with a system name; the chain also ends at a class
      without a superclass. */
  function Chain(c: ClassDecl): (r: seq<ClassDecl>)
    ensures r != [] && r[0] == c
    decreases c
  {
    match c.superclass
    case None => [c]
    case Some(s) => if IsSystemName(s.name) then [c] else [c] + Chain(s)
  }

  /** The chain follows superclass links, holds no system class after the first,
      and ends at a class whose superclass is missing or system-named. */
  lemma {:induction false} ChainShape(c: ClassDecl)
    ensures var r := Chain(c);
      && (forall i :: 0 < i < |r| ==> !IsSystemName(r[i].name))
      && (forall i :: 0 <= i < |r| - 1 ==> r[i].superclass == Some(r[i + 1]))
      && (r[|r| - 1].superclass.None? || IsSystemName(r[|r| - 1].superclass.value.name))
    decreases c
  {
    match c.superclass
    case None =>
    case Some(s) =>
      if !IsSystemName(s.name) {
        ChainShape(s);
        var rest := Chain(s);
        assert Chain(c) == [c] + rest;
        assert forall i :: 0 < i < |rest| + 1 ==> Chain(c)[i] == rest[i - 1];
      }
  }

  /** The walk ends normally exactly when it meets a system-named superclass;
      otherwise `getName()` is called on a null superclass. */
  predicate ReachesSystemClass(c: ClassDecl)
  {
    Chain(c)[|Chain(c)| - 1].superclass.Some?
  }

  /** One step of the walk: a non-system superclass continues the chain. */
  lemma ChainStep(c: ClassDecl, s: ClassDecl)
    requires c.superclass == Some(s) && !IsSystemName(s.name)
    ensures Chain(c) == [c] + Chain(s)
    ensures ReachesSystemClass(c) == ReachesSystemClass(s)
    ensures Harvest(Chain(c)) == Selected(c.declaredMethods) + Harvest(Chain(s))
  {
    assert Chain(c)[1..] == Chain(s);
  }

  /** The total number of methods declared by the given classes. */
  function DeclaredCount(cs: seq<ClassDecl>): nat
  {
    if cs == [] then 0 else |cs[0].declaredMethods| + DeclaredCount(cs[1..])
  }

  /** The descriptors harvested from the given classes, class by class. */
  function Harvest(cs: seq<ClassDecl>): (r: seq<RegisterMethodInfo>)
    ensures |r| <= DeclaredCount(cs)
  {
    if cs == [] then [] else Selected(cs[0].declaredMethods) + Harvest(cs[1..])
  }

  /** Harvesting two runs of classes one after the other concatenates the results. */
  lemma {:induction false} HarvestAppend(a: seq<ClassDecl>, b: seq<ClassDecl>)
    ensures Harvest(a + b) == Harvest(a) + Harvest(b)
    decreases |a|
  {
    if a == [] {
      assert a + b == b;
    } else {
      assert (a + b)[0] == a[0];
      assert (a + b)[1..] == a[1..] + b;
      HarvestAppend(a[1..], b);
    }
  }

  /** An entry is harvested exactly when some visited class declares a kept method
      it describes. */
  lemma {:induction false} HarvestMembership(cs: seq<ClassDecl>, e: RegisterMethodInfo)
    ensures e in Harvest(cs) <==>
      exists i, j :: 0 <= i < |cs| && 0 <= j < |cs[i].declaredMethods|
        && IsReceiver(cs[i].declaredMethods[j]) && e == Entry(cs[i].declaredMethods[j])
    decreases |cs|
  {
    if cs != [] {
      HarvestMembership(cs[1..], e);
      if e in Harvest(cs[1..]) {
        var i, j :| 0 <= i < |cs[1..]| && 0 <= j < |cs[1..][i].declaredMethods|
          && IsReceiver(cs[1..][i].declaredMethods[j]) && e == Entry(cs[1..][i].declaredMethods[j]);
        assert cs[1..][i] == cs[i + 1];
      }
      if (exists i, j :: 0 <= i < |cs| && 0 <= j < |cs[i].declaredMethods|
            && IsReceiver(cs[i].declaredMethods[j]) && e == Entry(cs[i].declaredMethods[j])) {
        var i, j :| 0 <= i < |cs| && 0 <= j < |cs[i].declaredMethods|
          && IsReceiver(cs[i].declaredMethods[j]) && e == Entry(cs[i].declaredMethods[j]);
        if i > 0 {
          assert cs[1..][i - 1] == cs[i];
        }
      }
    }
  }

  datatype FindResult = Found(methods: seq<RegisterMethodInfo>) | NullPointer

  /** What `find` returns: nothing for a null class, a `NullPointerException` when
      the walk reaches a class without a superclass, and otherwise the harvest of
      the visited classes. */
  function FindSpec(clazz: Option<ClassDecl>): (r: FindResult)
    ensures r.Found? ==> |r.methods| <= if clazz.Some? then DeclaredCount(Chain(clazz.value)) else 0
  {
    match clazz
    case None => Found([])
    case Some(c) => if ReachesSystemClass(c) then Found(Harvest(Chain(c))) else NullPointer
  }

  /** A class's own kept methods come first, followed by whatever its non-system
      superclass contributes. */
  lemma OwnMethodsFirst(c: ClassDecl)
    requires c.superclass.Some? && !IsSystemName(c.superclass.value.name)
    ensures FindSpec(Some(c)) == match FindSpec(c.superclass)
      case Found(ms) => Found(Selected(c.declaredMethods) + ms)
      case NullPointer => NullPointer
  {
    ChainStep(c, c.superclass.value);
  }

  /** `find`: walk up from `clazz`, harvesting each class, until the superclass has
      a system name. */
  method Find(clazz: Option<ClassDecl>) returns (r: FindResult)
    ensures r == FindSpec(clazz)
  {
    var ret: seq<RegisterMethodInfo> := [];
    var cur := clazz;
    while cur.Some?
      invariant cur.Some? && clazz.Some? ==>
        && ReachesSystemClass(cur.value) == ReachesSystemClass(clazz.value)
        && ret + Harvest(Chain(cur.value)) == Harvest(Chain(clazz.value))
      invariant cur.None? && clazz.Some? ==>
        && ReachesSystemClass(clazz.value)
        && ret == Harvest(Chain(clazz.value))
      invariant clazz.None? ==> cur.None? && ret == []
      decreases if cur.Some? then |Chain(cur.value)| else 0
    {
      var c := cur.value;
      ghost var before := ret;
      ret := FindByClass(c, ret);
      match c.superclass {
        case None =>
          assert Chain(c) == [c];
          return NullPointer;
        case Some(s) =>
          if IsSystemName(s.name) {
            assert Chain(c) == [c];
            cur := None;
          } else {
            ChainStep(c, s);
            assert before + Harvest(Chain(c)) == ret + Harvest(Chain(s));
            cur := Some(s);
          }
      }
    }
    return Found(ret);
  }
}
