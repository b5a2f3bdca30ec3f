/**
 * Queries over an object's outer chain (the objects that contain it, up to its package) and over
 * a class's superclass chain, and the path names built from the outer chain.
 *
 * Objects and classes are values whose outer and superclass are nested values, so every chain is
 * finite by construction; the id field stands for the object's identity, so two objects are the
 * same object exactly when they are equal values.
 */
module ObjectUtility {
  import opened Wrappers

  datatype Class = Class(id: nat, name: string, pathName: string, super: Option<Class>, native: bool)

  type ObjectFlags = bv32

  datatype Obj = Obj(id: nat, name: string, cls: Class, flags: ObjectFlags, outer: Option<Obj>, externalPackage: Option<Obj>)

  const ObjectClass: Class := Class(0, "Object", "/Script/CoreUObject.Object", None, true)
  const PackageClass: Class := Class(1, "Package", "/Script/CoreUObject.Package", Some(ObjectClass), true)

  /** The character between a top-level object's path and the name of one of its subobjects. */
  const SubobjectDelimiter: char := ':'

  /** c is target or derives from it. */
  predicate IsChildOf(c: Class, target: Class)
    decreases c
  {
    c == target || (c.super.Some? && IsChildOf(c.super.value, target))
  }

  /** The superclasses of c, nearest first. */
  function Supers(c: Class): (r: seq<Class>)
    decreases c
  {
    if c.super.None? then [] else [c.super.value] + Supers(c.super.value)
  }

  predicate IsA(o: Obj, target: Class) {
    IsChildOf(o.cls, target)
  }

  predicate IsPackage(o: Obj) {
    IsA(o, PackageClass)
  }

  /** The strict outer chain of o, innermost first. */
  function Outers(o: Obj): seq<Obj>
    decreases o
  {
    if o.outer.None? then [] else [o.outer.value] + Outers(o.outer.value)
  }

  /** The number of outers above o. */
  function Depth(o: Obj): nat
    decreases o
  {
    if o.outer.None? then 0 else 1 + Depth(o.outer.value)
  }

  /** Every strict outer is higher up, so no object is its own outer. */
  lemma {:induction false} OutersAreAbove(o: Obj)
    ensures forall x :: x in Outers(o) ==> Depth(x) < Depth(o)
    decreases o
  {
    if o.outer.Some? {
      OutersAreAbove(o.outer.value);
    }
  }

  /**
   * The shape the engine keeps its objects in: an object without an outer is a package, and an
   * external package is a package.
   */
  predicate Rooted(o: Obj)
    decreases o
  {
    (o.outer.None? ==> o.cls == PackageClass)
    && (o.externalPackage.Some? ==> IsPackage(o.externalPackage.value) && Rooted(o.externalPackage.value))
    && (o.outer.Some? ==> Rooted(o.outer.value))
  }

  predicate HasAnyFlags(o: Obj, mask: ObjectFlags) {
    o.flags & mask != 0
  }

  /**
   * The separator before the name of an object whose outer is outer: the subobject delimiter when
   * outer is a top-level object (not a package, directly inside one), '.' otherwise.
   */
  function Delimiter(outer: Obj): char
    requires Rooted(outer)
  {
    if outer.cls != PackageClass && outer.outer.value.cls == PackageClass then SubobjectDelimiter else '.'
  }

  /**
   * The path of obj relative to stopOuter: "None" for no object or for stopOuter itself; otherwise
   * the path of the outer (left out when there is none or it is stopOuter), a separator, and the
   * object's name.
   */
  function GetPathName(obj: Option<Obj>, stopOuter: Option<Obj>): (r: string)
    requires obj.Some? ==> Rooted(obj.value)
    ensures obj.None? || obj == stopOuter ==> r == "None"
    ensures obj.Some? && obj != stopOuter ==>
              |r| >= |obj.value.name| && r[|r| - |obj.value.name|..] == obj.value.name
              && (obj.value.outer.None? || obj.value.outer == stopOuter <==> r == obj.value.name)
    decreases obj
  {
    if obj.Some? && obj != stopOuter then
      var o := obj.value;
      if o.outer.Some? && o.outer != stopOuter then
        GetPathName(o.outer, stopOuter) + [Delimiter(o.outer.value)] + o.name
      else
        o.name
    else
      "None"
  }

  /**
   * Completing a relative path: the full path of an object is the full path of a stop outer on its
   * chain, that outer's separator, and the path relative to it.
   */
  lemma {:induction false} PathNameRelativeToStop(o: Obj, stop: Obj)
    requires Rooted(o) && stop in Outers(o)
    ensures Rooted(stop)
    ensures GetPathName(Some(o), None) == GetPathName(Some(stop), None) + [Delimiter(stop)] + GetPathName(Some(o), Some(stop))
    decreases o
  {
    OutersAreAbove(o);
    assert stop != o;
    var p := o.outer.value;
    if p != stop {
      assert stop in Outers(p);
      PathNameRelativeToStop(p, stop);
      PathNameThroughOuter(o, stop);
    } else {
      PathNameDirectlyUnder(o);
    }
  }

  /** The step of PathNameRelativeToStop for an object directly inside the stop outer. */
  lemma {:induction false} PathNameDirectlyUnder(o: Obj)
    requires Rooted(o) && o.outer.Some? && o.outer.value != o
    ensures GetPathName(Some(o), None) == GetPathName(o.outer, None) + [Delimiter(o.outer.value)] + GetPathName(Some(o), o.outer)
  {
    assert GetPathName(Some(o), o.outer) == o.name;
  }

  /** The step of PathNameRelativeToStop for an object whose outer is below the stop outer. */
  lemma {:induction false} PathNameThroughOuter(o: Obj, stop: Obj)
    requires Rooted(o) && o.outer.Some? && o != stop && o.outer.value != stop && Rooted(stop)
    requires GetPathName(o.outer, None)
             == GetPathName(Some(stop), None) + [Delimiter(stop)] + GetPathName(o.outer, Some(stop))
    ensures GetPathName(Some(o), None) == GetPathName(Some(stop), None) + [Delimiter(stop)] + GetPathName(Some(o), Some(stop))
  {
    var p := o.outer.value;
    var a, d, r := GetPathName(Some(stop), None), [Delimiter(stop)], GetPathName(o.outer, Some(stop));
    var tail := [Delimiter(p)] + o.name;
    assert GetPathName(Some(o), None) == GetPathName(o.outer, None) + [Delimiter(p)] + o.name;
    assert GetPathName(Some(o), Some(stop)) == r + [Delimiter(p)] + o.name;
    SeqAssoc(a + d, r, tail);
    SeqAssoc(GetPathName(o.outer, None), [Delimiter(p)], o.name);
    SeqAssoc(r, [Delimiter(p)], o.name);
  }

  lemma SeqAssoc(a: string, b: string, c: string)
    ensures (a + b) + c == a + (b + c)
  {
  }

  /** A stop outer that is not on the object's chain has no effect: the path is the full path. */
  lemma {:induction false} PathNameIgnoresForeignStop(o: Obj, stop: Obj)
    requires Rooted(o) && stop != o && stop !in Outers(o)
    ensures GetPathName(Some(o), Some(stop)) == GetPathName(Some(o), None)
    decreases o
  {
    if o.outer.Some? {
      PathNameIgnoresForeignStop(o.outer.value, stop);
    }
  }

  /**
   * The class, a space and the path: the class's own path when includeClassPackage is set, its
   * name otherwise; "None" for no object.
   */
  function GetFullName(obj: Option<Obj>, stopOuter: Option<Obj>, includeClassPackage: bool): (r: string)
    requires obj.Some? ==> Rooted(obj.value)
    ensures obj.None? ==> r == "None"
    ensures obj.Some? ==>
              var className := if includeClassPackage then obj.value.cls.pathName else obj.value.cls.name;
              var path := GetPathName(obj, stopOuter);
              |r| == |className| + 1 + |path| && r[..|className|] == className && r[|className|] == ' '
              && r[|className| + 1..] == path
  {
    if obj.Some? then
      var className := if includeClassPackage then obj.value.cls.pathName else obj.value.cls.name;
      className + " " + GetPathName(obj, stopOuter)
    else
      "None"
  }

  /** From top upward, the last object before the first package outer. */
  function OutermostFrom(top: Obj): (r: Obj)
    requires Rooted(top) && !IsPackage(top)
    decreases top
  {
    if IsPackage(top.outer.value) then top else OutermostFrom(top.outer.value)
  }

  /**
   * The outermost object that is not a package: none for a package; otherwise the object on the
   * chain whose outer is a package, with no package between it and o.
   */
  function GetOutermostObject(o: Obj): (r: Option<Obj>)
    requires Rooted(o)
    ensures r.None? <==> IsPackage(o)
  {
    if IsPackage(o) then None else Some(OutermostFrom(o))
  }

  lemma {:induction false} OutermostFromIsBelowPackage(top: Obj)
    requires Rooted(top) && !IsPackage(top)
    ensures var r := OutermostFrom(top);
            (r == top || r in Outers(top)) && !IsPackage(r) && r.outer.Some? && IsPackage(r.outer.value)
    ensures forall x :: x in Outers(top) && x !in Outers(OutermostFrom(top)) ==> !IsPackage(x)
    decreases top
  {
    var p := top.outer.value;
    if !IsPackage(p) {
      OutermostFromIsBelowPackage(p);
    }
  }

  /** The outermost non-package object lies on the chain, has a package outer, and no package comes before it. */
  lemma {:induction false} GetOutermostObjectIsBelowPackage(o: Obj)
    requires Rooted(o) && !IsPackage(o)
    ensures var r := GetOutermostObject(o).value;
            (r == o || r in Outers(o)) && r.outer.Some? && IsPackage(r.outer.value)
            && forall x :: x in Outers(o) && x !in Outers(r) ==> !IsPackage(x)
  {
    OutermostFromIsBelowPackage(o);
  }

  /** What the object reports as its external package: itself for a package. */
  function ExternalPackage(o: Obj): Option<Obj> {
    if IsPackage(o) then Some(o) else o.externalPackage
  }

  /** The package an object is in: the first external package up the chain, a package being its own. */
  function GetPackage(o: Obj): (r: Obj)
    requires Rooted(o)
    ensures IsPackage(r) && Rooted(r)
    decreases o
  {
    match ExternalPackage(o)
    case Some(p) => p
    case None => GetPackage(o.outer.value)
  }

  /** Without external packages, an object's package is the first package on its chain, itself included. */
  lemma {:induction false} GetPackageIsFirstPackage(o: Obj)
    requires Rooted(o)
    requires forall x :: x == o || x in Outers(o) ==> x.externalPackage.None?
    ensures var r := GetPackage(o);
            (r == o || r in Outers(o)) && forall x :: x in [o] + Outers(o) && x !in [r] + Outers(r) ==> !IsPackage(x)
    decreases o
  {
    if !IsPackage(o) {
      GetPackageIsFirstPackage(o.outer.value);
    }
  }

  /** Whether o or an object on its outer chain has any of the template flags. */
  predicate IsTemplate(o: Obj, templateTypes: ObjectFlags)
    decreases o
  {
    HasAnyFlags(o, templateTypes) || (o.outer.Some? && IsTemplate(o.outer.value, templateTypes))
  }

  lemma {:induction false} IsTemplateOnChain(o: Obj, templateTypes: ObjectFlags)
    ensures IsTemplate(o, templateTypes) <==> exists x :: x in [o] + Outers(o) && HasAnyFlags(x, templateTypes)
    decreases o
  {
    if o.outer.Some? {
      IsTemplateOnChain(o.outer.value, templateTypes);
      assert [o] + Outers(o) == [o] + ([o.outer.value] + Outers(o.outer.value));
    }
  }

  /** The first strict outer that is a target, searching outward from the outer. */
  function GetTypedOuter(o: Obj, target: Class): (r: Option<Obj>)
    ensures r.Some? ==> IsA(r.value, target)
    ensures r.Some? ==> exists i :: 0 <= i < |Outers(o)| && Outers(o)[i] == r.value
                         && forall j :: 0 <= j < i ==> !IsA(Outers(o)[j], target)
    ensures r.None? ==> forall x :: x in Outers(o) ==> !IsA(x, target)
    decreases o
  {
    if o.outer.None? then None
    else if IsA(o.outer.value, target) then
      assert Outers(o)[0] == o.outer.value;
      o.outer
    else
      var r := GetTypedOuter(o.outer.value, target);
      if r.Some? then
        var i :| 0 <= i < |Outers(o.outer.value)| && Outers(o.outer.value)[i] == r.value
                 && forall j :: 0 <= j < i ==> !IsA(Outers(o.outer.value)[j], target);
        assert Outers(o)[i + 1] == r.value;
        assert forall j :: 0 < j <= i ==> Outers(o)[j] == Outers(o.outer.value)[j - 1];
        r
      else r
  }

  /** Whether someOuter is on the strict outer chain of o; a null outer counts as containing everything. */
  predicate IsInOuter(o: Obj, someOuter: Option<Obj>)
    decreases o
  {
    if o.outer.Some? && o.outer == someOuter then true
    else if o.outer.Some? then IsInOuter(o.outer.value, someOuter)
    else someOuter.None?
  }

  lemma {:induction false} IsInOuterOnChain(o: Obj, someOuter: Option<Obj>)
    ensures IsInOuter(o, someOuter) <==> someOuter.None? || someOuter.value in Outers(o)
    decreases o
  {
    if o.outer.Some? {
      IsInOuterOnChain(o.outer.value, someOuter);
    }
  }

  /** Whether o is in package: its package is package, and it is not package itself. */
  predicate IsInPackage(o: Obj, package: Obj)
    requires Rooted(o)
  {
    package != o && GetPackage(o) == package
  }

  /** Only a package can hold an object, and no package is in itself. */
  lemma {:induction false} IsInPackageMeansPackage(o: Obj, package: Obj)
    requires Rooted(o) && IsInPackage(o, package)
    ensures IsPackage(package) && !IsInPackage(package, package)
  {
  }

  /** Whether o or an object on its outer chain is a someBaseClass; no class at all counts as a match. */
  predicate IsInA(o: Obj, someBaseClass: Option<Class>)
    decreases o
  {
    (someBaseClass.Some? && IsA(o, someBaseClass.value))
    || (if o.outer.Some? then IsInA(o.outer.value, someBaseClass) else someBaseClass.None?)
  }

  lemma {:induction false} IsInAOnChain(o: Obj, someBaseClass: Option<Class>)
    ensures IsInA(o, someBaseClass) <==>
              someBaseClass.None? || exists x :: x in [o] + Outers(o) && IsA(x, someBaseClass.value)
    decreases o
  {
    if o.outer.Some? {
      IsInAOnChain(o.outer.value, someBaseClass);
      assert [o] + Outers(o) == [o] + ([o.outer.value] + Outers(o.outer.value));
    }
  }

  /** The first class from cls upward that current derives from. */
  function FirstCommonSuper(cls: Option<Class>, current: Class): (r: Option<Class>)
    decreases cls
  {
    if cls.None? then None
    else if IsChildOf(current, cls.value) then cls
    else FirstCommonSuper(cls.value.super, current)
  }

  /**
   * The most-derived class that both the object's class and testClass derive from; none exactly
   * when testClass is none (every class derives from the root class).
   */
  function FindNearestCommonBaseClass(o: Obj, testClass: Option<Class>): (r: Option<Class>)
  {
    if testClass.None? then None
    else if IsChildOf(testClass.value, o.cls) then Some(o.cls)
    else if IsChildOf(o.cls, testClass.value) then testClass
    else FirstCommonSuper(testClass.value.super, o.cls)
  }

  lemma {:induction false} IsChildOfTransitive(a: Class, b: Class, c: Class)
    requires IsChildOf(a, b) && IsChildOf(b, c)
    ensures IsChildOf(a, c)
    decreases a
  {
    if a != b {
      IsChildOfTransitive(a.super.value, b, c);
    }
  }

  /** The number of superclasses above c. */
  function ClassDepth(c: Class): nat
    decreases c
  {
    if c.super.None? then 0 else 1 + ClassDepth(c.super.value)
  }

  /** A class lies strictly deeper than each of its proper bases. */
  lemma {:induction false} ChildIsDeeper(a: Class, b: Class)
    requires IsChildOf(a, b) && a != b
    ensures ClassDepth(a) > ClassDepth(b)
    decreases a
  {
    if a.super.value != b {
      ChildIsDeeper(a.super.value, b);
    }
  }

  /** Derivation is antisymmetric: two classes deriving from each other are the same class. */
  lemma IsChildOfAntisymmetric(a: Class, b: Class)
    requires IsChildOf(a, b) && IsChildOf(b, a)
    ensures a == b
  {
    if a != b {
      ChildIsDeeper(a, b);
      ChildIsDeeper(b, a);
    }
  }

  /** The ancestors of a class form a line: of two of them, one derives from the other. */
  lemma {:induction false} AncestorsAreOrdered(x: Class, a: Class, b: Class)
    requires IsChildOf(x, a) && IsChildOf(x, b)
    ensures IsChildOf(a, b) || IsChildOf(b, a)
    decreases x
  {
    if x != a && x != b {
      AncestorsAreOrdered(x.super.value, a, b);
    }
  }

  lemma {:induction false} FirstCommonSuperIsNearest(cls: Option<Class>, current: Class, other: Class)
    requires cls.Some? && IsChildOf(cls.value, other) && IsChildOf(current, other)
    ensures var r := FirstCommonSuper(cls, current);
            r.Some? && IsChildOf(cls.value, r.value) && IsChildOf(current, r.value) && IsChildOf(r.value, other)
    decreases cls
  {
    var c := cls.value;
    if !IsChildOf(current, c) {
      if c == other {
        assert false;
      }
      FirstCommonSuperIsNearest(c.super, current, other);
      var r := FirstCommonSuper(c.super, current);
      assert IsChildOf(c, c.super.value);
      IsChildOfTransitive(c, c.super.value, r.value);
    }
  }

  /**
   * With a test class, the result is a base of both classes and derives from every other common
   * base, so it is the nearest one; one exists whenever the two classes share any base.
   */
  lemma {:induction false} NearestCommonBaseIsNearest(o: Obj, testClass: Class, other: Class)
    requires IsChildOf(testClass, other) && IsChildOf(o.cls, other)
    ensures var r := FindNearestCommonBaseClass(o, Some(testClass));
            r.Some? && IsChildOf(testClass, r.value) && IsChildOf(o.cls, r.value) && IsChildOf(r.value, other)
  {
    if IsChildOf(testClass, o.cls) {
    } else if IsChildOf(o.cls, testClass) {
    } else {
      if testClass == other {
        assert false;
      }
      FirstCommonSuperIsNearest(testClass.super, o.cls, other);
      var r := FirstCommonSuper(testClass.super, o.cls);
      assert IsChildOf(testClass, testClass.super.value);
      IsChildOfTransitive(testClass, testClass.super.value, r.value);
    }
  }

  /** The first native class from cls upward; none when there is no native class on the way. */
  function GetParentNativeClass(cls: Option<Class>): (r: Option<Class>)
    ensures r.Some? ==> r.value.native && cls.Some? && IsChildOf(cls.value, r.value)
    ensures r.None? ==> cls.None? || (!cls.value.native && forall s :: s in Supers(cls.value) ==> !s.native)
    decreases cls
  {
    if cls.Some? && !cls.value.native then GetParentNativeClass(cls.value.super) else cls
  }

  /** The native class found is the first: no class between cls and it, cls included, is native. */
  lemma {:induction false} GetParentNativeClassIsFirst(cls: Option<Class>)
    ensures var r := GetParentNativeClass(cls);
            r.Some? ==> forall s :: IsChildOf(cls.value, s) && IsChildOf(s, r.value) && s != r.value ==> !s.native
    decreases cls
  {
    var r := GetParentNativeClass(cls);
    if r.Some? {
      var c := cls.value;
      if c.native {
        forall s | IsChildOf(c, s) && IsChildOf(s, c) ensures s == c {
          IsChildOfAntisymmetric(c, s);
        }
      } else {
        GetParentNativeClassIsFirst(c.super);
        forall s | IsChildOf(c, s) && IsChildOf(s, r.value) && s != r.value ensures !s.native {
          if s != c {
            assert IsChildOf(c.super.value, s);
          }
        }
      }
    }
  }
}
