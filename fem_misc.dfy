/** Queries over the objects of a FreeCAD document, `FemMisc.py`: which
    analysis an object belongs to, the members of an analysis of a given
    type, and an object's document-wide name. */
module FemMisc {
  import opened Wrappers

  const ANALYSIS_TYPE: string := "Fem::FemAnalysis"

  /** A document object, as far as these queries look at it: its name and
      label, the C++ types it derives from (its own included), the `Type` of
      its Python proxy if it has one, the name of its document if it has one,
      and, for an analysis, its members. Objects are compared by value. */
  datatype DocObject = DocObject(
    name: string,
    labelText: string,
    types: set<string>,
    proxyType: Option<string>,
    document: Option<string>,
    members: seq<DocObject>)

  /** The ValueErrors raised for a missing argument. */
  datatype MiscError = MemberIsNone | AnalysisIsNone

  predicate IsDerivedFrom(obj: DocObject, baseType: string) {
    baseType in obj.types
  }

  /** `isOfType`: derived from `baseType`, and, when `pyType` is given, with
      a proxy of exactly that type. */
  predicate IsOfType(obj: DocObject, baseType: string, pyType: Option<string>) {
    IsDerivedFrom(obj, baseType) && (pyType.None? || obj.proxyType == pyType)
  }

  /** Without a Python type only the C++ type matters; with one, an object
      without a proxy never matches. */
  lemma IsOfTypeCases(obj: DocObject, baseType: string, p: string)
    ensures IsOfType(obj, baseType, None) <==> baseType in obj.types
    ensures obj.proxyType.None? ==> !IsOfType(obj, baseType, Some(p))
    ensures IsOfType(obj, baseType, Some(p)) ==> IsOfType(obj, baseType, None)
  {
  }

  /** `getUniqueName`: `Document.Name` when the object has a document. */
  function UniqueName(obj: DocObject): string {
    if obj.document.Some? then obj.document.value + "." + obj.name else obj.name
  }

  /** The members of `ms` of the given type, in order. */
  function MembersOfType(ms: seq<DocObject>, baseType: string, pyType: Option<string>): seq<DocObject> {
    if |ms| == 0 then []
    else
      var init := MembersOfType(ms[..|ms| - 1], baseType, pyType);
      if IsOfType(ms[|ms| - 1], baseType, pyType) then init + [ms[|ms| - 1]] else init
  }

  /** The filter keeps exactly the members of the type. */
  lemma {:induction false} MembersOfTypeSpec(ms: seq<DocObject>, baseType: string, pyType: Option<string>)
    ensures forall x :: x in MembersOfType(ms, baseType, pyType) <==> x in ms && IsOfType(x, baseType, pyType)
    ensures |MembersOfType(ms, baseType, pyType)| <= |ms|
  {
    if |ms| > 0 {
      MembersOfTypeSpec(ms[..|ms| - 1], baseType, pyType);
      assert ms == ms[..|ms| - 1] + [ms[|ms| - 1]];
    }
  }

  /** The filter keeps the members' order: filtering two lists one after
      the other is filtering their concatenation. */
  lemma {:induction false} MembersOfTypeConcat(a: seq<DocObject>, b: seq<DocObject>, baseType: string, pyType: Option<string>)
    ensures MembersOfType(a + b, baseType, pyType) == MembersOfType(a, baseType, pyType) + MembersOfType(b, baseType, pyType)
  {
    if |b| == 0 {
      assert a + b == a;
    } else {
      assert (a + b)[..|a + b| - 1] == a + b[..|b| - 1];
      MembersOfTypeConcat(a, b[..|b| - 1], baseType, pyType);
    }
  }

  /** `getMember`: loops over the analysis members, collecting matches. */
  method GetMember(analysis: Option<DocObject>, baseType: string, pyType: Option<string> := None)
    returns (r: Result<seq<DocObject>, MiscError>)
    ensures analysis.None? <==> r.Failure?
    ensures r.Failure? ==> r.error == AnalysisIsNone
    ensures r.Success? ==> r.value == MembersOfType(analysis.value.members, baseType, pyType)
  {
    if analysis.None? {
      return Failure(AnalysisIsNone);
    }
    var ms := analysis.value.members;
    var matching := [];
    var i := 0;
    while i < |ms|
      invariant 0 <= i <= |ms|
      invariant matching == MembersOfType(ms[..i], baseType, pyType)
    {
      assert ms[..i + 1][..i] == ms[..i];
      if IsOfType(ms[i], baseType, pyType) {
        matching := matching + [ms[i]];
      }
      i := i + 1;
    }
    assert ms[..i] == ms;
    r := Success(matching);
  }

  /** `getSingleMember`: the first member of the type, None if there is none. */
  method GetSingleMember(analysis: Option<DocObject>, baseType: string, pyType: Option<string> := None)
    returns (r: Result<Option<DocObject>, MiscError>)
    ensures analysis.None? <==> r.Failure?
    ensures r.Failure? ==> r.error == AnalysisIsNone
    ensures r.Success? ==> var found := MembersOfType(analysis.value.members, baseType, pyType);
      r.value == if |found| == 0 then None else Some(found[0])
  {
    var objs := GetMember(analysis, baseType, pyType);
    if objs.Failure? {
      return Failure(objs.error);
    }
    r := Success(if |objs.value| > 0 then Some(objs.value[0]) else None);
  }

  /** The object is an analysis that has `member` among its members. */
  predicate HoldsMember(obj: DocObject, member: DocObject) {
    IsDerivedFrom(obj, ANALYSIS_TYPE) && member in obj.members
  }

  /** The first analysis, in document order, that holds `member`. */
  function AnalysisOf(member: DocObject, objects: seq<DocObject>): Option<DocObject> {
    if |objects| == 0 then None
    else if HoldsMember(objects[0], member) then Some(objects[0])
    else AnalysisOf(member, objects[1..])
  }

  /** The analysis found holds the member and no earlier object does; None
      means that no object of the document holds it. */
  lemma {:induction false} AnalysisOfSpec(member: DocObject, objects: seq<DocObject>)
    ensures AnalysisOf(member, objects).None? <==> forall i :: 0 <= i < |objects| ==> !HoldsMember(objects[i], member)
    ensures AnalysisOf(member, objects).Some? ==>
      exists k :: 0 <= k < |objects| && objects[k] == AnalysisOf(member, objects).value
        && HoldsMember(objects[k], member)
        && forall i :: 0 <= i < k ==> !HoldsMember(objects[i], member)
  {
    if |objects| > 0 {
      AnalysisOfSpec(member, objects[1..]);
      if HoldsMember(objects[0], member) {
        assert objects[0] == AnalysisOf(member, objects).value;
      } else {
        assert forall i :: 1 <= i < |objects| ==> objects[i] == objects[1..][i - 1];
        if AnalysisOf(member, objects).Some? {
          var k :| 0 <= k < |objects[1..]| && objects[1..][k] == AnalysisOf(member, objects).value
            && HoldsMember(objects[1..][k], member)
            && forall i :: 0 <= i < k ==> !HoldsMember(objects[1..][i], member);
          assert objects[k + 1] == objects[1..][k];
          assert forall i :: 0 <= i < k + 1 ==> !HoldsMember(objects[i], member) by {
            forall i | 0 <= i < k + 1 ensures !HoldsMember(objects[i], member) {
              if i > 0 { assert objects[i] == objects[1..][i - 1]; }
            }
          }
        }
      }
    }
  }

  /** `findAnalysisOfMember`: `objects` are the objects of the member's
      document; a None member is a ValueError. */
  method FindAnalysisOfMember(member: Option<DocObject>, objects: seq<DocObject>)
    returns (r: Result<Option<DocObject>, MiscError>)
    ensures member.None? <==> r.Failure?
    ensures r.Failure? ==> r.error == MemberIsNone
    ensures r.Success? ==> r.value == AnalysisOf(member.value, objects)
  {
    if member.None? {
      return Failure(MemberIsNone);
    }
    var i := 0;
    while i < |objects|
      invariant 0 <= i <= |objects|
      invariant AnalysisOf(member.value, objects) == AnalysisOf(member.value, objects[i..])
    {
      assert objects[i..][1..] == objects[i + 1..];
      if IsDerivedFrom(objects[i], ANALYSIS_TYPE) {
        if member.value in objects[i].members {
          return Success(Some(objects[i]));
        }
      }
      i := i + 1;
    }
    r := Success(None);
  }

  /** Where a dot can only come from the separator, the unique name tells
      objects of different names or documents apart. */
  lemma UniqueNameInjective(a: DocObject, b: DocObject)
    requires '.' !in a.name && '.' !in b.name
    requires UniqueName(a) == UniqueName(b)
    ensures a.name == b.name && a.document == b.document
  {
    if a.document.Some? {
      assert UniqueName(a)[|a.document.value|] == '.';
    }
    if b.document.Some? {
      assert UniqueName(b)[|b.document.value|] == '.';
    }
    if a.document.Some? && b.document.Some? {
      var da, db, s := a.document.value, b.document.value, UniqueName(a);
      SplitAtLastDot(da, a.name);
      SplitAtLastDot(db, b.name);
      assert |da| == |db|;
    }
  }

  /** The last dot of `doc + "." + name` is the separator when `name` has none. */
  lemma SplitAtLastDot(doc: string, name: string)
    requires '.' !in name
    ensures var s := doc + "." + name;
      |s| - |name| - 1 == |doc| && s[|doc|] == '.' && s[..|doc|] == doc && s[|doc| + 1..] == name
      && forall j :: |doc| < j < |s| ==> s[j] != '.'
  {
    var s := doc + "." + name;
    forall j | |doc| < j < |s| ensures s[j] != '.' {
      assert s[j] == name[j - |doc| - 1];
    }
  }
}
