/** Writer for Elmer's Solver Input File (SIF) format, `sifio.py`.

    A SIF file is a list of sections. Each section has a name from a fixed
    list, a number for the kinds of section that are numbered, and a body of
    `key = Type value` lines; a section is closed by `End`. The numbers are
    handed out per section name by an id manager at the moment a section is
    first needed: when its header is written, or when another section refers
    to it in an attribute. */
module SifIO {
  import opened Wrappers
  import TextUtil

  const HEADER: string := "Header"
  const SIMULATION: string := "Simulation"
  const CONSTANTS: string := "Constants"
  const BODY: string := "Body"
  const MATERIAL: string := "Material"
  const BODY_FORCE: string := "Body Force"
  const EQUATION: string := "Equation"
  const SOLVER: string := "Solver"
  const BOUNDARY_CONDITION: string := "Boundary Condition"
  const INITIAL_CONDITION: string := "Initial Condition"
  const COMPONENT: string := "Component"

  const VALID_SECTIONS: seq<string> := [
    HEADER, SIMULATION, CONSTANTS, BODY, MATERIAL, BODY_FORCE, EQUATION,
    SOLVER, BOUNDARY_CONDITION, INITIAL_CONDITION, COMPONENT]

  const NUMBERED_SECTIONS: seq<string> := [
    BODY, MATERIAL, BODY_FORCE, EQUATION, SOLVER, BOUNDARY_CONDITION,
    INITIAL_CONDITION, COMPONENT]

  const SECTION_DELIM: string := "End"
  const WHITESPACE: string := " "
  const NEWLINE: string := "\n"

  const TYPE_REAL: string := "Real"
  const TYPE_INTEGER: string := "Integer"
  const TYPE_LOGICAL: string := "Logical"
  const TYPE_STRING: string := "String"
  const TYPE_FILE: string := "File"

  /** The ValueErrors the module raises. */
  datatype SifError =
    | InvalidSectionName(name: string)
    | EmptyCollection
    | InhomogeneousCollection
    | UnsupportedType(kind: Kind)

  predicate IsNumbered(name: string) {
    name in NUMBERED_SECTIONS
  }

  /** Of the valid section names exactly Header, Simulation and Constants
      carry no number. */
  lemma NumberedValidSections(name: string)
    requires name in VALID_SECTIONS
    ensures IsNumbered(name) <==> name != HEADER && name != SIMULATION && name != CONSTANTS
  {
  }

  lemma NumberedAreValid(name: string)
    ensures IsNumbered(name) ==> name in VALID_SECTIONS
  {
  }

  // ---------------------------------------------------------------------
  // Attribute values and their SIF types
  // ---------------------------------------------------------------------

  /** A single attribute value. A float and a value of an unsupported type
      carry the text `str()` gives for them; a `PathAttr` is a string that is
      written as a file name. */
  datatype Scalar =
    | IntS(i: int)
    | RealS(text: string)
    | BoolS(b: bool)
    | StrS(s: string)
    | PathS(path: string)
    | SectionS(section: Section)
    | OtherS(typeName: string, text: string)

  /** An attribute is a scalar or a (non-string) collection of scalars. */
  datatype Value = One(x: Scalar) | Many(items: seq<Scalar>)

  /** The Python type of a scalar. */
  datatype Kind = SectionK | IntK | RealK | BoolK | StrK | PathK | OtherK(typeName: string)

  function KindOf(x: Scalar): Kind {
    match x
    case IntS(_) => IntK
    case RealS(_) => RealK
    case BoolS(_) => BoolK
    case StrS(_) => StrK
    case PathS(_) => PathK
    case SectionS(_) => SectionK
    case OtherS(n, _) => OtherK(n)
  }

  /** `issubclass(k, base)`: `bool` derives from `int`, `PathAttr` from `str`. */
  predicate IsSubclass(k: Kind, base: Kind) {
    k == base || (k == BoolK && base == IntK) || (k == PathK && base == StrK)
  }

  /** `isinstance(x, k)` */
  predicate IsInstance(x: Scalar, k: Kind) {
    IsSubclass(KindOf(x), k)
  }

  /** `_getSifDataType` exactly as the checks are ordered in the source:
      since `issubclass(bool, int)` holds, the `int` test catches `bool`
      first and the `Logical` branch is never reached. */
  function SifTypeAsWritten(k: Kind): Result<string, SifError> {
    if IsSubclass(k, SectionK) then Success(TYPE_INTEGER)
    else if IsSubclass(k, IntK) then Success(TYPE_INTEGER)
    else if IsSubclass(k, RealK) then Success(TYPE_REAL)
    else if IsSubclass(k, BoolK) then Success(TYPE_LOGICAL)
    else if IsSubclass(k, PathK) then Success(TYPE_FILE)
    else if IsSubclass(k, StrK) then Success(TYPE_STRING)
    else Failure(UnsupportedType(k))
  }

  /** The source tags a Python bool as Integer, so `True` is written as
      `Integer True`, where Elmer's format (`Use Mesh Names = Logical True`)
      wants `Logical`. */
  lemma BoolTaggedIntegerAsWritten()
    ensures SifTypeAsWritten(BoolK) == Success(TYPE_INTEGER)
    ensures SifTypeAsWritten(BoolK) != Success(TYPE_LOGICAL)
  {
  }

  /** `_getSifDataType` with the `bool` test moved before the `int` test:
      the tag each Python type is written with. */
  function SifType(k: Kind): Result<string, SifError> {
    if IsSubclass(k, SectionK) then Success(TYPE_INTEGER)
    else if IsSubclass(k, BoolK) then Success(TYPE_LOGICAL)
    else if IsSubclass(k, IntK) then Success(TYPE_INTEGER)
    else if IsSubclass(k, RealK) then Success(TYPE_REAL)
    else if IsSubclass(k, PathK) then Success(TYPE_FILE)
    else if IsSubclass(k, StrK) then Success(TYPE_STRING)
    else Failure(UnsupportedType(k))
  }

  /** Each supported Python type has its own tag (a section is written as its
      number, hence Integer); any other type is a ValueError. */
  lemma SifTypeTable(k: Kind)
    ensures SifType(k).Failure? <==> k.OtherK?
    ensures SifType(k).Failure? ==> SifType(k).error == UnsupportedType(k)
    ensures SifType(k) == Success(TYPE_INTEGER) <==> k == SectionK || k == IntK
    ensures SifType(k) == Success(TYPE_LOGICAL) <==> k == BoolK
    ensures SifType(k) == Success(TYPE_REAL) <==> k == RealK
    ensures SifType(k) == Success(TYPE_FILE) <==> k == PathK
    ensures SifType(k) == Success(TYPE_STRING) <==> k == StrK
  {
  }

  /** The correction changes the tag of `bool` and of nothing else. */
  lemma SifTypeDiffersOnlyOnBool(k: Kind)
    ensures SifType(k) == SifTypeAsWritten(k) <==> k != BoolK
  {
  }

  /** The SIF type of a collection: the type of its first element, provided
      the collection is not empty and every element is an instance of that
      type (`_getAttrTypeArr`). */
  predicate Homogeneous(xs: seq<Scalar>)
    requires |xs| > 0
  {
    forall i :: 1 <= i < |xs| ==> IsInstance(xs[i], KindOf(xs[0]))
  }

  function ArrayType(xs: seq<Scalar>): Result<string, SifError> {
    if |xs| == 0 then Failure(EmptyCollection)
    else if !Homogeneous(xs) then Failure(InhomogeneousCollection)
    else SifType(KindOf(xs[0]))
  }

  /** `isinstance` lets a bool into an int collection and a path into a string
      collection, but not the other way round. */
  lemma ArrayTypeFollowsSubclassing()
    ensures ArrayType([IntS(1), BoolS(true)]) == Success(TYPE_INTEGER)
    ensures ArrayType([BoolS(true), IntS(1)]) == Failure(InhomogeneousCollection)
    ensures ArrayType([StrS("a"), PathS("b")]) == Success(TYPE_STRING)
    ensures ArrayType([PathS("b"), StrS("a")]) == Failure(InhomogeneousCollection)
  {
    var a, b := [BoolS(true), IntS(1)], [PathS("b"), StrS("a")];
    assert !IsInstance(a[1], KindOf(a[0]));
    assert !IsInstance(b[1], KindOf(b[0]));
  }

  /** An attribute the writer can render without raising. */
  predicate WellTyped(v: Value) {
    match v
    case One(x) => SifType(KindOf(x)).Success?
    case Many(xs) => ArrayType(xs).Success?
  }

  // ---------------------------------------------------------------------
  // Sections: a validated name and an insertion-ordered attribute dict
  // ---------------------------------------------------------------------

  predicate KeysUnique<V>(al: seq<(string, V)>) {
    forall i, j :: 0 <= i < j < |al| ==> al[i].0 != al[j].0
  }

  function Keys<V>(al: seq<(string, V)>): set<string> {
    set i | 0 <= i < |al| :: al[i].0
  }

  /** `d[key]`: the value stored under `key`, None for Python's KeyError. */
  function Lookup<V>(al: seq<(string, V)>, key: string): Option<V> {
    if |al| == 0 then None
    else if al[0].0 == key then Some(al[0].1)
    else Lookup(al[1..], key)
  }

  /** `d[key] = v`: replaces the value of an existing key where it stands,
      or appends a new key at the end. */
  function Put<V>(al: seq<(string, V)>, key: string, v: V): seq<(string, V)> {
    if |al| == 0 then [(key, v)]
    else if al[0].0 == key then [(key, v)] + al[1..]
    else [al[0]] + Put(al[1..], key, v)
  }

  /** `del d[key]` for a key that is present, keeping the others in order. */
  function Remove<V>(al: seq<(string, V)>, key: string): seq<(string, V)> {
    if |al| == 0 then []
    else if al[0].0 == key then Remove(al[1..], key)
    else [al[0]] + Remove(al[1..], key)
  }

  lemma {:induction false} LookupSome<V>(al: seq<(string, V)>, key: string)
    ensures Lookup(al, key).Some? <==> key in Keys(al)
  {
    if |al| > 0 {
      LookupSome(al[1..], key);
      assert Keys(al) == {al[0].0} + Keys(al[1..]) by {
        forall k | k in Keys(al) ensures k in {al[0].0} + Keys(al[1..]) {
          var i :| 0 <= i < |al| && al[i].0 == k;
          if i > 0 { assert al[1..][i - 1].0 == k; }
        }
      }
    }
  }

  lemma HeadKeyNotInTail<V>(al: seq<(string, V)>)
    requires KeysUnique(al) && |al| > 0
    ensures al[0].0 !in Keys(al[1..])
  {
    forall k | k in Keys(al[1..]) ensures k != al[0].0 {
      var i :| 0 <= i < |al[1..]| && al[1..][i].0 == k;
      assert al[1..][i] == al[i + 1];
    }
  }

  /** After `d[key] = v`, `d[key]` is `v` and every other key reads as before. */
  lemma {:induction false} LookupPut<V>(al: seq<(string, V)>, key: string, v: V, other: string)
    ensures Lookup(Put(al, key, v), key) == Some(v)
    ensures other != key ==> Lookup(Put(al, key, v), other) == Lookup(al, other)
  {
    if |al| > 0 && al[0].0 != key {
      LookupPut(al[1..], key, v, other);
    }
  }

  /** Assignment keeps the dict's keys unique and adds exactly `key`. */
  lemma {:induction false} PutKeys<V>(al: seq<(string, V)>, key: string, v: V)
    requires KeysUnique(al)
    ensures KeysUnique(Put(al, key, v))
    ensures |Put(al, key, v)| == if key in Keys(al) then |al| else |al| + 1
    ensures forall k :: Lookup(Put(al, key, v), k).Some? <==> k == key || Lookup(al, k).Some?
  {
    if |al| > 0 && al[0].0 != key {
      PutKeys(al[1..], key, v);
      LookupSome(al[1..], al[0].0);
      HeadKeyNotInTail(al);
      forall k ensures Lookup(Put(al, key, v), k).Some? <==> k == key || Lookup(al, k).Some? {
        LookupPut(al[1..], key, v, k);
      }
      LookupSome(Put(al[1..], key, v), al[0].0);
      assert al[0].0 !in Keys(Put(al[1..], key, v));
      var r := Put(al, key, v);
      forall i, j | 0 <= i < j < |r| ensures r[i].0 != r[j].0 {
        if i == 0 {
          assert r[j] == Put(al[1..], key, v)[j - 1];
        }
      }
      LookupSome(al, key);
      LookupSome(al[1..], key);
      assert key in Keys(al) <==> key in Keys(al[1..]) by {
        if key in Keys(al) {
          var i :| 0 <= i < |al| && al[i].0 == key;
          assert i > 0 && al[1..][i - 1].0 == key;
        }
      }
    } else if |al| > 0 {
      var r := Put(al, key, v);
      assert forall i :: 1 <= i < |r| ==> r[i] == al[i];
      assert key in Keys(al);
      forall k ensures Lookup(Put(al, key, v), k).Some? <==> k == key || Lookup(al, k).Some? {
        LookupPut(al, key, v, k);
      }
    }
  }

  /** After `del d[key]`, `key` is gone and every other key reads as before. */
  lemma {:induction false} LookupRemove<V>(al: seq<(string, V)>, key: string, other: string)
    ensures Lookup(Remove(al, key), key) == None
    ensures other != key ==> Lookup(Remove(al, key), other) == Lookup(al, other)
  {
    if |al| > 0 {
      LookupRemove(al[1..], key, other);
    }
  }

  lemma {:induction false} RemoveKeysUnique<V>(al: seq<(string, V)>, key: string)
    requires KeysUnique(al)
    ensures KeysUnique(Remove(al, key))
    ensures Keys(Remove(al, key)) == Keys(al) - {key}
  {
    if |al| > 0 {
      RemoveKeysUnique(al[1..], key);
      assert Keys(al) == {al[0].0} + Keys(al[1..]) by {
        forall k | k in Keys(al) ensures k in {al[0].0} + Keys(al[1..]) {
          var i :| 0 <= i < |al| && al[i].0 == k;
          if i > 0 { assert al[1..][i - 1].0 == k; }
        }
      }
      HeadKeyNotInTail(al);
      if al[0].0 != key {
        var r := Remove(al, key);
        var t := Remove(al[1..], key);
        assert Keys(r) == {al[0].0} + Keys(t) by {
          forall k | k in Keys(r) ensures k in {al[0].0} + Keys(t) {
            var i :| 0 <= i < |r| && r[i].0 == k;
            if i > 0 { assert t[i - 1].0 == k; }
          }
          assert r[0].0 == al[0].0;
          forall k | k in Keys(t) ensures k in Keys(r) {
            var i :| 0 <= i < |t| && t[i].0 == k;
            assert r[i + 1].0 == k;
          }
        }
        forall i, j | 0 <= i < j < |r| ensures r[i].0 != r[j].0 {
          if i == 0 {
            assert r[j] == t[j - 1];
            assert r[j].0 in Keys(t);
          }
        }
      }
    }
  }

  /** A SIF section: its name is fixed at construction, its attributes live
      in a dict updated in place. */
  class Section {
    const name: string
    var attrs: seq<(string, Value)>

    ghost predicate Valid()
      reads this
    {
      name in VALID_SECTIONS && KeysUnique(attrs)
    }

    constructor (name: string)
      requires name in VALID_SECTIONS
      ensures Valid() && this.name == name && attrs == []
    {
      this.name := name;
      attrs := [];
    }

    /** `s[key] = value` */
    method SetItem(key: string, value: Value)
      requires Valid()
      modifies this`attrs
      ensures Valid() && attrs == Put(old(attrs), key, value)
      ensures Lookup(attrs, key) == Some(value)
      ensures forall k :: k != key ==> Lookup(attrs, k) == Lookup(old(attrs), k)
    {
      PutKeys(attrs, key, value);
      LookupPut(attrs, key, value, key);
      forall k ensures k != key ==> Lookup(Put(attrs, key, value), k) == Lookup(attrs, k) {
        LookupPut(attrs, key, value, k);
      }
      attrs := Put(attrs, key, value);
    }

    /** `s[key]`, None for the KeyError of a missing key. */
    method GetItem(key: string) returns (r: Option<Value>)
      ensures r == Lookup(attrs, key)
    {
      r := None;
      var i := 0;
      while i < |attrs|
        invariant 0 <= i <= |attrs|
        invariant Lookup(attrs, key) == Lookup(attrs[i..], key)
      {
        assert attrs[i..][1..] == attrs[i + 1..];
        if attrs[i].0 == key {
          r := Some(attrs[i].1);
          return;
        }
        i := i + 1;
      }
    }

    /** `del s[key]`: removes only `key`; a missing key is Python's KeyError
        (`false`) and leaves the dict unchanged. */
    method DelItem(key: string) returns (found: bool)
      requires Valid()
      modifies this`attrs
      ensures Valid()
      ensures found == (Lookup(old(attrs), key).Some?)
      ensures attrs == if found then Remove(old(attrs), key) else old(attrs)
      ensures Lookup(attrs, key) == None
      ensures forall k :: k != key ==> Lookup(attrs, k) == Lookup(old(attrs), k)
    {
      LookupSome(attrs, key);
      found := key in Keys(attrs);
      if found {
        RemoveKeysUnique(attrs, key);
        forall k ensures k != key ==> Lookup(Remove(attrs, key), k) == Lookup(attrs, k) {
          LookupRemove(attrs, key, k);
        }
        LookupRemove(attrs, key, key);
        attrs := Remove(attrs, key);
      }
    }
  }

  /** `Section(name)`: a ValueError for a name outside the eleven valid ones. */
  method NewSection(name: string) returns (r: Result<Section, SifError>)
    ensures r.Success? <==> name in VALID_SECTIONS
    ensures r.Failure? ==> r.error == InvalidSectionName(name)
    ensures r.Success? ==> fresh(r.value) && r.value.Valid() && r.value.name == name && r.value.attrs == []
  {
    if name !in VALID_SECTIONS {
      return Failure(InvalidSectionName(name));
    }
    var s := new Section(name);
    r := Success(s);
  }

  // ---------------------------------------------------------------------
  // Section numbering
  // ---------------------------------------------------------------------

  /** The id manager's two dicts: the next free number per section name, and
      the number given to each section so far. */
  datatype Ids = Ids(pool: map<string, int>, ids: map<Section, int>)

  /** Some section of name `n` holds number `k`. */
  ghost predicate IdTaken(st: Ids, n: string, k: int) {
    exists s :: s in st.ids && s.name == n && st.ids[s] == k
  }

  /** The numbering invariant: the sections of one name hold exactly the
      numbers `firstId .. pool[name]-1`, each number held by one section. */
  ghost predicate WellNumbered(st: Ids, firstId: int) {
    && (forall s :: s in st.ids ==> s.name in st.pool && firstId <= st.ids[s] < st.pool[s.name])
    && (forall s, t :: s in st.ids && t in st.ids && s != t && s.name == t.name ==> st.ids[s] != st.ids[t])
    && (forall n :: n in st.pool ==> firstId <= st.pool[n])
    && (forall n, k :: n in st.pool && firstId <= k < st.pool[n] ==> IdTaken(st, n, k))
  }

  /** Every number given before is still given, to the same section. */
  ghost predicate Extends(st: Ids, st': Ids) {
    forall s :: s in st.ids ==> s in st'.ids && st'.ids[s] == st.ids[s]
  }

  /** `_setId`: the next number of the section's name, starting at `firstId`. */
  function SetIdOf(st: Ids, firstId: int, s: Section): Ids {
    var next := if s.name in st.pool then st.pool[s.name] else firstId;
    Ids(st.pool[s.name := next + 1], st.ids[s := next])
  }

  /** `_getId`: the section's number, allocated on first request. */
  function GetIdOf(st: Ids, firstId: int, s: Section): (Ids, int) {
    if s in st.ids then (st, st.ids[s])
    else var st' := SetIdOf(st, firstId, s); (st', st'.ids[s])
  }

  /** Asking again for a numbered section returns its number and changes
      nothing; a new section gets the next number of its name, that name's
      counter goes up by one, and no other name or section is affected. */
  lemma GetIdSpec(st: Ids, firstId: int, s: Section)
    ensures var (st', id) := GetIdOf(st, firstId, s);
      && (s in st.ids ==> st' == st && id == st.ids[s])
      && (s !in st.ids ==>
            && id == (if s.name in st.pool then st.pool[s.name] else firstId)
            && st'.pool == st.pool[s.name := id + 1]
            && st'.ids == st.ids[s := id])
      && s in st'.ids && st'.ids[s] == id
      && Extends(st, st')
      && (forall n :: n != s.name ==> (n in st'.pool <==> n in st.pool))
      && (forall n :: n != s.name && n in st.pool ==> st'.pool[n] == st.pool[n])
  {
  }

  /** Numbering a new section keeps the numbering invariant. */
  lemma SetIdKeepsNumbering(st: Ids, firstId: int, s: Section)
    requires WellNumbered(st, firstId) && s !in st.ids
    ensures WellNumbered(SetIdOf(st, firstId, s), firstId)
  {
    var st' := SetIdOf(st, firstId, s);
    var next := if s.name in st.pool then st.pool[s.name] else firstId;
    forall t | t in st.ids && t.name == s.name ensures st.ids[t] < next {
    }
    forall n, k | n in st'.pool && firstId <= k < st'.pool[n] ensures IdTaken(st', n, k) {
      if n == s.name && k == next {
        assert s in st'.ids && st'.ids[s] == k;
      } else {
        assert n in st.pool && k < st.pool[n];
        assert IdTaken(st, n, k);
        var t :| t in st.ids && t.name == n && st.ids[t] == k;
        assert t in st'.ids && st'.ids[t] == k;
      }
    }
  }

  lemma GetIdKeepsNumbering(st: Ids, firstId: int, s: Section)
    requires WellNumbered(st, firstId)
    ensures WellNumbered(GetIdOf(st, firstId, s).0, firstId)
  {
    if s !in st.ids {
      SetIdKeepsNumbering(st, firstId, s);
    }
  }

  /** Numbers given to a list of sections one after the other. */
  function GetIdsOf(st: Ids, firstId: int, ss: seq<Section>): (Ids, seq<int>) {
    if |ss| == 0 then (st, [])
    else
      var (st1, ns) := GetIdsOf(st, firstId, ss[..|ss| - 1]);
      var (st2, n) := GetIdOf(st1, firstId, ss[|ss| - 1]);
      (st2, ns + [n])
  }

  /** Distinct new sections of one name are numbered `firstId, firstId+1, ...`
      in the order they are asked for. */
  lemma {:induction false} ConsecutiveIds(st: Ids, firstId: int, name: string, ss: seq<Section>)
    requires name !in st.pool
    requires forall i :: 0 <= i < |ss| ==> ss[i].name == name && ss[i] !in st.ids
    requires forall i, j :: 0 <= i < j < |ss| ==> ss[i] != ss[j]
    ensures var (st', ns) := GetIdsOf(st, firstId, ss);
      && |ns| == |ss|
      && (forall i :: 0 <= i < |ns| ==> ns[i] == firstId + i)
      && (|ss| > 0 ==> name in st'.pool && st'.pool[name] == firstId + |ss|)
      && (forall i :: 0 <= i < |ss| ==> ss[i] in st'.ids)
      && (forall s :: s in st'.ids && s !in st.ids ==> s in ss)
  {
    if |ss| > 0 {
      var init := ss[..|ss| - 1];
      ConsecutiveIds(st, firstId, name, init);
      var (st1, ns) := GetIdsOf(st, firstId, init);
      var last := ss[|ss| - 1];
      assert last !in init by {
        forall i | 0 <= i < |init| ensures init[i] != last {
          assert init[i] == ss[i];
        }
      }
      assert last !in st1.ids;
    }
  }

  /** `_IdManager`: hands out numbers per section name. */
  class IdManager {
    var pool: map<string, int>
    var ids: map<Section, int>
    const firstId: int

    constructor (firstId: int := 1)
      ensures pool == map[] && ids == map[] && this.firstId == firstId
      ensures WellNumbered(State(), firstId)
    {
      pool := map[];
      ids := map[];
      this.firstId := firstId;
    }

    function State(): Ids
      reads this
    {
      Ids(pool, ids)
    }

    method SetId(s: Section)
      requires s !in ids
      modifies this
      ensures State() == SetIdOf(old(State()), firstId, s)
      ensures old(WellNumbered(State(), firstId)) ==> WellNumbered(State(), firstId)
    {
      ghost var next := SetIdOf(State(), firstId, s);
      if WellNumbered(State(), firstId) {
        SetIdKeepsNumbering(State(), firstId, s);
      }
      if s.name !in pool {
        pool := pool[s.name := firstId];
      }
      ids := ids[s := pool[s.name]];
      pool := pool[s.name := pool[s.name] + 1];
      assert State() == next;
    }

    method GetId(s: Section) returns (id: int)
      modifies this
      ensures (State(), id) == GetIdOf(old(State()), firstId, s)
      ensures old(WellNumbered(State(), firstId)) ==> WellNumbered(State(), firstId)
    {
      if s !in ids {
        SetId(s);
      }
      id := ids[s];
    }
  }

  // ---------------------------------------------------------------------
  // Rendering, as functions of the stream's text and the id manager's state
  // ---------------------------------------------------------------------

  /** The state after writing: the stream's whole text, the id manager's
      state, and the ValueError that stopped the writer, if any. On an error
      the text is what had reached the stream before the exception. */
  datatype Out = Out(text: string, ids: Ids, err: Option<SifError>)

  function Quote(s: string): string {
    "\"" + s + "\""
  }

  /** `_preprocess`: the text of one value; a section is written as its
      number, which may be allocated here. */
  function ValueText(x: Scalar, st: Ids, firstId: int): (Ids, string) {
    if x.SectionS? then
      var (st', id) := GetIdOf(st, firstId, x.section);
      (st', TextUtil.IntToString(id))
    else (st, PlainText(x))
  }

  /** `_preprocess` of a value that is not a section: strings and paths in
      double quotes, everything else as `str()` gives it. */
  function PlainText(x: Scalar): string {
    match x
    case SectionS(_) => ""
    case PathS(p) => Quote(p)
    case StrS(s) => Quote(s)
    case IntS(i) => TextUtil.IntToString(i)
    case BoolS(b) => if b then "True" else "False"
    case RealS(t) => t
    case OtherS(_, t) => t
  }

  /** `text` followed by the values of a collection, each preceded by a blank. */
  function ValuesText(xs: seq<Scalar>, text: string, st: Ids, firstId: int): (string, Ids) {
    if |xs| == 0 then (text, st)
    else
      var (t1, st1) := ValuesText(xs[..|xs| - 1], text, st, firstId);
      var (st2, v) := ValueText(xs[|xs| - 1], st1, firstId);
      (t1 + WHITESPACE + v, st2)
  }

  /** `_preprocess(val, type(data))` as `_writeArrAttr` calls it: the type
      tested is the collection's, which is neither a section, a path nor a
      string, so every element is rendered by `str()`. `sectionText` stands
      for `str()` of a section object, a text Python derives from the
      object's identity. */
  function ArrayValueTextAsWritten(x: Scalar, sectionText: string): string {
    match x
    case SectionS(_) => sectionText
    case PathS(p) => p
    case StrS(t) => t
    case _ => PlainText(x)
  }

  /** As written, a string inside an array loses the double quotes a
      string attribute of its own gets. */
  lemma StringArrayUnquotedAsWritten(st: Ids)
    ensures ArrayValueTextAsWritten(StrS("a"), "") == "a"
    ensures ValueText(StrS("a"), st, 1).1 == "\"a\""
    ensures ArrayValueTextAsWritten(StrS("a"), "") != ValueText(StrS("a"), st, 1).1
  {
    assert ValueText(StrS("a"), st, 1).1 == Quote("a");
    assert |Quote("a")| == 3;
  }

  /** `text` followed by `key = Type value` */
  function ScalarAttr(key: string, x: Scalar, text: string, st: Ids, firstId: int): Out {
    match SifType(KindOf(x))
    case Failure(e) => Out(text, st, Some(e))
    case Success(t) =>
      var (st', v) := ValueText(x, st, firstId);
      Out(text + key + WHITESPACE + "=" + WHITESPACE + t + WHITESPACE + v, st', None)
  }

  /** `text` followed by `key(n) = Type v1 ... vn` */
  function ArrAttr(key: string, xs: seq<Scalar>, text: string, st: Ids, firstId: int): Out {
    match ArrayType(xs)
    case Failure(e) => Out(text, st, Some(e))
    case Success(t) =>
      var head := text + key + ("(" + TextUtil.IntToString(|xs|) + ")") + WHITESPACE + "=" + WHITESPACE + t;
      var (text', st') := ValuesText(xs, head, st, firstId);
      Out(text', st', None)
  }

  function Attribute(key: string, v: Value, text: string, st: Ids, firstId: int): Out {
    match v
    case One(x) => ScalarAttr(key, x, text, st, firstId)
    case Many(xs) => ArrAttr(key, xs, text, st, firstId)
  }

  /** An array's elements are written as scalar attributes write their
      value: a one-element array is written exactly as a scalar attribute
      whose key carries the count `(1)`, with the same type tag, value text
      and numbering. */
  lemma ArrayElementsLikeScalars(key: string, x: Scalar, text: string, st: Ids, firstId: int)
    ensures ArrAttr(key, [x], text, st, firstId) == ScalarAttr(key + "(1)", x, text, st, firstId)
  {
    ArrayTypeSingle(x);
    if SifType(KindOf(x)).Success? {
      var t := SifType(KindOf(x)).value;
      assert "(" + TextUtil.IntToString(|[x]|) + ")" == "(1)";
      var head := text + key + "(1)" + WHITESPACE + "=" + WHITESPACE + t;
      ValuesTextSingle(x, head, st, firstId);
      assert text + key + "(1)" == text + (key + "(1)");
    }
  }

  lemma ArrayTypeSingle(x: Scalar)
    ensures ArrayType([x]) == SifType(KindOf(x))
  {
    assert Homogeneous([x]);
  }

  lemma ValuesTextSingle(x: Scalar, text: string, st: Ids, firstId: int)
    ensures ValuesText([x], text, st, firstId) == (text + WHITESPACE + ValueText(x, st, firstId).1, ValueText(x, st, firstId).0)
  {
    assert [x][..0] == [];
  }

  /** `text` followed by the attributes, each followed by a newline, up to
      the first error. */
  function Body(attrs: seq<(string, Value)>, text: string, st: Ids, firstId: int): Out {
    if |attrs| == 0 then Out(text, st, None)
    else
      var r := Body(attrs[..|attrs| - 1], text, st, firstId);
      if r.err.Some? then r
      else
        var a := Attribute(attrs[|attrs| - 1].0, attrs[|attrs| - 1].1, r.text, r.ids, firstId);
        if a.err.Some? then a else Out(a.text + NEWLINE, a.ids, None)
  }

  /** `text` followed by the header line: the name, a blank, and the number
      of a numbered section. */
  function Header(s: Section, text: string, st: Ids, firstId: int): (string, Ids) {
    if IsNumbered(s.name) then
      var (st', id) := GetIdOf(st, firstId, s);
      (text + s.name + WHITESPACE + TextUtil.IntToString(id), st')
    else (text + s.name + WHITESPACE, st)
  }

  /** A section together with the attributes it holds when it is written. */
  datatype SectionView = View(section: Section, attrs: seq<(string, Value)>)

  function Views(ss: seq<Section>): (vs: seq<SectionView>)
    reads ss
    ensures |vs| == |ss|
    ensures forall i :: 0 <= i < |ss| ==> vs[i] == View(ss[i], ss[i].attrs)
  {
    if |ss| == 0 then [] else Views(ss[..|ss| - 1]) + [View(ss[|ss| - 1], ss[|ss| - 1].attrs)]
  }

  /** `text` followed by header, newline, body, newline and `End`. */
  function SectionOut(v: SectionView, text: string, st: Ids, firstId: int): Out {
    var (h, st1) := Header(v.section, text, st, firstId);
    var b := Body(v.attrs, h + NEWLINE, st1, firstId);
    if b.err.Some? then b else Out(b.text + NEWLINE + SECTION_DELIM, b.ids, None)
  }

  /** `text` followed by the sections in list order, each followed by a newline. */
  function Sections(ss: seq<SectionView>, text: string, st: Ids, firstId: int): Out {
    if |ss| == 0 then Out(text, st, None)
    else
      var r := Sections(ss[..|ss| - 1], text, st, firstId);
      if r.err.Some? then r
      else
        var o := SectionOut(ss[|ss| - 1], r.text, r.ids, firstId);
        if o.err.Some? then o else Out(o.text + NEWLINE, o.ids, None)
  }

  /** Once an attribute has failed, the attributes after it are not written. */
  lemma {:induction false} BodyStopsAtError(attrs: seq<(string, Value)>, n: nat, text: string, st: Ids, firstId: int)
    requires n <= |attrs| && Body(attrs[..n], text, st, firstId).err.Some?
    ensures Body(attrs, text, st, firstId) == Body(attrs[..n], text, st, firstId)
  {
    if n < |attrs| {
      var init := attrs[..|attrs| - 1];
      assert init[..n] == attrs[..n];
      BodyStopsAtError(init, n, text, st, firstId);
    } else {
      assert attrs[..n] == attrs;
    }
  }

  /** The last section is written after the ones before it, unless one of
      them failed. */
  lemma SectionsStep(ss: seq<SectionView>, text: string, st: Ids, firstId: int)
    requires |ss| > 0
    ensures var r := Sections(ss[..|ss| - 1], text, st, firstId);
      Sections(ss, text, st, firstId) ==
        if r.err.Some? then r
        else
          var o := SectionOut(ss[|ss| - 1], r.text, r.ids, firstId);
          if o.err.Some? then o else Out(o.text + NEWLINE, o.ids, None)
  {
  }

  /** Once a section has failed, the sections after it are not written. */
  lemma {:induction false} SectionsStopAtError(ss: seq<SectionView>, n: nat, text: string, st: Ids, firstId: int)
    requires n <= |ss| && Sections(ss[..n], text, st, firstId).err.Some?
    ensures Sections(ss, text, st, firstId) == Sections(ss[..n], text, st, firstId)
  {
    if n < |ss| {
      var init := ss[..|ss| - 1];
      assert init[..n] == ss[..n];
      SectionsStopAtError(init, n, text, st, firstId);
    } else {
      assert ss[..n] == ss;
    }
  }

  predicate AllWellTyped(attrs: seq<(string, Value)>) {
    forall i :: 0 <= i < |attrs| ==> WellTyped(attrs[i].1)
  }

  lemma AttributeSucceedsIff(key: string, v: Value, text: string, st: Ids, firstId: int)
    ensures Attribute(key, v, text, st, firstId).err.None? <==> WellTyped(v)
  {
  }

  lemma {:induction false} BodySucceedsIff(attrs: seq<(string, Value)>, text: string, st: Ids, firstId: int)
    ensures Body(attrs, text, st, firstId).err.None? <==> AllWellTyped(attrs)
  {
    if |attrs| > 0 {
      var init := attrs[..|attrs| - 1];
      BodySucceedsIff(init, text, st, firstId);
      var r := Body(init, text, st, firstId);
      var o := Body(attrs, text, st, firstId);
      if r.err.None? {
        var a := Attribute(attrs[|attrs| - 1].0, attrs[|attrs| - 1].1, r.text, r.ids, firstId);
        AttributeSucceedsIff(attrs[|attrs| - 1].0, attrs[|attrs| - 1].1, r.text, r.ids, firstId);
        assert o.err.None? <==> a.err.None?;
      } else {
        assert o == r;
      }
      AllWellTypedSnoc(attrs);
    }
  }

  lemma AllWellTypedSnoc(attrs: seq<(string, Value)>)
    requires |attrs| > 0
    ensures AllWellTyped(attrs) <==> AllWellTyped(attrs[..|attrs| - 1]) && WellTyped(attrs[|attrs| - 1].1)
  {
    var init := attrs[..|attrs| - 1];
    assert forall i :: 0 <= i < |init| ==> init[i] == attrs[i];
  }

  /** Every section's attributes are well typed. */
  predicate AllSectionsWellTyped(ss: seq<SectionView>) {
    forall i :: 0 <= i < |ss| ==> AllWellTyped(ss[i].attrs)
  }

  lemma AllSectionsWellTypedSnoc(ss: seq<SectionView>)
    requires |ss| > 0
    ensures AllSectionsWellTyped(ss) <==> AllSectionsWellTyped(ss[..|ss| - 1]) && AllWellTyped(ss[|ss| - 1].attrs)
  {
    var init := ss[..|ss| - 1];
    assert forall i :: 0 <= i < |init| ==> init[i] == ss[i];
  }

  /** A section is written without error exactly when all its attributes are. */
  lemma SectionSucceedsIff(v: SectionView, text: string, st: Ids, firstId: int)
    ensures SectionOut(v, text, st, firstId).err.None? <==> AllWellTyped(v.attrs)
  {
    var (h, st1) := Header(v.section, text, st, firstId);
    BodySucceedsIff(v.attrs, h + NEWLINE, st1, firstId);
    assert SectionOut(v, text, st, firstId).err == Body(v.attrs, h + NEWLINE, st1, firstId).err;
  }

  /** Writing raises a ValueError exactly when some attribute of some section
      is an empty or inhomogeneous collection or has an unsupported type. */
  lemma {:induction false} SectionsSucceedIff(ss: seq<SectionView>, text: string, st: Ids, firstId: int)
    ensures Sections(ss, text, st, firstId).err.None? <==> AllSectionsWellTyped(ss)
  {
    if |ss| > 0 {
      var init := ss[..|ss| - 1];
      SectionsSucceedIff(init, text, st, firstId);
      var r := Sections(init, text, st, firstId);
      var out := Sections(ss, text, st, firstId);
      if r.err.None? {
        SectionSucceedsIff(ss[|ss| - 1], r.text, r.ids, firstId);
        assert out.err.None? <==> SectionOut(ss[|ss| - 1], r.text, r.ids, firstId).err.None?;
      } else {
        assert out == r;
      }
      AllSectionsWellTypedSnoc(ss);
    }
  }

  /** The stream is only ever appended to: what was there before writing
      stays at the front. */
  lemma {:induction false} ValuesTextAppends(xs: seq<Scalar>, text: string, st: Ids, firstId: int)
    ensures text <= ValuesText(xs, text, st, firstId).0
  {
    if |xs| > 0 {
      ValuesTextAppends(xs[..|xs| - 1], text, st, firstId);
    }
  }

  lemma AttributeAppends(key: string, v: Value, text: string, st: Ids, firstId: int)
    ensures text <= Attribute(key, v, text, st, firstId).text
  {
    match v
    case One(x) =>
    case Many(xs) =>
      match ArrayType(xs)
      case Failure(_) =>
      case Success(t) =>
        var head := text + key + ("(" + TextUtil.IntToString(|xs|) + ")") + WHITESPACE + "=" + WHITESPACE + t;
        ValuesTextAppends(xs, head, st, firstId);
  }

  lemma {:induction false} BodyAppends(attrs: seq<(string, Value)>, text: string, st: Ids, firstId: int)
    ensures text <= Body(attrs, text, st, firstId).text
  {
    if |attrs| > 0 {
      BodyAppends(attrs[..|attrs| - 1], text, st, firstId);
      var r := Body(attrs[..|attrs| - 1], text, st, firstId);
      AttributeAppends(attrs[|attrs| - 1].0, attrs[|attrs| - 1].1, r.text, r.ids, firstId);
    }
  }

  /** Writing sections only appends to the stream, and a successful section
      ends with `End` and a newline. */
  lemma {:induction false} SectionsAppend(ss: seq<SectionView>, text: string, st: Ids, firstId: int)
    ensures text <= Sections(ss, text, st, firstId).text
    ensures var o := Sections(ss, text, st, firstId);
      o.err.None? && |ss| > 0 ==> o.text[|o.text| - 4..] == SECTION_DELIM + NEWLINE
  {
    if |ss| > 0 {
      SectionsAppend(ss[..|ss| - 1], text, st, firstId);
      var r := Sections(ss[..|ss| - 1], text, st, firstId);
      var v := ss[|ss| - 1];
      var (h, st1) := Header(v.section, r.text, r.ids, firstId);
      BodyAppends(v.attrs, h + NEWLINE, st1, firstId);
      var o := Sections(ss, text, st, firstId);
      if o.err.None? {
        var b := Body(v.attrs, h + NEWLINE, st1, firstId);
        assert o.text == b.text + NEWLINE + SECTION_DELIM + NEWLINE;
        assert o.text[|o.text| - 4..] == SECTION_DELIM + NEWLINE;
      }
    }
  }

  /** Writing a value keeps the numbering invariant. */
  lemma ValueTextKeepsNumbering(x: Scalar, st: Ids, firstId: int)
    requires WellNumbered(st, firstId)
    ensures WellNumbered(ValueText(x, st, firstId).0, firstId)
  {
    if x.SectionS? {
      GetIdKeepsNumbering(st, firstId, x.section);
    }
  }

  /** Writing a value never renumbers a section. */
  lemma ValueTextExtends(x: Scalar, st: Ids, firstId: int)
    ensures Extends(st, ValueText(x, st, firstId).0)
  {
    if x.SectionS? {
      GetIdSpec(st, firstId, x.section);
    }
  }

  lemma {:induction false} ValuesTextKeepsNumbering(xs: seq<Scalar>, text: string, st: Ids, firstId: int)
    requires WellNumbered(st, firstId)
    ensures WellNumbered(ValuesText(xs, text, st, firstId).1, firstId)
  {
    if |xs| > 0 {
      ValuesTextKeepsNumbering(xs[..|xs| - 1], text, st, firstId);
      var (t1, st1) := ValuesText(xs[..|xs| - 1], text, st, firstId);
      ValueTextKeepsNumbering(xs[|xs| - 1], st1, firstId);
    }
  }

  lemma {:induction false} ValuesTextExtends(xs: seq<Scalar>, text: string, st: Ids, firstId: int)
    ensures Extends(st, ValuesText(xs, text, st, firstId).1)
  {
    if |xs| > 0 {
      ValuesTextExtends(xs[..|xs| - 1], text, st, firstId);
      var (t1, st1) := ValuesText(xs[..|xs| - 1], text, st, firstId);
      ValueTextExtends(xs[|xs| - 1], st1, firstId);
      ExtendsTransitive(st, st1, ValuesText(xs, text, st, firstId).1);
    }
  }

  lemma AttributeKeepsNumbering(key: string, v: Value, text: string, st: Ids, firstId: int)
    requires WellNumbered(st, firstId)
    ensures WellNumbered(Attribute(key, v, text, st, firstId).ids, firstId)
  {
    match v
    case One(x) => ValueTextKeepsNumbering(x, st, firstId);
    case Many(xs) =>
      match ArrayType(xs)
      case Failure(_) =>
      case Success(t) =>
        var head := text + key + ("(" + TextUtil.IntToString(|xs|) + ")") + WHITESPACE + "=" + WHITESPACE + t;
        ValuesTextKeepsNumbering(xs, head, st, firstId);
  }

  lemma AttributeExtends(key: string, v: Value, text: string, st: Ids, firstId: int)
    ensures Extends(st, Attribute(key, v, text, st, firstId).ids)
  {
    match v
    case One(x) => ValueTextExtends(x, st, firstId);
    case Many(xs) =>
      match ArrayType(xs)
      case Failure(_) =>
      case Success(t) =>
        var head := text + key + ("(" + TextUtil.IntToString(|xs|) + ")") + WHITESPACE + "=" + WHITESPACE + t;
        ValuesTextExtends(xs, head, st, firstId);
  }

  /** Writing attributes keeps the numbering invariant. */
  lemma {:induction false} BodyKeepsNumbering(attrs: seq<(string, Value)>, text: string, st: Ids, firstId: int)
    requires WellNumbered(st, firstId)
    ensures WellNumbered(Body(attrs, text, st, firstId).ids, firstId)
  {
    if |attrs| > 0 {
      var init := attrs[..|attrs| - 1];
      BodyKeepsNumbering(init, text, st, firstId);
      var r := Body(init, text, st, firstId);
      var o := Body(attrs, text, st, firstId);
      if r.err.None? {
        AttributeKeepsNumbering(attrs[|attrs| - 1].0, attrs[|attrs| - 1].1, r.text, r.ids, firstId);
        assert o.ids == Attribute(attrs[|attrs| - 1].0, attrs[|attrs| - 1].1, r.text, r.ids, firstId).ids;
      } else {
        assert o == r;
      }
    }
  }

  /** Writing attributes never renumbers a section. */
  lemma {:induction false} BodyExtends(attrs: seq<(string, Value)>, text: string, st: Ids, firstId: int)
    ensures Extends(st, Body(attrs, text, st, firstId).ids)
  {
    if |attrs| > 0 {
      var init := attrs[..|attrs| - 1];
      BodyExtends(init, text, st, firstId);
      var r := Body(init, text, st, firstId);
      var o := Body(attrs, text, st, firstId);
      if r.err.None? {
        var a := Attribute(attrs[|attrs| - 1].0, attrs[|attrs| - 1].1, r.text, r.ids, firstId);
        AttributeExtends(attrs[|attrs| - 1].0, attrs[|attrs| - 1].1, r.text, r.ids, firstId);
        assert o.ids == a.ids;
        ExtendsTransitive(st, r.ids, a.ids);
      } else {
        assert o == r;
      }
    }
  }

  lemma SectionKeepsNumbering(v: SectionView, text: string, st: Ids, firstId: int)
    requires WellNumbered(st, firstId)
    ensures WellNumbered(SectionOut(v, text, st, firstId).ids, firstId)
  {
    var (h, st1) := Header(v.section, text, st, firstId);
    if IsNumbered(v.section.name) {
      GetIdKeepsNumbering(st, firstId, v.section);
    } else {
      assert st1 == st;
    }
    BodyKeepsNumbering(v.attrs, h + NEWLINE, st1, firstId);
    assert SectionOut(v, text, st, firstId).ids == Body(v.attrs, h + NEWLINE, st1, firstId).ids;
  }

  /** A section never renumbers one written before, and a numbered section
      holds a number once written. */
  lemma SectionExtends(v: SectionView, text: string, st: Ids, firstId: int)
    ensures var o := SectionOut(v, text, st, firstId);
      Extends(st, o.ids) && (IsNumbered(v.section.name) ==> v.section in o.ids.ids)
  {
    var (h, st1) := Header(v.section, text, st, firstId);
    if IsNumbered(v.section.name) {
      GetIdSpec(st, firstId, v.section);
    } else {
      assert st1 == st;
    }
    BodyExtends(v.attrs, h + NEWLINE, st1, firstId);
    var b := Body(v.attrs, h + NEWLINE, st1, firstId);
    assert SectionOut(v, text, st, firstId).ids == b.ids;
    ExtendsTransitive(st, st1, b.ids);
  }

  /** Writing sections keeps the numbering invariant. */
  lemma {:induction false} SectionsKeepNumbering(ss: seq<SectionView>, text: string, st: Ids, firstId: int)
    requires WellNumbered(st, firstId)
    ensures WellNumbered(Sections(ss, text, st, firstId).ids, firstId)
  {
    if |ss| > 0 {
      var init := ss[..|ss| - 1];
      SectionsKeepNumbering(init, text, st, firstId);
      var r := Sections(init, text, st, firstId);
      var out := Sections(ss, text, st, firstId);
      if r.err.None? {
        var v := ss[|ss| - 1];
        SectionKeepsNumbering(v, r.text, r.ids, firstId);
        assert out.ids == SectionOut(v, r.text, r.ids, firstId).ids;
      } else {
        assert out == r;
      }
    }
  }

  /** Writing sections never renumbers a section, and leaves every numbered
      section it wrote with a number. */
  lemma {:induction false} SectionsExtend(ss: seq<SectionView>, text: string, st: Ids, firstId: int)
    ensures var o := Sections(ss, text, st, firstId);
      && Extends(st, o.ids)
      && (o.err.None? ==> forall i :: 0 <= i < |ss| && IsNumbered(ss[i].section.name) ==> ss[i].section in o.ids.ids)
  {
    if |ss| > 0 {
      var init := ss[..|ss| - 1];
      SectionsExtend(init, text, st, firstId);
      var r := Sections(init, text, st, firstId);
      var out := Sections(ss, text, st, firstId);
      if r.err.None? {
        var v := ss[|ss| - 1];
        SectionExtends(v, r.text, r.ids, firstId);
        var o := SectionOut(v, r.text, r.ids, firstId);
        assert out.ids == o.ids && out.err == o.err;
        ExtendsTransitive(st, r.ids, o.ids);
        if o.err.None? {
          forall i | 0 <= i < |ss| && IsNumbered(ss[i].section.name) ensures ss[i].section in o.ids.ids {
            if i < |init| {
              assert init[i] == ss[i];
              assert ss[i].section in r.ids.ids;
            }
          }
        }
      } else {
        assert out == r;
      }
    }
  }

  lemma ExtendsTransitive(a: Ids, b: Ids, c: Ids)
    requires Extends(a, b) && Extends(b, c)
    ensures Extends(a, c)
  {
  }

  /** SIF output in the form the sample `sif_file` of the solver test shows,
      apart from the type tag the writer always adds: an array attribute ... */
  lemma ArrAttrExample(st: Ids)
    ensures ArrAttr("Coordinate Mapping", [IntS(1), IntS(2), IntS(3)], "", st, 1).text
      == "Coordinate Mapping(3) = Integer 1 2 3"
  {
    var xs := [IntS(1), IntS(2), IntS(3)];
    assert forall i :: 1 <= i < |xs| ==> IsInstance(xs[i], IntK);
    assert ArrayType(xs) == Success(TYPE_INTEGER);
    assert TextUtil.IntToString(3) == "3";
    var head := "Coordinate Mapping(3) = Integer";
    assert "" + "Coordinate Mapping" + ("(" + TextUtil.IntToString(|xs|) + ")") + WHITESPACE + "=" + WHITESPACE + TYPE_INTEGER == head;
    ValuesTextInts(head, st);
    assert head + " 1" + " 2" + " 3" == "Coordinate Mapping(3) = Integer 1 2 3";
  }

  lemma ValuesTextInts(head: string, st: Ids)
    ensures ValuesText([IntS(1), IntS(2), IntS(3)], head, st, 1) == (head + " 1" + " 2" + " 3", st)
  {
    assert TextUtil.IntToString(1) == "1" && TextUtil.IntToString(2) == "2" && TextUtil.IntToString(3) == "3";
    var xs := [IntS(1), IntS(2), IntS(3)];
    assert xs[..2] == [IntS(1), IntS(2)] && xs[..2][..1] == [IntS(1)] && [IntS(1)][..0] == [];
    assert PlainText(IntS(1)) == "1" && PlainText(IntS(2)) == "2" && PlainText(IntS(3)) == "3";
    assert ValuesText([], head, st, 1) == (head, st);
    assert ValueText(IntS(1), st, 1) == (st, "1");
    assert head + WHITESPACE + "1" == head + " 1";
    assert ValuesText([IntS(1)], head, st, 1) == (head + " 1", st);
    assert ValueText(IntS(2), st, 1) == (st, "2") && ValueText(IntS(3), st, 1) == (st, "3");
    assert head + " 1" + WHITESPACE + "2" == head + " 1" + " 2";
    assert ValuesText([IntS(1), IntS(2)], head, st, 1) == (head + " 1" + " 2", st);
    assert head + " 1" + " 2" + WHITESPACE + "3" == head + " 1" + " 2" + " 3";
  }

  /** ... and a scalar one. */
  lemma ScalarAttrExample(st: Ids)
    ensures ScalarAttr("Use Mesh Names", BoolS(true), "", st, 1).text == "Use Mesh Names = Logical True"
  {
  }

  // ---------------------------------------------------------------------
  // The writer
  // ---------------------------------------------------------------------

  /** The output stream, seen as the text written to it so far. */
  class Stream {
    var text: string

    constructor ()
      ensures text == ""
    {
      text := "";
    }

    method Write(s: string)
      modifies this
      ensures text == old(text) + s
    {
      text := text + s;
    }
  }

  /** `_Writer`: renders sections to a stream, numbering through an id manager. */
  class Writer {
    const ids: IdManager
    const sections: seq<Section>
    const stream: Stream

    constructor (ids: IdManager, sections: seq<Section>, stream: Stream)
      ensures this.ids == ids && this.sections == sections && this.stream == stream
    {
      this.ids := ids;
      this.sections := sections;
      this.stream := stream;
    }

    /** `write`: every section followed by a newline, until the first error. */
    method Write() returns (err: Option<SifError>)
      modifies stream, ids
      ensures var o := Sections(old(Views(sections)), old(stream.text), old(ids.State()), ids.firstId);
        stream.text == o.text && ids.State() == o.ids && err == o.err
    {
      ghost var st0, t0, vs := ids.State(), stream.text, Views(sections);
      var i := 0;
      while i < |sections|
        invariant 0 <= i <= |sections|
        invariant var o := Sections(vs[..i], t0, st0, ids.firstId);
          o.err.None? && stream.text == o.text && ids.State() == o.ids
      {
        SectionsStep(vs[..i + 1], t0, st0, ids.firstId);
        assert vs[..i + 1][..i] == vs[..i];
        assert vs[i] == View(sections[i], sections[i].attrs);
        err := WriteSection(sections[i]);
        if err.Some? {
          SectionsStopAtError(vs, i + 1, t0, st0, ids.firstId);
          return;
        }
        stream.Write(NEWLINE);
        i := i + 1;
      }
      assert vs[..i] == vs;
      err := None;
    }

    method WriteSection(s: Section) returns (err: Option<SifError>)
      modifies stream, ids
      ensures var o := SectionOut(View(s, s.attrs), old(stream.text), old(ids.State()), ids.firstId);
        stream.text == o.text && ids.State() == o.ids && err == o.err
    {
      WriteSectionHeader(s);
      stream.Write(NEWLINE);
      err := WriteSectionBody(s);
      if err.Some? {
        return;
      }
      stream.Write(NEWLINE);
      WriteSectionFooter();
    }

    method WriteSectionHeader(s: Section)
      modifies stream, ids
      ensures (stream.text, ids.State()) == Header(s, old(stream.text), old(ids.State()), ids.firstId)
    {
      stream.Write(s.name);
      stream.Write(WHITESPACE);
      if IsNumbered(s.name) {
        var id := ids.GetId(s);
        stream.Write(TextUtil.IntToString(id));
      }
    }

    method WriteSectionFooter()
      modifies stream
      ensures stream.text == old(stream.text) + SECTION_DELIM
    {
      stream.Write(SECTION_DELIM);
    }

    method WriteSectionBody(s: Section) returns (err: Option<SifError>)
      modifies stream, ids
      ensures var o := Body(s.attrs, old(stream.text), old(ids.State()), ids.firstId);
        stream.text == o.text && ids.State() == o.ids && err == o.err
    {
      ghost var st0, t0 := ids.State(), stream.text;
      var i := 0;
      while i < |s.attrs|
        invariant 0 <= i <= |s.attrs|
        invariant var o := Body(s.attrs[..i], t0, st0, ids.firstId);
          o.err.None? && stream.text == o.text && ids.State() == o.ids
      {
        assert s.attrs[..i + 1][..i] == s.attrs[..i];
        var (key, data) := s.attrs[i];
        err := WriteAttribute(key, data);
        if err.Some? {
          BodyStopsAtError(s.attrs, i + 1, t0, st0, ids.firstId);
          return;
        }
        stream.Write(NEWLINE);
        i := i + 1;
      }
      assert s.attrs[..i] == s.attrs;
      err := None;
    }

    /** A section-valued attribute is written like a scalar: as the section's number. */
    method WriteAttribute(key: string, data: Value) returns (err: Option<SifError>)
      modifies stream, ids
      ensures var o := Attribute(key, data, old(stream.text), old(ids.State()), ids.firstId);
        stream.text == o.text && ids.State() == o.ids && err == o.err
    {
      match data
      case One(x) => err := WriteScalarAttr(key, x);
      case Many(xs) => err := WriteArrAttr(key, xs);
    }

    method WriteScalarAttr(key: string, x: Scalar) returns (err: Option<SifError>)
      modifies stream, ids
      ensures var o := ScalarAttr(key, x, old(stream.text), old(ids.State()), ids.firstId);
        stream.text == o.text && ids.State() == o.ids && err == o.err
    {
      var attrType := SifType(KindOf(x));
      if attrType.Failure? {
        return Some(attrType.error);
      }
      stream.Write(key);
      stream.Write(WHITESPACE);
      stream.Write("=");
      stream.Write(WHITESPACE);
      stream.Write(attrType.value);
      stream.Write(WHITESPACE);
      var v := Preprocess(x);
      stream.Write(v);
      err := None;
    }

    method WriteArrAttr(key: string, xs: seq<Scalar>) returns (err: Option<SifError>)
      modifies stream, ids
      ensures var o := ArrAttr(key, xs, old(stream.text), old(ids.State()), ids.firstId);
        stream.text == o.text && ids.State() == o.ids && err == o.err
    {
      var attrType := GetAttrTypeArr(xs);
      if attrType.Failure? {
        return Some(attrType.error);
      }
      stream.Write(key);
      stream.Write("(" + TextUtil.IntToString(|xs|) + ")");
      stream.Write(WHITESPACE);
      stream.Write("=");
      stream.Write(WHITESPACE);
      stream.Write(attrType.value);
      ghost var st0, t0 := ids.State(), stream.text;
      var i := 0;
      while i < |xs|
        invariant 0 <= i <= |xs|
        invariant (stream.text, ids.State()) == ValuesText(xs[..i], t0, st0, ids.firstId)
      {
        assert xs[..i + 1][..i] == xs[..i];
        stream.Write(WHITESPACE);
        var v := Preprocess(xs[i]);
        stream.Write(v);
        i := i + 1;
      }
      assert xs[..i] == xs;
      err := None;
    }

    method Preprocess(x: Scalar) returns (v: string)
      modifies ids
      ensures (ids.State(), v) == ValueText(x, old(ids.State()), ids.firstId)
    {
      if x.SectionS? {
        var id := ids.GetId(x.section);
        v := TextUtil.IntToString(id);
      } else {
        v := PlainText(x);
      }
    }

    /** `_getAttrTypeArr`: rejects an empty collection, then checks every
        later element against the type of the first. */
    method GetAttrTypeArr(xs: seq<Scalar>) returns (r: Result<string, SifError>)
      ensures r == ArrayType(xs)
    {
      if |xs| == 0 {
        return Failure(EmptyCollection);
      }
      var dataType := KindOf(xs[0]);
      var i := 1;
      while i < |xs|
        invariant 1 <= i <= |xs|
        invariant forall j :: 1 <= j < i ==> IsInstance(xs[j], dataType)
      {
        if !IsInstance(xs[i], dataType) {
          return Failure(InhomogeneousCollection);
        }
        i := i + 1;
      }
      r := SifType(dataType);
    }
  }

  /** `write(sections, stream)`: a fresh id manager numbering from 1. */
  method Write(sections: seq<Section>, stream: Stream) returns (err: Option<SifError>)
    modifies stream
    ensures var o := Sections(old(Views(sections)), old(stream.text), Ids(map[], map[]), 1);
      stream.text == o.text && err == o.err
  {
    var ids := new IdManager();
    var writer := new Writer(ids, sections, stream);
    err := writer.Write();
  }
}
