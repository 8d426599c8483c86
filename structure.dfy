/** The legacy `Structure` records: a class body's public data attributes
    become an ordered parameter map, merged with those of the base
    structures; instances work on their own copy of the map; members cannot
    be reassigned on the class (or, with the read-only mixin, on an
    instance); `TypedStructure` converts every value set to the type of the
    member's default. */
module Structures {
  import opened Wrappers
  import PyText

  // ------------------------------------------------------------ values

  /** The Python values a structure holds. A class is represented by the
      kind of value it makes. */
  datatype Value =
    | NoneV
    | IntV(i: int)
    | StrV(s: string)
    | BoolV(b: bool)
    | EnumV(enum: EnumDef, member: string)
    | StructV(def: StructDef, fields: seq<(string, Value)>)
    | DictV(items: seq<(string, Value)>)
    | ClassV(kind: Kind)

  /** The classes a default can name or be an instance of. */
  datatype Kind = IntK | StrK | BoolK | DictK | EnumK(e: EnumDef) | StructK(d: StructDef)

  /** An enumeration: its member names with their values, in order. */
  datatype EnumDef = EnumDef(enumName: string, members: seq<(string, Value)>)

  /** A structure class: its name and its parameter map of defaults. */
  datatype StructDef = StructDef(className: string, defaults: seq<(string, Value)>)

  // ------------------------------------------------------------ ordered maps

  /** A parameter map: a Python dict, keys in insertion order. */
  type Params = seq<(string, Value)>

  function Keys(p: Params): (ks: seq<string>)
    ensures |ks| == |p| && forall i :: 0 <= i < |p| ==> ks[i] == p[i].0
  {
    if p == [] then [] else [p[0].0] + Keys(p[1..])
  }

  predicate DistinctKeys(p: Params) {
    forall i, j :: 0 <= i < j < |p| ==> p[i].0 != p[j].0
  }

  /** `p[k]`, `None` for a missing key. */
  function Get(p: Params, k: string): (r: Option<Value>)
    ensures r.Some? <==> k in Keys(p)
  {
    if p == [] then None
    else if p[0].0 == k then Some(p[0].1)
    else Get(p[1..], k)
  }

  /** The first position of a key. */
  function IndexOf(p: Params, k: string): (i: nat)
    requires k in Keys(p)
    ensures i < |p| && p[i].0 == k && Get(p, k) == Some(p[i].1)
  {
    if p[0].0 == k then 0 else 1 + IndexOf(p[1..], k)
  }

  /** `p[k] = v`: an existing key keeps its place, a new one is appended. */
  function Put(p: Params, k: string, v: Value): (r: Params)
    ensures Get(r, k) == Some(v)
    ensures forall j :: j != k ==> Get(r, j) == Get(p, j)
    ensures k in Keys(p) ==> Keys(r) == Keys(p)
    ensures k !in Keys(p) ==> Keys(r) == Keys(p) + [k]
  {
    if p == [] then [(k, v)]
    else if p[0].0 == k then
      var r := [(k, v)] + p[1..];
      assert r[1..] == p[1..];
      r
    else
      var rest := Put(p[1..], k, v);
      var r := [p[0]] + rest;
      assert r[0] == p[0] && r[1..] == rest;
      assert Keys(r) == [p[0].0] + Keys(rest) && Keys(p) == [p[0].0] + Keys(p[1..]);
      assert k !in Keys(p[1..]) ==> [p[0].0] + (Keys(p[1..]) + [k]) == Keys(p) + [k];
      r
  }

  /** `p[k] = v` keeps the keys free of duplicates. */
  lemma {:induction false} PutDistinct(p: Params, k: string, v: Value)
    ensures DistinctKeys(p) ==> DistinctKeys(Put(p, k, v))
    decreases |p|
  {
    if p == [] || !DistinctKeys(p) {
    } else if p[0].0 == k {
      var r := Put(p, k, v);
      assert forall i :: 0 <= i < |r| ==> r[i].0 == p[i].0 by {
        assert r == [(k, v)] + p[1..];
      }
    } else {
      DistinctTail(p);
      PutDistinct(p[1..], k, v);
      DistinctCons(p[0], Put(p[1..], k, v));
      assert Put(p, k, v) == [p[0]] + Put(p[1..], k, v);
    }
  }

  /** Without its first entry a map free of duplicates stays free of them
      and no longer has the first key. */
  lemma DistinctTail(p: Params)
    requires p != [] && DistinctKeys(p)
    ensures DistinctKeys(p[1..]) && p[0].0 !in Keys(p[1..])
  {
    var tail := p[1..];
    forall i, j | 0 <= i < j < |tail| ensures tail[i].0 != tail[j].0 {
      assert tail[i].0 == p[i + 1].0 && tail[j].0 == p[j + 1].0;
    }
    forall i | 0 <= i < |tail| ensures Keys(tail)[i] != p[0].0 {
      assert tail[i].0 == p[i + 1].0;
    }
  }


  /** `p.update(q)`. */
  function UpdateAll(p: Params, q: Params): (r: Params)
    ensures DistinctKeys(p) ==> DistinctKeys(r)
    decreases q
  {
    if q == [] then p
    else
      PutDistinct(p, q[0].0, q[0].1);
      UpdateAll(Put(p, q[0].0, q[0].1), q[1..])
  }

  /** After `p.update(q)` a key has its value from q when q has it, else
      from p. */
  lemma {:induction false} UpdateAllGet(p: Params, q: Params, k: string)
    requires DistinctKeys(q)
    ensures Get(UpdateAll(p, q), k) == if k in Keys(q) then Get(q, k) else Get(p, k)
    decreases q
  {
    if q != [] {
      assert Keys(q) == [q[0].0] + Keys(q[1..]);
      UpdateAllGet(Put(p, q[0].0, q[0].1), q[1..], k);
    }
  }

  // ------------------------------------------------------------ member collection

  /** What a class body binds a name to. */
  datatype Attr = DataA(v: Value) | FunctionA | PropertyA | ClassMethodA | StaticMethodA

  /** A member: a name not starting with `_` bound to data, not to a
      function, property, class method or static method. */
  predicate IsMember(name: string, a: Attr) {
    !(|name| > 0 && name[0] == '_') && a.DataA?
  }

  /** The members of a class body, in its order. */
  function PublicData(body: seq<(string, Attr)>): (r: Params)
    ensures |r| <= |body|
  {
    if body == [] then []
    else
      var rest := PublicData(body[1..]);
      if IsMember(body[0].0, body[0].1) then [(body[0].0, body[0].1.v)] + rest else rest
  }

  /** The names a class body binds, in its order. */
  function Names(body: seq<(string, Attr)>): (ns: seq<string>)
    ensures |ns| == |body| && forall i :: 0 <= i < |body| ==> ns[i] == body[i].0
  {
    if body == [] then [] else [body[0].0] + Names(body[1..])
  }

  /** The value a class body binds a member name to, if it does. */
  function MemberValue(body: seq<(string, Attr)>, k: string): Option<Value> {
    if body == [] then None
    else if body[0].0 == k && IsMember(k, body[0].1) then Some(body[0].1.v)
    else if body[0].0 == k then None
    else MemberValue(body[1..], k)
  }

  /** A map is free of duplicates when its first key is not repeated and
      the rest is free of them. */
  lemma DistinctCons(x: (string, Value), rest: Params)
    requires x.0 !in Keys(rest) && DistinctKeys(rest)
    ensures DistinctKeys([x] + rest)
  {
    var p := [x] + rest;
    forall i, j | 0 <= i < j < |p| ensures p[i].0 != p[j].0 {
      assert p[j] == rest[j - 1];
      if i > 0 {
        assert p[i] == rest[i - 1];
      } else {
        assert Keys(rest)[j - 1] == rest[j - 1].0;
      }
    }
  }

  /** The members of a body are among its names, without repetition when
      the names are distinct, and each has the value the body binds. */
  lemma {:induction false} PublicDataGet(body: seq<(string, Attr)>, k: string)
    requires forall i, j :: 0 <= i < j < |body| ==> body[i].0 != body[j].0
    ensures forall n :: n in Keys(PublicData(body)) ==> n in Names(body)
    ensures DistinctKeys(PublicData(body))
    ensures Get(PublicData(body), k) == MemberValue(body, k)
  {
    if body != [] {
      var rest := PublicData(body[1..]);
      assert forall i, j :: 0 <= i < j < |body[1..]| ==> body[1..][i].0 != body[1..][j].0 by {
        forall i, j | 0 <= i < j < |body[1..]| ensures body[1..][i].0 != body[1..][j].0 {
          assert body[1..][i] == body[i + 1] && body[1..][j] == body[j + 1];
        }
      }
      PublicDataGet(body[1..], k);
      assert body[0].0 !in Names(body[1..]);
      assert Names(body) == [body[0].0] + Names(body[1..]);
      if IsMember(body[0].0, body[0].1) {
        var p := [(body[0].0, body[0].1.v)] + rest;
        assert p[1..] == rest;
        DistinctCons((body[0].0, body[0].1.v), rest);
        if body[0].0 != k {
          assert Get(p, k) == Get(rest, k);
        }
      } else if body[0].0 == k {
        assert k !in Keys(rest);
      }
    }
  }

  /** The parameter maps of the structure bases merged in order, later
      bases overriding earlier ones. */
  function MergeBases(bases: seq<Params>): (r: Params)
    ensures (forall i :: 0 <= i < |bases| ==> DistinctKeys(bases[i])) ==> DistinctKeys(r)
  {
    if bases == [] then [] else UpdateAll(MergeBases(bases[..|bases| - 1]), bases[|bases| - 1])
  }

  /** The value of a name in the last base that has it. */
  function LastBaseValue(bases: seq<Params>, k: string): Option<Value> {
    if bases == [] then None
    else if Get(bases[|bases| - 1], k).Some? then Get(bases[|bases| - 1], k)
    else LastBaseValue(bases[..|bases| - 1], k)
  }

  lemma {:induction false} MergeBasesGet(bases: seq<Params>, k: string)
    requires forall i :: 0 <= i < |bases| ==> DistinctKeys(bases[i])
    ensures Get(MergeBases(bases), k) == LastBaseValue(bases, k)
  {
    if bases != [] {
      MergeBasesGet(bases[..|bases| - 1], k);
      UpdateAllGet(MergeBases(bases[..|bases| - 1]), bases[|bases| - 1], k);
    }
  }

  /** The base classes of the library itself collect no members. */
  predicate IsLibraryBase(name: string) {
    name == "Structure" || name == "TypedStructure" || name == "NestedStructure"
  }

  /** `_StructureMeta.__new__`: the merged members of the structure bases,
      updated with the members of the class body. */
  function CollectMembers(name: string, bases: seq<Params>, body: seq<(string, Attr)>): (r: Params)
    ensures IsLibraryBase(name) ==> r == []
  {
    if IsLibraryBase(name) then [] else UpdateAll(MergeBases(bases), PublicData(body))
  }

  /** A class's members: a member of its own body takes the body's value;
      any other name takes its value from the last base that has it; a
      private name or a callable of the body is no member unless a base
      has it. */
  lemma MemberRule(name: string, bases: seq<Params>, body: seq<(string, Attr)>, k: string)
    requires !IsLibraryBase(name)
    requires forall i :: 0 <= i < |bases| ==> DistinctKeys(bases[i])
    requires forall i, j :: 0 <= i < j < |body| ==> body[i].0 != body[j].0
    ensures DistinctKeys(CollectMembers(name, bases, body))
    ensures MemberValue(body, k).Some? ==> Get(CollectMembers(name, bases, body), k) == MemberValue(body, k)
    ensures MemberValue(body, k).None? ==> Get(CollectMembers(name, bases, body), k) == LastBaseValue(bases, k)
  {
    PublicDataGet(body, k);
    UpdateAllGet(MergeBases(bases), PublicData(body), k);
    MergeBasesGet(bases, k);
  }

  // ------------------------------------------------------------ classes and instances

  /** A structure class: its members and its other attributes. */
  class StructureClass {
    const name: string
    var params: Params
    var others: map<string, Value>

    constructor (name: string, bases: seq<Params>, body: seq<(string, Attr)>)
      ensures this.name == name && params == CollectMembers(name, bases, body) && others == map[]
    {
      this.name := name;
      params := CollectMembers(name, bases, body);
      others := map[];
    }

    /** `cls.name`: a member, else another attribute. */
    function GetAttr(n: string): (r: Result<Value>)
      reads this
      ensures n in Keys(params) ==> r == Ok(Get(params, n).value)
      ensures n !in Keys(params) ==> (r.Ok? <==> n in others)
    {
      if n in Keys(params) then Ok(Get(params, n).value)
      else if n in others then Ok(others[n])
      else Err(AttributeError)
    }

    /** `cls.name = value`: a member cannot be reassigned. */
    method SetAttr(n: string, v: Value) returns (r: Result<()>)
      modifies this
      ensures params == old(params)
      ensures r.Err? <==> n in Keys(params)
      ensures r.Err? ==> r.error == AttributeError && others == old(others)
      ensures r.Ok? ==> others == old(others)[n := v]
    {
      if n in Keys(params) {
        return Err(AttributeError);
      }
      others := others[n := v];
      return Ok(());
    }

    /** `del cls.name`: a member cannot be deleted; a missing attribute
        cannot either. */
    method DelAttr(n: string) returns (r: Result<()>)
      modifies this
      ensures params == old(params)
      ensures r.Err? <==> n in Keys(params) || n !in old(others)
      ensures r.Err? ==> r.error == AttributeError && others == old(others)
      ensures r.Ok? ==> others == old(others) - {n}
    {
      if n in Keys(params) || n !in others {
        return Err(AttributeError);
      }
      others := others - {n};
      return Ok(());
    }
  }

  /** A structure instance, with the read-only mixin or without it. */
  class Instance {
    const cls: StructureClass
    const readOnly: bool
    var params: Params
    var others: map<string, Value>

    /** `Structure.__new__`: the instance starts on a copy of the class's
        map. */
    constructor (c: StructureClass, readOnly: bool)
      ensures cls == c && this.readOnly == readOnly
      ensures params == c.params && others == map[]
    {
      cls := c;
      this.readOnly := readOnly;
      params := c.params;
      others := map[];
    }

    /** `instance.name`: members come from the instance's own map. */
    function GetAttr(n: string): (r: Result<Value>)
      reads this, cls
      ensures n in Keys(cls.params) && Get(params, n).Some? ==> r == Ok(Get(params, n).value)
      ensures n !in Keys(cls.params) ==> (r.Ok? <==> n in others)
    {
      if n in Keys(cls.params) then
        (if Get(params, n).Some? then Ok(Get(params, n).value) else Err(KeyError))
      else if n in others then Ok(others[n])
      else Err(AttributeError)
    }

    /** `instance.name = value`: a member is written to the instance's own
        map (read-only instances refuse it); the class's map never
        changes. */
    method SetAttr(n: string, v: Value) returns (r: Result<()>)
      modifies this
      ensures cls.params == old(cls.params)
      ensures r.Err? <==> readOnly && n in Keys(cls.params)
      ensures r.Err? ==> r.error == AttributeError && params == old(params) && others == old(others)
      ensures r.Ok? && n in Keys(cls.params) ==> params == Put(old(params), n, v) && others == old(others)
      ensures r.Ok? && n !in Keys(cls.params) ==> params == old(params) && others == old(others)[n := v]
    {
      if n in Keys(cls.params) {
        if readOnly {
          return Err(AttributeError);
        }
        params := Put(params, n, v);
      } else {
        others := others[n := v];
      }
      return Ok(());
    }
  }

  /** A write through one instance changes neither the class nor another
      instance of it. */
  method InstancesAreIndependent(c: StructureClass, n: string, v: Value)
    returns (first: Instance, second: Instance)
    requires n in Keys(c.params) && DistinctKeys(c.params)
    ensures c.params == old(c.params)
    ensures first.GetAttr(n) == Ok(v)
    ensures second.GetAttr(n) == Ok(Get(c.params, n).value)
  {
    first := new Instance(c, false);
    second := new Instance(c, false);
    var r := first.SetAttr(n, v);
  }

  // ------------------------------------------------------------ raw dict

  /** A value as `as_raw_dict` leaves it: a structure becomes the dict of
      its own raw values, anything else is kept. */
  function RawValue(v: Value): (r: Value)
    ensures !r.StructV?
    ensures !v.StructV? ==> r == v
  {
    if v.StructV? then
      DictV(seq(|v.fields|, i requires 0 <= i < |v.fields| => (v.fields[i].0, RawValue(v.fields[i].1))))
    else v
  }

  /** `as_raw_dict`: a copy of the map with every structure value replaced
      by its raw dict. */
  function RawDict(p: Params): (r: Params)
    ensures Keys(r) == Keys(p)
  {
    seq(|p|, i requires 0 <= i < |p| => (p[i].0, RawValue(p[i].1)))
  }

  /** The raw dict keeps the names and their order, keeps every value that
      is not a structure, turns each structure into the raw dict of its
      fields, and leaves no structure among its values. */
  lemma RawDictValues(p: Params)
    ensures Keys(RawDict(p)) == Keys(p)
    ensures forall i :: 0 <= i < |p| ==> !RawDict(p)[i].1.StructV?
    ensures forall i :: 0 <= i < |p| && p[i].1.StructV? ==>
      RawDict(p)[i].1 == DictV(RawDict(p[i].1.fields))
    ensures forall i :: 0 <= i < |p| && !p[i].1.StructV? ==> RawDict(p)[i].1 == p[i].1
  {
  }

  /** A map without structure values is its own raw dict. */
  lemma RawDictFlat(p: Params)
    requires forall i :: 0 <= i < |p| ==> !p[i].1.StructV?
    ensures RawDict(p) == p
  {
  }

  // ------------------------------------------------------------ typed set

  /** `_default_types_`: the class of a (non-None) default, or the default
      itself when it is a class. */
  function KindOf(v: Value): (k: Kind)
    requires !v.NoneV?
    ensures v.ClassV? ==> k == v.kind
    ensures v.StructV? ==> k == StructK(v.def)
    ensures v.EnumV? ==> k == EnumK(v.enum)
  {
    match v
    case IntV(_) => IntK
    case StrV(_) => StrK
    case BoolV(_) => BoolK
    case EnumV(e, _) => EnumK(e)
    case StructV(d, _) => StructK(d)
    case DictV(_) => DictK
    case ClassV(k) => k
  }

  /** `int(value)`. */
  function CastInt(v: Value): (r: Result<Value>)
    ensures r.Ok? ==> r.value.IntV?
    ensures v.IntV? ==> r == Ok(v)
    ensures v.StrV? ==> (r.Ok? <==> PyText.ParseInt(v.s, 10).Some?)
  {
    match v
    case IntV(_) => Ok(v)
    case BoolV(b) => Ok(IntV(if b then 1 else 0))
    case StrV(s) =>
      (match PyText.ParseInt(s, 10)
       case Some(i) => Ok(IntV(i))
       case None => Err(ValueError))
    case _ => Err(TypeError)
  }

  /** `str(value)` for the values whose text is not an object repr. */
  function CastStr(v: Value): (r: Result<Value>)
    ensures r.Ok? ==> r.value.StrV?
    ensures v.StrV? ==> r == Ok(v)
    ensures v.IntV? ==> r == Ok(StrV(PyText.IntToString(v.i)))
  {
    match v
    case StrV(_) => Ok(v)
    case IntV(i) => Ok(StrV(PyText.IntToString(i)))
    case BoolV(b) => Ok(StrV(if b then "True" else "False"))
    case NoneV => Ok(StrV("None"))
    case _ => Err(TypeError)
  }

  /** `bool(value)`: Python truthiness. */
  function CastBool(v: Value): (r: Value)
    ensures r.BoolV?
    ensures v.BoolV? ==> r == v
  {
    match v
    case NoneV => BoolV(false)
    case IntV(i) => BoolV(i != 0)
    case StrV(s) => BoolV(s != "")
    case BoolV(_) => v
    case DictV(items) => BoolV(items != [])
    case _ => BoolV(true)
  }

  /** `dict(value)`: a structure (instance or class) iterates over its
      items. */
  function CastDict(v: Value): (r: Result<Value>)
    ensures r.Ok? ==> r.value.DictV?
    ensures v.DictV? ==> r == Ok(v)
    ensures v.StructV? ==> r == Ok(DictV(v.fields))
  {
    match v
    case DictV(_) => Ok(v)
    case StructV(_, fields) => Ok(DictV(fields))
    case ClassV(StructK(d)) => Ok(DictV(d.defaults))
    case StrV(s) => if s == "" then Ok(DictV([])) else Err(ValueError)
    case _ => Err(TypeError)
  }

  /** The position of the first member whose value is the given value. */
  function ByValue(members: Params, v: Value): (r: Option<nat>)
    ensures r.Some? ==> r.value < |members| && members[r.value].1 == v
    ensures r.Some? ==> forall j :: 0 <= j < r.value ==> members[j].1 != v
    ensures r.None? ==> forall i :: 0 <= i < |members| ==> members[i].1 != v
  {
    if members == [] then None
    else if members[0].1 == v then Some(0)
    else
      match ByValue(members[1..], v)
      case None => None
      case Some(i) => Some(i + 1)
  }

  /** `E(value)`, and on ValueError `E[value]`: a member of the enumeration
      is kept, a value is looked up by value first and then by name, and
      anything else raises KeyError. */
  function CastEnum(e: EnumDef, v: Value): (r: Result<Value>)
    ensures r.Ok? ==> r.value.EnumV? && r.value.enum == e && r.value.member in Keys(e.members)
    ensures v.EnumV? && v.enum == e && v.member in Keys(e.members) ==> r == Ok(v)
    ensures !(v.EnumV? && v.enum == e) && ByValue(e.members, v).Some? ==>
      r == Ok(EnumV(e, e.members[ByValue(e.members, v).value].0))
    ensures !(v.EnumV? && v.enum == e) && ByValue(e.members, v).None? ==>
      (r.Ok? <==> v.StrV? && v.s in Keys(e.members))
    ensures r.Err? ==> r.error == KeyError
  {
    if v.EnumV? && v.enum == e && v.member in Keys(e.members) then Ok(v)
    else
      match ByValue(e.members, v)
      case Some(i) => Ok(EnumV(e, e.members[i].0))
      case None =>
        if v.StrV? && v.s in Keys(e.members) then Ok(EnumV(e, v.s)) else Err(KeyError)
  }

  /** `TypedStructure.__set_value` for the default of the member: a None
      default stores the value as is, a structure default keeps an
      instance of its class and builds one from a dict, an enumeration
      default looks the value up, and any other default casts to its
      type. */
  function SetValue(default: Value, v: Value): (r: Result<Value>)
    ensures default.NoneV? ==> r == Ok(v)
    decreases default, 0, 0
  {
    if default.NoneV? then Ok(v)
    else if default.StructV? then SetStruct(default.def, v)
    else if default.ClassV? && default.kind.StructK? then SetStruct(default.kind.d, v)
    else
      match KindOf(default)
      case IntK => CastInt(v)
      case StrK => CastStr(v)
      case BoolK => Ok(CastBool(v))
      case DictK => CastDict(v)
      case EnumK(e) => CastEnum(e, v)
  }

  /** A structure default: an instance of the class is kept, a dict is
      passed as keyword arguments to the class, anything else raises. */
  function SetStruct(d: StructDef, v: Value): (r: Result<Value>)
    ensures r.Ok? ==> r.value.StructV? && r.value.def == d
    ensures v.StructV? && v.def == d ==> r == Ok(v)
    decreases d, 1, 0
  {
    if v.StructV? && v.def == d then Ok(v)
    else if v.DictV? then
      match ApplyKwargs(d, d.defaults, v.items)
      case Err(e) => Err(e)
      case Ok(fields) => Ok(StructV(d, fields))
    else Err(TypeError)
  }

  /** One keyword argument of `TypedStructure.__new__`: a member is set
      through `SetValue` with the member's default, any other name is
      ignored. */
  function SetKnown(d: StructDef, fields: Params, kv: (string, Value)): (r: Result<Params>)
    ensures kv.0 !in Keys(d.defaults) ==> r == Ok(fields)
    decreases d, 0, 0
  {
    if kv.0 in Keys(d.defaults) then
      var i := IndexOf(d.defaults, kv.0);
      match SetValue(d.defaults[i].1, kv.1)
      case Err(e) => Err(e)
      case Ok(w) => Ok(Put(fields, kv.0, w))
    else Ok(fields)
  }

  /** The keyword arguments of `TypedStructure.__new__`, in order. */
  function ApplyKwargs(d: StructDef, fields: Params, kwargs: seq<(string, Value)>): (r: Result<Params>)
    decreases d, 0, |kwargs| + 1
  {
    if kwargs == [] then Ok(fields)
    else
      match ApplyKwargs(d, fields, kwargs[..|kwargs| - 1])
      case Err(e) => Err(e)
      case Ok(f) => SetKnown(d, f, kwargs[|kwargs| - 1])
  }

  /** Setting a value twice is setting it once: what `SetValue` stores
      already has the member's type. */
  lemma SetValueIdempotent(default: Value, v: Value)
    requires SetValue(default, v).Ok?
    ensures SetValue(default, SetValue(default, v).value) == SetValue(default, v)
  {
  }

  /** Keyword arguments keep the member names and their order, whatever
      names they carry. */
  lemma {:induction false} ApplyKwargsKeys(d: StructDef, fields: Params, kwargs: seq<(string, Value)>)
    requires Keys(fields) == Keys(d.defaults)
    requires ApplyKwargs(d, fields, kwargs).Ok?
    ensures Keys(ApplyKwargs(d, fields, kwargs).value) == Keys(d.defaults)
  {
    if kwargs != [] {
      ApplyKwargsKeys(d, fields, kwargs[..|kwargs| - 1]);
    }
  }

  /** The keyword arguments that name members. */
  function KnownKwargs(d: StructDef, kwargs: seq<(string, Value)>): (r: seq<(string, Value)>)
    ensures forall i :: 0 <= i < |r| ==> r[i].0 in Keys(d.defaults)
  {
    if kwargs == [] then []
    else
      var front := KnownKwargs(d, kwargs[..|kwargs| - 1]);
      if kwargs[|kwargs| - 1].0 in Keys(d.defaults) then front + [kwargs[|kwargs| - 1]] else front
  }

  /** Keyword arguments naming no member are ignored. */
  lemma {:induction false} UnknownKwargsIgnored(d: StructDef, fields: Params, kwargs: seq<(string, Value)>)
    ensures ApplyKwargs(d, fields, kwargs) == ApplyKwargs(d, fields, KnownKwargs(d, kwargs))
  {
    if kwargs != [] {
      var front := kwargs[..|kwargs| - 1];
      var last := kwargs[|kwargs| - 1];
      UnknownKwargsIgnored(d, fields, front);
      if last.0 in Keys(d.defaults) {
        var known := KnownKwargs(d, front) + [last];
        assert known[..|known| - 1] == KnownKwargs(d, front);
      }
    }
  }

  /** An instance of a typed structure. */
  class TypedInstance {
    const def: StructDef
    var fields: Params
    var others: map<string, Value>

    /** The instance starts on a copy of the class's defaults. */
    constructor (d: StructDef)
      ensures def == d && fields == d.defaults && others == map[]
    {
      def := d;
      fields := d.defaults;
      others := map[];
    }

    /** The keyword-argument loop of `TypedStructure.__new__`. A failing
        conversion raises out of `__new__`, so the instance is dropped; here
        it keeps its fields. */
    method Apply(kwargs: seq<(string, Value)>) returns (r: Result<()>)
      modifies this
      ensures others == old(others)
      ensures r.Ok? <==> ApplyKwargs(def, old(fields), kwargs).Ok?
      ensures r.Ok? ==> fields == ApplyKwargs(def, old(fields), kwargs).value
      ensures r.Err? ==> fields == old(fields) && r.error == ApplyKwargs(def, old(fields), kwargs).error
    {
      var current := fields;
      for i := 0 to |kwargs|
        invariant ApplyKwargs(def, fields, kwargs[..i]) == Ok(current)
      {
        assert kwargs[..i + 1][..i] == kwargs[..i];
        var step := SetKnown(def, current, kwargs[i]);
        if step.Err? {
          ApplyErrorPersists(def, fields, kwargs, i + 1);
          return Err(step.error);
        }
        current := step.value;
      }
      assert kwargs[..|kwargs|] == kwargs;
      fields := current;
      return Ok(());
    }

    /** `TypedStructure.__setattr__`: a member goes through the typed set,
        any other name is a plain attribute. */
    method SetAttr(n: string, v: Value) returns (r: Result<()>)
      modifies this
      ensures n !in Keys(def.defaults) ==> r == Ok(()) && fields == old(fields) && others == old(others)[n := v]
      ensures n in Keys(def.defaults) ==>
        && others == old(others)
        && (r.Ok? <==> SetValue(Get(def.defaults, n).value, v).Ok?)
        && (r.Ok? ==> fields == Put(old(fields), n, SetValue(Get(def.defaults, n).value, v).value))
        && (r.Err? ==> fields == old(fields))
    {
      if n !in Keys(def.defaults) {
        others := others[n := v];
        return Ok(());
      }
      var w := SetValue(def.defaults[IndexOf(def.defaults, n)].1, v);
      if w.Err? {
        return Err(w.error);
      }
      fields := Put(fields, n, w.value);
      return Ok(());
    }
  }

  /** Once a keyword argument fails, the whole application fails with its
      error. */
  lemma {:induction false} ApplyErrorPersists(d: StructDef, fields: Params, kwargs: seq<(string, Value)>, i: nat)
    requires i <= |kwargs| && ApplyKwargs(d, fields, kwargs[..i]).Err?
    ensures ApplyKwargs(d, fields, kwargs) == ApplyKwargs(d, fields, kwargs[..i])
    decreases |kwargs| - i
  {
    if i < |kwargs| {
      assert kwargs[..i + 1][..i] == kwargs[..i];
      ApplyErrorPersists(d, fields, kwargs, i + 1);
    } else {
      assert kwargs[..i] == kwargs;
    }
  }
}
