/** The recursive conversion of validation errors to JSON-safe values. */
module Sanitiser {
  import opened Prelude

  type Byte = b: int | 0 <= b < 256

  datatype Key = Text(text: string) | Raw(bytes: seq<Byte>) | OtherKey(id: int)

  /** Python values, as far as the conversion tells them apart. A set is listed in
      its iteration order; a model carries what `model_dump` gives for it. */
  datatype Value =
    | Atom(id: int)
    | Str(text: string)
    | Bytes(bytes: seq<Byte>)
    | Dict(keys: seq<Key>, values: seq<Value>)
    | List(items: seq<Value>)
    | Tuple(items: seq<Value>)
    | Set(items: seq<Value>)
    | Model(dump: Value)

  /** What the conversion calls: decoding with replacement, and sorting, which may
      refuse values that do not compare. */
  datatype Runtime = Runtime(decode: seq<Byte> -> string, sorted: seq<Value> -> Option<seq<Value>>)

  /** Sorting returns the same values in some order. */
  ghost predicate SortsPermute(rt: Runtime) {
    forall vs :: rt.sorted(vs).Some? ==> multiset(rt.sorted(vs).value) == multiset(vs)
  }

  /** No result means that sorting raised. */
  function Safe(rt: Runtime, v: Value): Option<Value>
    decreases v, 1
  {
    match v
    case Atom(_) => Some(v)
    case Str(_) => Some(v)
    case Bytes(b) => Some(Str(rt.decode(b)))
    case Dict(keys, values) =>
      var r := SafeAll(rt, values);
      if r.Some? then Some(Dict(keys, r.value)) else None
    case List(items) =>
      var r := SafeAll(rt, items);
      if r.Some? then Some(List(r.value)) else None
    case Tuple(items) =>
      var r := SafeAll(rt, items);
      if r.Some? then Some(Tuple(r.value)) else None
    case Set(items) =>
      var r := SafeAll(rt, items);
      if r.None? then None
      else if rt.sorted(r.value).Some? then Some(List(rt.sorted(r.value).value)) else None
    case Model(dump) => Some(dump)
  }

  function SafeAll(rt: Runtime, vs: seq<Value>): Option<seq<Value>>
    decreases vs, 0
  {
    if vs == [] then Some([])
    else
      var head, tail := Safe(rt, vs[0]), SafeAll(rt, vs[1..]);
      if head.Some? && tail.Some? then Some([head.value] + tail.value) else None
  }

  /** JSON-safe at every depth: no bytes, sets or models in a value position. Keys
      are not looked at. */
  predicate Clean(v: Value)
    decreases v, 1
  {
    match v
    case Atom(_) => true
    case Str(_) => true
    case Bytes(_) => false
    case Dict(_, values) => AllClean(values)
    case List(items) => AllClean(items)
    case Tuple(items) => AllClean(items)
    case Set(_) => false
    case Model(_) => false
  }

  predicate AllClean(vs: seq<Value>)
    decreases vs, 0
  {
    vs == [] || (Clean(vs[0]) && AllClean(vs[1..]))
  }

  /** Every model in the value dumps to clean JSON, as `mode="json"` promises. */
  predicate ModelsDumpClean(v: Value)
    decreases v, 1
  {
    match v
    case Dict(_, values) => AllModelsDumpClean(values)
    case List(items) => AllModelsDumpClean(items)
    case Tuple(items) => AllModelsDumpClean(items)
    case Set(items) => AllModelsDumpClean(items)
    case Model(dump) => Clean(dump)
    case _ => true
  }

  predicate AllModelsDumpClean(vs: seq<Value>)
    decreases vs, 0
  {
    vs == [] || (ModelsDumpClean(vs[0]) && AllModelsDumpClean(vs[1..]))
  }

  lemma {:induction false} AllCleanIff(vs: seq<Value>)
    ensures AllClean(vs) <==> forall v :: v in vs ==> Clean(v)
  {
    if vs != [] {
      AllCleanIff(vs[1..]);
      if forall v :: v in vs ==> Clean(v) {
        assert vs[0] in vs;
        forall v | v in vs[1..]
          ensures Clean(v)
        {
          assert v in vs;
        }
      }
    }
  }

  /** Main result: whatever comes out is clean at every depth. */
  lemma {:induction false} SafeIsClean(rt: Runtime, v: Value)
    requires SortsPermute(rt) && ModelsDumpClean(v)
    ensures Safe(rt, v).Some? ==> Clean(Safe(rt, v).value)
    decreases v, 1
  {
    match v {
      case Dict(_, values) => SafeAllIsClean(rt, values);
      case List(items) => SafeAllIsClean(rt, items);
      case Tuple(items) => SafeAllIsClean(rt, items);
      case Set(items) =>
        SafeAllIsClean(rt, items);
        var r := SafeAll(rt, items);
        if r.Some? && rt.sorted(r.value).Some? {
          var s := rt.sorted(r.value).value;
          AllCleanIff(r.value);
          AllCleanIff(s);
          assert forall x :: x in s ==> x in multiset(s);
        }
      case _ =>
    }
  }

  lemma {:induction false} SafeAllIsClean(rt: Runtime, vs: seq<Value>)
    requires SortsPermute(rt) && AllModelsDumpClean(vs)
    ensures SafeAll(rt, vs).Some? ==> AllClean(SafeAll(rt, vs).value)
    decreases vs, 0
  {
    if vs != [] {
      SafeIsClean(rt, vs[0]);
      SafeAllIsClean(rt, vs[1..]);
      if SafeAll(rt, vs).Some? {
        assert SafeAll(rt, vs).value[1..] == SafeAll(rt, vs[1..]).value;
      }
    }
  }

  /** A clean value is returned as it is. */
  lemma {:induction false} CleanIsFixed(rt: Runtime, v: Value)
    requires Clean(v)
    ensures Safe(rt, v) == Some(v)
    decreases v, 1
  {
    match v {
      case Dict(_, values) => AllCleanFixed(rt, values);
      case List(items) => AllCleanFixed(rt, items);
      case Tuple(items) => AllCleanFixed(rt, items);
      case _ =>
    }
  }

  lemma {:induction false} AllCleanFixed(rt: Runtime, vs: seq<Value>)
    requires AllClean(vs)
    ensures SafeAll(rt, vs) == Some(vs)
    decreases vs, 0
  {
    if vs != [] {
      CleanIsFixed(rt, vs[0]);
      AllCleanFixed(rt, vs[1..]);
      assert vs == [vs[0]] + vs[1..];
    }
  }

  /** Converting twice is converting once. */
  lemma SafeIsIdempotent(rt: Runtime, v: Value)
    requires SortsPermute(rt) && ModelsDumpClean(v) && Safe(rt, v).Some?
    ensures Safe(rt, Safe(rt, v).value) == Safe(rt, v)
  {
    SafeIsClean(rt, v);
    CleanIsFixed(rt, Safe(rt, v).value);
  }

  /** Exactly the clean values are fixed. */
  lemma FixedIffClean(rt: Runtime, v: Value)
    requires SortsPermute(rt) && ModelsDumpClean(v)
    ensures Safe(rt, v) == Some(v) <==> Clean(v)
  {
    SafeIsClean(rt, v);
    if Clean(v) {
      CleanIsFixed(rt, v);
    }
  }

  /** `r` has the shape of `v` at every depth: the kind of each container, its length
      and its keys in order. A set may become a list in any order of its converted
      members, and a model is what it dumps to. */
  predicate Keeps(rt: Runtime, v: Value, r: Value)
    decreases v, 1
  {
    match v
    case Dict(keys, values) => r.Dict? && r.keys == keys && AllKeep(rt, values, r.values)
    case List(items) => r.List? && AllKeep(rt, items, r.items)
    case Tuple(items) => r.Tuple? && AllKeep(rt, items, r.items)
    case Set(items) =>
      var converted := SafeAll(rt, items);
      converted.Some? && AllKeep(rt, items, converted.value)
      && r.List? && rt.sorted(converted.value) == Some(r.items) && multiset(r.items) == multiset(converted.value)
    case Model(dump) => r == dump
    case Bytes(b) => r == Str(rt.decode(b))
    case _ => r == v
  }

  predicate AllKeep(rt: Runtime, vs: seq<Value>, rs: seq<Value>)
    decreases vs, 0
  {
    |vs| == |rs| && (vs == [] || (Keeps(rt, vs[0], rs[0]) && AllKeep(rt, vs[1..], rs[1..])))
  }

  /** Main result on shape: at every depth lists and tuples keep their length and
      their order, dictionaries their keys, and a set becomes a list of its
      converted members, none lost and none added. */
  lemma {:induction false} SafeKeepsShape(rt: Runtime, v: Value)
    requires SortsPermute(rt) && Safe(rt, v).Some?
    ensures Keeps(rt, v, Safe(rt, v).value)
    decreases v, 1
  {
    match v {
      case Dict(_, values) => AllKeepShape(rt, values);
      case List(items) => AllKeepShape(rt, items);
      case Tuple(items) => AllKeepShape(rt, items);
      case Set(items) => AllKeepShape(rt, items);
      case _ =>
    }
  }

  lemma {:induction false} AllKeepShape(rt: Runtime, vs: seq<Value>)
    requires SortsPermute(rt) && SafeAll(rt, vs).Some?
    ensures AllKeep(rt, vs, SafeAll(rt, vs).value)
    decreases vs, 0
  {
    if vs != [] {
      SafeKeepsShape(rt, vs[0]);
      AllKeepShape(rt, vs[1..]);
      assert SafeAll(rt, vs).value[1..] == SafeAll(rt, vs[1..]).value;
    }
  }

  /** Somewhere in the value sorting a set's converted members raises. */
  ghost predicate SortRefused(rt: Runtime, v: Value)
    decreases v, 1
  {
    match v
    case Dict(_, values) => AnySortRefused(rt, values)
    case List(items) => AnySortRefused(rt, items)
    case Tuple(items) => AnySortRefused(rt, items)
    case Set(items) =>
      AnySortRefused(rt, items)
      || exists converted :: SafeAll(rt, items) == Some(converted) && rt.sorted(converted) == None
    case _ => false
  }

  ghost predicate AnySortRefused(rt: Runtime, vs: seq<Value>)
    decreases vs, 0
  {
    vs != [] && (SortRefused(rt, vs[0]) || AnySortRefused(rt, vs[1..]))
  }

  /** The conversion raises if and only if such a set is there. */
  lemma {:induction false} RaisesIff(rt: Runtime, v: Value)
    ensures Safe(rt, v) == None <==> SortRefused(rt, v)
    decreases v, 1
  {
    match v {
      case Dict(_, values) => AllRaisesIff(rt, values);
      case List(items) => AllRaisesIff(rt, items);
      case Tuple(items) => AllRaisesIff(rt, items);
      case Set(items) =>
        AllRaisesIff(rt, items);
        var converted := SafeAll(rt, items);
        if converted.Some? {
          assert converted == Some(converted.value);
        }
      case _ =>
    }
  }

  lemma {:induction false} AllRaisesIff(rt: Runtime, vs: seq<Value>)
    ensures SafeAll(rt, vs) == None <==> AnySortRefused(rt, vs)
    decreases vs, 0
  {
    if vs != [] {
      RaisesIff(rt, vs[0]);
      AllRaisesIff(rt, vs[1..]);
    }
  }
}
