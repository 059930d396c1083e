/** An explicit model of the part of a JavaScript heap the cloners touch.

    A reference is an index into the heap; allocating an object appends it.
    Two references are reserved: `ObjectPrototype` for `Object.prototype` and
    `CloneTool` for the `cloneTool` object of lib/clone.js that every cloner
    inherits from. */
module JsHeap {

  type Ref = nat

  /** `Object.prototype`, the universal base of prototype chains. */
  const ObjectPrototype: Ref := 0
  /** The shared `cloneTool` object that `clone()` uses as a cloner's prototype. */
  const CloneTool: Ref := 1

  /** A JavaScript value: a primitive, an opaque function reference or a
      reference to a heap object. Numbers are integers (no NaN, no -0). */
  datatype Value =
    | Undefined
    | Null
    | Bool(b: bool)
    | Num(n: int)
    | Str(s: string)
    | Fn(id: nat)
    | Obj(ref: Ref)

  /** JavaScript truthiness (`if (x)`). */
  predicate Truthy(v: Value) {
    match v
    case Undefined => false
    case Null => false
    case Bool(b) => b
    case Num(n) => n != 0
    case Str(s) => s != ""
    case Fn(_) => true
    case Obj(_) => true
  }

  /** A property descriptor as `Object.getOwnPropertyDescriptor` returns it:
      a data descriptor or an accessor pair, each with its flags. */
  datatype Descriptor =
    | Data(value: Value, writable: bool, enumerable: bool, configurable: bool)
    | Accessor(getter: Value, setter: Value, enumerable: bool, configurable: bool)

  /** An own property; an object's properties are kept in the order
      `Object.getOwnPropertyNames` lists them. Keys are strings: that call
      lists no symbol keys, and none are modelled. */
  datatype Property = Property(key: string, desc: Descriptor)

  /** The prototype of an object: `null` or a reference. */
  datatype Proto = NoProto | ProtoRef(ref: Ref)

  /** The objects the cloners distinguish. `OpaqueObj` stands for everything
      the dispatcher passes through (regular expressions, errors, boxed
      primitives, ...), identified only by a tag. */
  datatype Object =
    | DateObj(time: int)
    | ArrayObj(elems: seq<Value>)
    | PlainObj(props: seq<Property>, proto: Proto, extensible: bool)
    | OpaqueObj(tag: string)

  type Heap = seq<Object>

  /** The errors a call can raise. */
  datatype JsError = ReferenceError | TypeError

  /** How a call that builds an object ends: it returns the new object or throws. */
  datatype Completion = Returned(ref: Ref) | Threw(error: JsError)

  /** The runtime type names the dispatcher switches on. */
  datatype TypeName = DateType | ArrayType | ObjectType | OtherType

  /** The type of a value by the tag of the object it refers to; primitives
      and functions are `OtherType`. */
  function TypeOf(h: Heap, v: Value): (t: TypeName)
    requires v.Obj? ==> v.ref < |h|
    ensures t != OtherType ==> v.Obj?
  {
    if !v.Obj? then OtherType
    else match h[v.ref]
      case DateObj(_) => DateType
      case ArrayObj(_) => ArrayType
      case PlainObj(_, _, _) => ObjectType
      case OpaqueObj(_) => OtherType
  }

  /** The property names of a property list, in order. */
  function Keys(props: seq<Property>): (ks: seq<string>)
    ensures |ks| == |props|
    ensures forall i :: 0 <= i < |props| ==> ks[i] == props[i].key
  {
    if props == [] then [] else [props[0].key] + Keys(props[1..])
  }

  /** The one key that `dict[key] = v` on a plain `{}` does not store as an
      own property: the assignment runs the `__proto__` setter that the
      dictionary inherits from `Object.prototype` instead. */
  const ProtoKey: string := "__proto__"

  /** The positions from `i` on of the keys in `ks` other than `ProtoKey`. */
  function KeptFrom(ks: seq<string>, i: nat): (ix: seq<nat>)
    requires i <= |ks|
    ensures forall j :: 0 <= j < |ix| ==> i <= ix[j] < |ks| && ks[ix[j]] != ProtoKey
    decreases |ks| - i
  {
    if i == |ks| then []
    else (if ks[i] == ProtoKey then [] else [i]) + KeptFrom(ks, i + 1)
  }

  ghost predicate Increasing(ix: seq<nat>) {
    forall a, b :: 0 <= a < b < |ix| ==> ix[a] < ix[b]
  }

  lemma ConsIncreasing(x: nat, rest: seq<nat>)
    requires Increasing(rest) && forall j :: 0 <= j < |rest| ==> x < rest[j]
    ensures Increasing([x] + rest)
  {
    var ix := [x] + rest;
    forall a, b | 0 <= a < b < |ix| ensures ix[a] < ix[b] {
      assert ix[b] == rest[b - 1];
      if a > 0 { assert ix[a] == rest[a - 1]; }
    }
  }

  /** `KeptFrom` lists positions in increasing order. */
  lemma {:induction false} KeptFromIncreasing(ks: seq<string>, i: nat)
    requires i <= |ks|
    ensures Increasing(KeptFrom(ks, i))
    decreases |ks| - i
  {
    if i < |ks| {
      KeptFromIncreasing(ks, i + 1);
      var rest := KeptFrom(ks, i + 1);
      if ks[i] != ProtoKey {
        ConsIncreasing(i, rest);
        assert KeptFrom(ks, i) == [i] + rest;
      } else {
        assert KeptFrom(ks, i) == rest;
      }
    }
  }

  /** `KeptFrom` misses no position from `i` on whose key is not `ProtoKey`. */
  lemma {:induction false} KeptFromComplete(ks: seq<string>, i: nat, k: nat)
    requires i <= k < |ks| && ks[k] != ProtoKey
    ensures k in KeptFrom(ks, i)
    decreases |ks| - i
  {
    var rest := KeptFrom(ks, i + 1);
    if k == i {
      assert KeptFrom(ks, i) == [i] + rest;
    } else {
      KeptFromComplete(ks, i + 1, k);
      assert KeptFrom(ks, i) == (if ks[i] == ProtoKey then [] else [i]) + rest;
    }
  }

  /** What a dictionary `{}` holds once every property of `props` has been
      stored into it by name, as lib/clone.js, index.js and clone.js fill
      their `destProperties`: the entries other than `__proto__`. */
  function Stored(props: seq<Property>): (kept: seq<Property>)
    ensures |kept| <= |props|
    ensures forall j :: 0 <= j < |kept| ==> kept[j].key != ProtoKey && kept[j] in props
  {
    var ix := KeptFrom(Keys(props), 0);
    KeptFromBound(Keys(props), 0);
    seq(|ix|, j requires 0 <= j < |ix| => props[ix[j]])
  }

  lemma {:induction false} KeptFromBound(ks: seq<string>, i: nat)
    requires i <= |ks|
    ensures |KeptFrom(ks, i)| <= |ks| - i
    decreases |ks| - i
  {
    if i < |ks| { KeptFromBound(ks, i + 1); }
  }

  /** A property list without a `__proto__` entry is stored whole. */
  lemma {:induction false} StoredWhole(props: seq<Property>)
    requires forall j :: 0 <= j < |props| ==> props[j].key != ProtoKey
    ensures Stored(props) == props
  {
    var ks := Keys(props);
    KeptAll(ks, 0);
  }

  lemma {:induction false} KeptAll(ks: seq<string>, i: nat)
    requires i <= |ks| && forall j :: i <= j < |ks| ==> ks[j] != ProtoKey
    ensures KeptFrom(ks, i) == seq(|ks| - i, j => i + j)
    decreases |ks| - i
  {
    if i < |ks| { KeptAll(ks, i + 1); }
  }

  /** Storing two property lists with the same names keeps the same
      positions of each. */
  lemma StoredKeys(a: seq<Property>, b: seq<Property>)
    requires Keys(a) == Keys(b)
    ensures Keys(Stored(a)) == Keys(Stored(b))
  {
    assert |a| == |b|;
    var ix := KeptFrom(Keys(a), 0);
    forall j | 0 <= j < |ix| ensures Stored(a)[j].key == Stored(b)[j].key {
      assert Keys(a)[ix[j]] == Keys(b)[ix[j]];
    }
  }

  // ---- acyclicity, freshness -------------------------------------------------

  predicate ValueBelow(v: Value, n: nat) {
    v.Obj? ==> v.ref < n
  }

  predicate DescBelow(d: Descriptor, n: nat) {
    match d
    case Data(v, _, _, _) => ValueBelow(v, n)
    case Accessor(g, s, _, _) => ValueBelow(g, n) && ValueBelow(s, n)
  }

  /** Every reference stored in `o` is smaller than `n`. */
  predicate ObjectBelow(o: Object, n: nat) {
    match o
    case DateObj(_) => true
    case ArrayObj(es) => forall i :: 0 <= i < |es| ==> ValueBelow(es[i], n)
    case PlainObj(ps, pr, _) =>
      (forall i :: 0 <= i < |ps| ==> DescBelow(ps[i].desc, n)) && (pr.ProtoRef? ==> pr.ref < n)
    case OpaqueObj(_) => true
  }

  /** The first `n` objects of the heap only refer to objects allocated before
      them; what is reachable from them is therefore acyclic. */
  predicate Ordered(h: Heap, n: nat) {
    n <= |h| && forall k :: 0 <= k < n ==> ObjectBelow(h[k], k)
  }

  /** What is reachable from `v` is acyclic. */
  predicate Grounded(h: Heap, v: Value) {
    v.Obj? ==> Ordered(h, v.ref + 1)
  }

  /** `h'` keeps every object of `h` as it was and may add new ones. */
  predicate Extends(h: Heap, h': Heap) {
    |h| <= |h'| && forall k :: 0 <= k < |h| ==> h'[k] == h[k]
  }

  /** A measure that decreases from an object to what it refers to. */
  function Rank(v: Value): (rank: nat) {
    if v.Obj? then v.ref + 1 else 0
  }

  // ---- the object operations the cloners use ---------------------------------

  /** `Object.isExtensible`; objects other than plain records are not
      given an extensibility flag and read as extensible. */
  function ExtAt(h: Heap, r: Ref): (extensible: bool) {
    if r < |h| && h[r].PlainObj? then h[r].extensible else true
  }

  /** `Object.getPrototypeOf` of a plain record; other objects have no
      modelled prototype. */
  function ProtoOfAt(h: Heap, r: Ref): (p: Proto)
    ensures p.ProtoRef? ==> r < |h| && h[r].PlainObj? && p == h[r].proto
  {
    if r < |h| && h[r].PlainObj? then h[r].proto else NoProto
  }

  /** `Object.getPrototypeOf` applied to a prototype slot (`null` stays `null`). */
  function ProtoOf(h: Heap, d: Proto): (p: Proto)
    ensures p.ProtoRef? ==> d.ProtoRef? && p == ProtoOfAt(h, d.ref)
  {
    if d.ProtoRef? then ProtoOfAt(h, d.ref) else NoProto
  }

  /** `Object.preventExtensions(d)`: clears the flag of a plain record and
      leaves everything else as it is. */
  function PreventExtensions(h: Heap, d: Proto): (h': Heap)
    ensures |h'| == |h|
    ensures forall k :: 0 <= k < |h| && k != (if d.ProtoRef? then d.ref else |h|) ==> h'[k] == h[k]
    ensures d.ProtoRef? && d.ref < |h| && h[d.ref].PlainObj? ==>
              h'[d.ref] == h[d.ref].(extensible := false)
    ensures forall k :: 0 <= k < |h| ==> !ExtAt(h, k) ==> !ExtAt(h', k)
  {
    if d.ProtoRef? && d.ref < |h| && h[d.ref].PlainObj? then
      h[d.ref := h[d.ref].(extensible := false)]
    else h
  }

  /** `destObj[i] = v` on an array object. */
  function SetElement(h: Heap, d: Ref, i: nat, v: Value): (h': Heap)
    requires d < |h| && h[d].ArrayObj? && i < |h[d].elems|
    ensures |h'| == |h|
    ensures forall k :: 0 <= k < |h| && k != d ==> h'[k] == h[k]
    ensures h'[d].ArrayObj? && |h'[d].elems| == |h[d].elems|
    ensures h'[d].elems[i] == v
    ensures forall j :: 0 <= j < |h[d].elems| && j != i ==> h'[d].elems[j] == h[d].elems[j]
  {
    h[d := ArrayObj(h[d].elems[i := v])]
  }

  /** A mutable cell holding the heap, for the operations that update it in place. */
  class Memory {
    var objs: Heap

    constructor (objs: Heap)
      ensures this.objs == objs
    {
      this.objs := objs;
    }

    /** Allocates `o` at the next free reference. */
    method Alloc(o: Object) returns (r: Ref)
      modifies this
      ensures objs == old(objs) + [o]
      ensures r == |old(objs)|
    {
      r := |objs|;
      objs := objs + [o];
    }

    /** `o.key = v` for a key the record `r` does not have yet: a data
        property with all three flags set. */
    method AddDataProperty(r: Ref, key: string, v: Value)
      requires r < |objs| && objs[r].PlainObj?
      requires forall j :: 0 <= j < |objs[r].props| ==> objs[r].props[j].key != key
      modifies this
      ensures objs == old(objs)[r := old(objs)[r].(props := old(objs)[r].props + [Property(key, Data(v, true, true, true))])]
    {
      objs := objs[r := objs[r].(props := objs[r].props + [Property(key, Data(v, true, true, true))])];
    }

    /** `destObj[i] = v`. */
    method WriteElement(d: Ref, i: nat, v: Value)
      requires d < |objs| && objs[d].ArrayObj? && i < |objs[d].elems|
      modifies this
      ensures objs == SetElement(old(objs), d, i, v)
    {
      objs := objs[d := ArrayObj(objs[d].elems[i := v])];
    }

    /** `Object.preventExtensions(d)`. */
    method MakeNonExtensible(d: Proto)
      modifies this
      ensures objs == PreventExtensions(old(objs), d)
    {
      if d.ProtoRef? && d.ref < |objs| && objs[d.ref].PlainObj? {
        objs := objs[d.ref := objs[d.ref].(extensible := false)];
      }
    }
  }
}
