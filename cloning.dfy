/** The cloner of lib/clone.js: a `Cloner` object with its two flags, the
    chainable getters that set them, and the copy operations, which update the
    heap in place. Every operation is proved to compute what module
    `CloneSpec` defines. */
module Cloning {
  import opened JsHeap
  import CloneSpec

  /** What the top-level `clone(x)` hands back: the cloner itself, for a
      falsy `x`, or the clone of `x`. */
  datatype Cloned = Tool(cloner: Cloner) | Copy(value: Value)

  /** A cloner: `Object.create(cloneTool)` with its `attr` flags. */
  class Cloner {
    var includeInheritance: bool
    var includeArrays: bool

    /** The flags `clone()` starts a cloner with. */
    constructor ()
      ensures !includeInheritance && !includeArrays
    {
      includeInheritance := false;
      includeArrays := false;
    }

    function Flags(): (flags: CloneSpec.Policy)
      reads this
    {
      CloneSpec.Policy(includeInheritance, includeArrays)
    }

    /** The `includeInheritance` getter: sets the flag and returns the cloner. */
    method IncludeInheritance() returns (self: Cloner)
      modifies this
      ensures self == this
      ensures includeInheritance && includeArrays == old(includeArrays)
    {
      includeInheritance := true;
      self := this;
    }

    /** The `includeArrays` getter: sets the flag and returns the cloner. */
    method IncludeArrays() returns (self: Cloner)
      modifies this
      ensures self == this
      ensures includeArrays && includeInheritance == old(includeInheritance)
    {
      includeArrays := true;
      self := this;
    }

    /** The `and` getter: the cloner itself, unchanged. */
    method And() returns (self: Cloner)
      ensures self == this
    {
      self := this;
    }

    /** `from(v)`: dispatches on the type of `v`. The flags are not changed. */
    method From(m: Memory, v: Value) returns (c: Value)
      requires Grounded(m.objs, v)
      modifies m
      ensures (m.objs, c) == CloneSpec.From(old(m.objs), Flags(), v)
      decreases Rank(v), 3
    {
      match TypeOf(m.objs, v)
      case DateType => c := CloneDate(m, v.ref);
      case ArrayType => c := CloneArray(m, v.ref);
      case ObjectType => c := CloneObject(m, v.ref);
      case OtherType => c := v;
    }

    /** `cloneDate`: `new Date(srcObj.getTime())`. */
    method CloneDate(m: Memory, r: Ref) returns (c: Value)
      requires r < |m.objs| && m.objs[r].DateObj?
      modifies m
      ensures (m.objs, c) == CloneSpec.CloneDate(old(m.objs), r)
    {
      var d := m.Alloc(DateObj(m.objs[r].time));
      c := Obj(d);
    }

    /** `cloneArray`: allocates the new array, then fills it index by index. */
    method CloneArray(m: Memory, r: Ref) returns (c: Value)
      requires Ordered(m.objs, r + 1) && m.objs[r].ArrayObj?
      modifies m
      ensures (m.objs, c) == CloneSpec.CloneArray(old(m.objs), Flags(), r)
      decreases r + 1, 2
    {
      var src := m.objs[r].elems;
      assert ObjectBelow(m.objs[r], r);
      var d := m.Alloc(ArrayObj(seq(|src|, _ => Undefined)));
      CloneSpec.OrderedExtends(old(m.objs), m.objs, r + 1);
      FillArray(m, r, d, src);
      c := Obj(d);
    }

    /** The loop of `cloneArray`, writing into the new array `d`. */
    method FillArray(m: Memory, r: Ref, d: Ref, src: seq<Value>)
      requires CloneSpec.Filling(m.objs, r, d, src)
      modifies m
      ensures m.objs == CloneSpec.FillElements(old(m.objs), Flags(), r, d, src, 0)
      decreases r + 1, 1
    {
      ghost var target := CloneSpec.FillElements(m.objs, Flags(), r, d, src, 0);
      var i := 0;
      while i < |src|
        invariant 0 <= i <= |src|
        invariant CloneSpec.Filling(m.objs, r, d, src)
        invariant CloneSpec.FillElements(m.objs, Flags(), r, d, src, i) == target
        decreases |src| - i
      {
        ghost var hi := m.objs;
        CloneSpec.FillingGrounded(hi, r, d, src, i);
        var e := ElementFor(m, src[i]);
        CloneSpec.FillStep(hi, Flags(), r, d, src, i, m.objs, e);
        m.WriteElement(d, i, e);
        i := i + 1;
      }
    }

    /** The value `cloneArray` stores for a source element: `clone(v)` when
        `includeArrays` is set, `v` itself otherwise. */
    method ElementFor(m: Memory, v: Value) returns (e: Value)
      requires Grounded(m.objs, v)
      modifies m
      ensures (m.objs, e) == if Flags().includeArrays then CloneSpec.DefaultClone(old(m.objs), v) else (old(m.objs), v)
      decreases Rank(v), 5
    {
      if includeArrays {
        e := CloneElement(m, v);
      } else {
        e := v;
      }
    }

    /** `cloneObject`: clones the descriptors, resolves the prototype,
        creates the record and mirrors extensibility. */
    method CloneObject(m: Memory, r: Ref) returns (c: Value)
      requires Ordered(m.objs, r + 1) && m.objs[r].PlainObj?
      modifies m
      ensures (m.objs, c) == CloneSpec.CloneObject(old(m.objs), Flags(), r)
      decreases r + 1, 2
    {
      ghost var h0 := m.objs;
      var parent := m.objs[r].proto;
      assert ObjectBelow(h0[r], r);
      var destProperties := CloneDescriptors(m, r);
      ghost var h1 := m.objs;
      CloneSpec.OrderedExtends(h0, h1, r + 1);
      if includeInheritance && parent.ProtoRef? && parent.ref != ObjectPrototype {
        var q := From(m, Obj(parent.ref));
        parent := ProtoRef(q.ref);
      }
      assert (m.objs, parent) == CloneSpec.ResolveParent(h1, Flags(), r, h0[r].proto);
      CloneSpec.OrderedExtends(h1, m.objs, r + 1);
      ghost var h2 := m.objs;
      var d := m.Alloc(PlainObj(Stored(destProperties), parent, true));
      CloneSpec.WalkFromNewRecord(h2, Flags(), r, Stored(destProperties), parent);
      SetObjExtensible(m, r, ProtoRef(d));
      c := Obj(d);
    }

    /** The `forEach` of `cloneObject`: every descriptor of the source, in
        order, with a truthy data value replaced by its clone under this
        cloner. The result lists them all; `Stored` gives what the
        `destProperties` dictionary keeps of them. */
    method CloneDescriptors(m: Memory, r: Ref) returns (destProperties: seq<Property>)
      requires Ordered(m.objs, r + 1) && m.objs[r].PlainObj?
      modifies m
      ensures (m.objs, destProperties) == CloneSpec.CloneProps(old(m.objs), Flags(), r, old(m.objs)[r].props, 0)
      decreases r + 1, 1
    {
      var properties := m.objs[r].props;
      ghost var h0 := m.objs;
      ghost var final := CloneSpec.CloneProps(h0, Flags(), r, properties, 0);
      assert ObjectBelow(h0[r], r);
      destProperties := [];
      var i := 0;
      while i < |properties|
        invariant 0 <= i <= |properties|
        invariant Ordered(m.objs, r + 1)
        invariant CloneSpec.CloneProps(m.objs, Flags(), r, properties, i).0 == final.0
        invariant destProperties + CloneSpec.CloneProps(m.objs, Flags(), r, properties, i).1 == final.1
        decreases |properties| - i
      {
        ghost var hi := m.objs;
        assert DescBelow(properties[i].desc, r);
        var descriptor := CloneDescriptor(m, r, properties[i].desc);
        CloneSpec.PropsStep(hi, Flags(), r, properties, i, m.objs, descriptor);
        ghost var rest := CloneSpec.CloneProps(m.objs, Flags(), r, properties, i + 1).1;
        CloneSpec.AppendOne(destProperties, Property(properties[i].key, descriptor), rest);
        destProperties := destProperties + [Property(properties[i].key, descriptor)];
        i := i + 1;
      }
      assert CloneSpec.CloneProps(m.objs, Flags(), r, properties, i) == (m.objs, []);
      assert destProperties + [] == destProperties;
    }

    /** The body of that `forEach`: a descriptor whose value is truthy gets
        the clone of the value, any other descriptor is kept. */
    method CloneDescriptor(m: Memory, r: Ref, descriptor: Descriptor) returns (d: Descriptor)
      requires Ordered(m.objs, r + 1) && DescBelow(descriptor, r)
      modifies m
      ensures (m.objs, d) == CloneSpec.CloneDescriptor(old(m.objs), Flags(), r, descriptor)
      decreases r + 1, 0
    {
      d := descriptor;
      if d.Data? && Truthy(d.value) {
        var v := From(m, d.value);
        d := d.(value := v);
      }
    }

    /** `setObjExtensible`: `preventExtensions` on `d` when `s` is not
        extensible, then, under `includeInheritance`, the same one level up. */
    method SetObjExtensible(m: Memory, s: Ref, d: Proto)
      requires Ordered(m.objs, s + 1)
      modifies m
      ensures m.objs == CloneSpec.SetObjExtensible(old(m.objs), Flags(), s, d)
      decreases s
    {
      ghost var h := m.objs;
      if !ExtAt(m.objs, s) {
        m.MakeNonExtensible(d);
      }
      CloneSpec.OrderedPrevent(h, d, s + 1);
      var parent := ProtoOfAt(m.objs, s);
      assert parent == ProtoOfAt(h, s);
      if includeInheritance && parent.ProtoRef? {
        SetObjExtensible(m, parent.ref, ProtoOf(m.objs, d));
      }
    }
  }

  /** `clone(v)` as `cloneArray` calls it, when the result is stored in the
      array: a falsy `v` gives a new cloner allocated on the heap. */
  method CloneElement(m: Memory, v: Value) returns (e: Value)
    requires Grounded(m.objs, v)
    modifies m
    ensures (m.objs, e) == CloneSpec.DefaultClone(old(m.objs), v)
    decreases Rank(v), 4
  {
    if Truthy(v) {
      var cloner := new Cloner();
      e := cloner.From(m, v);
    } else {
      var c := m.Alloc(PlainObj([], ProtoRef(CloneTool), true));
      var a := m.Alloc(CloneSpec.AttrRecord());
      m.AddDataProperty(c, "attr", Obj(a));
      e := Obj(c);
      assert [] + [Property("attr", Data(Obj(a), true, true, true))] == [Property("attr", Data(Obj(a), true, true, true))];
      assert m.objs[c] == CloneSpec.ClonerRecord(a);
      assert m.objs == old(m.objs) + [CloneSpec.ClonerRecord(a), CloneSpec.AttrRecord()];
    }
  }

  /** The top-level `clone(x)`: a new cloner with both flags false, returned
      itself when `x` is falsy and applied to `x` otherwise. */
  method Clone(m: Memory, x: Value) returns (res: Cloned)
    requires Grounded(m.objs, x)
    modifies m
    ensures !Truthy(x) ==> res.Tool? && fresh(res.cloner) && res.cloner.Flags() == CloneSpec.DefaultPolicy
    ensures !Truthy(x) ==> m.objs == old(m.objs)
    ensures Truthy(x) ==> res.Copy? && (m.objs, res.value) == CloneSpec.From(old(m.objs), CloneSpec.DefaultPolicy, x)
  {
    var cloner := new Cloner();
    if Truthy(x) {
      var c := cloner.From(m, x);
      res := Copy(c);
    } else {
      res := Tool(cloner);
    }
  }
}
