/** The clone algorithm of lib/clone.js as functions over the explicit heap.

    Each function returns the heap after the call together with the value the
    JavaScript function returns, and allocates in the order the JavaScript
    does; the methods of module `Cloning` are proved to compute exactly these. */
module CloneSpec {
  import opened JsHeap

  /** The cloner's two flags (`this.attr`). */
  datatype Policy = Policy(includeInheritance: bool, includeArrays: bool)

  /** The flags of a cloner fresh from `clone()`. */
  const DefaultPolicy := Policy(false, false)

  /** The `attr` record `clone()` gives a new cloner. */
  function AttrRecord(): (attr: Object) {
    PlainObj([Property("includeInheritance", Data(Bool(false), true, true, true)),
              Property("includeArrays", Data(Bool(false), true, true, true))],
             ProtoRef(ObjectPrototype), true)
  }

  /** A new cloner: `Object.create(cloneTool)` with its `attr` property set. */
  function ClonerRecord(attr: Ref): (cloner: Object) {
    PlainObj([Property("attr", Data(Obj(attr), true, true, true))], ProtoRef(CloneTool), true)
  }

  /** `c` is a cloner as `clone()` builds it, both flags false, allocated at or after `n`. */
  ghost predicate IsFreshDefaultCloner(n: nat, h: Heap, c: Value) {
    && c.Obj? && n <= c.ref < |h|
    && h[c.ref].PlainObj? && |h[c.ref].props| == 1 && h[c.ref].proto == ProtoRef(CloneTool)
    && h[c.ref].props[0].key == "attr" && h[c.ref].props[0].desc.Data?
    && var a := h[c.ref].props[0].desc.value;
       a.Obj? && n <= a.ref < |h| && h[a.ref] == AttrRecord()
  }

  // ---- extensibility mirroring --------------------------------------------

  /** `setObjExtensible(srcObj, destObj)`: mirrors `s`'s extensibility on `d`
      and, under `includeInheritance`, walks both prototype chains in lockstep
      until the source's prototype is null. */
  function SetObjExtensible(h: Heap, p: Policy, s: Ref, d: Proto): (h': Heap)
    requires Ordered(h, s + 1)
    ensures |h'| == |h|
    decreases s
  {
    var h1 := if !ExtAt(h, s) then PreventExtensions(h, d) else h;
    if p.includeInheritance && ProtoOfAt(h, s).ProtoRef? then
      OrderedPrevent(h, d, s + 1);
      SetObjExtensible(h1, p, ProtoOfAt(h, s).ref, ProtoOf(h1, d))
    else h1
  }

  /** The walk only ever clears extensibility flags of records, and it
      clears `d`'s when `s` is not extensible. */
  lemma {:induction false} SetObjExtensibleClears(h: Heap, p: Policy, s: Ref, d: Proto)
    requires Ordered(h, s + 1)
    ensures var h' := SetObjExtensible(h, p, s, d);
            && (forall k :: 0 <= k < |h| ==> h'[k] == h[k] || (h[k].PlainObj? && h'[k] == h[k].(extensible := false)))
            && (d.ProtoRef? && d.ref < |h| && h[d.ref].PlainObj? && !ExtAt(h, s) ==> !ExtAt(h', d.ref))
    decreases s
  {
    var h1 := if !ExtAt(h, s) then PreventExtensions(h, d) else h;
    if p.includeInheritance && ProtoOfAt(h, s).ProtoRef? {
      OrderedPrevent(h, d, s + 1);
      SetObjExtensibleClears(h1, p, ProtoOfAt(h, s).ref, ProtoOf(h1, d));
      var h' := SetObjExtensible(h, p, s, d);
      forall k | 0 <= k < |h| ensures h'[k] == h[k] || (h[k].PlainObj? && h'[k] == h[k].(extensible := false)) {
        assert h1[k] == h[k] || (h[k].PlainObj? && h1[k] == h[k].(extensible := false));
      }
    }
  }

  /** `d` mirrors the extensibility of `s`, and, when the policy walks the
      chain, so does every ancestor of `d` that of the ancestor of `s` at the
      same height, up to the end of the source's chain. */
  ghost predicate ExtMirrored(h: Heap, p: Policy, s: Ref, d: Proto)
    requires Ordered(h, s + 1)
    decreases s
  {
    && d.ProtoRef? && d.ref < |h|
    && ExtAt(h, s) == ExtAt(h, d.ref)
    && (p.includeInheritance && ProtoOfAt(h, s).ProtoRef? ==>
          ExtMirrored(h, p, ProtoOfAt(h, s).ref, ProtoOfAt(h, d.ref)))
  }

  lemma OrderedPrevent(h: Heap, d: Proto, n: nat)
    requires Ordered(h, n)
    ensures Ordered(PreventExtensions(h, d), n)
  {
    var h' := PreventExtensions(h, d);
    forall k | 0 <= k < n ensures ObjectBelow(h'[k], k) {
      if d.ProtoRef? && k == d.ref && h[k].PlainObj? {
        assert h'[k] == h[k].(extensible := false);
      } else {
        assert h'[k] == h[k];
      }
    }
  }

  lemma OrderedExtends(h: Heap, h': Heap, n: nat)
    requires Ordered(h, n) && Extends(h, h')
    ensures Ordered(h', n)
  {
    forall k | 0 <= k < n ensures ObjectBelow(h'[k], k) {
      assert h'[k] == h[k];
    }
  }

  /** Every chain mirrors itself. */
  lemma {:induction false} MirroredRefl(h: Heap, p: Policy, s: Ref)
    requires Ordered(h, s + 1)
    ensures ExtMirrored(h, p, s, ProtoRef(s))
    decreases s
  {
    if p.includeInheritance && ProtoOfAt(h, s).ProtoRef? {
      MirroredRefl(h, p, ProtoOfAt(h, s).ref);
    }
  }

  /** Mirroring survives allocation and any change to objects it does not read. */
  lemma {:induction false} MirroredFrame(h: Heap, h': Heap, p: Policy, s: Ref, d: Proto)
    requires Ordered(h, s + 1) && Extends(h, h') && ExtMirrored(h, p, s, d)
    ensures Ordered(h', s + 1) && ExtMirrored(h', p, s, d)
    decreases s
  {
    OrderedExtends(h, h', s + 1);
    assert h'[s] == h[s] && h'[d.ref] == h[d.ref];
    if p.includeInheritance && ProtoOfAt(h, s).ProtoRef? {
      MirroredFrame(h, h', p, ProtoOfAt(h, s).ref, ProtoOfAt(h, d.ref));
    }
  }

  /** Walking chains that already mirror each other changes nothing. */
  lemma {:induction false} MirroredWalkIsNoop(h: Heap, p: Policy, s: Ref, d: Proto)
    requires Ordered(h, s + 1) && ExtMirrored(h, p, s, d)
    ensures SetObjExtensible(h, p, s, d) == h
    decreases s
  {
    var h1 := if !ExtAt(h, s) then PreventExtensions(h, d) else h;
    if !ExtAt(h, s) {
      assert h[d.ref].PlainObj? && !h[d.ref].extensible;
      assert h[d.ref].(extensible := false) == h[d.ref];
      assert h1 == h;
    }
    if p.includeInheritance && ProtoOfAt(h, s).ProtoRef? {
      MirroredWalkIsNoop(h, p, ProtoOfAt(h, s).ref, ProtoOfAt(h, d.ref));
    }
  }

  // ---- the dispatcher and the copiers ---------------------------------------

  /** `cloneTool.from(v)` under the flags `p`. */
  function From(h: Heap, p: Policy, v: Value): (r: (Heap, Value))
    requires Grounded(h, v)
    ensures Extends(h, r.0)
    ensures TypeOf(h, v) == OtherType ==> r == (h, v)
    ensures TypeOf(h, v) != OtherType ==> r.1.Obj? && |h| <= r.1.ref < |r.0|
    ensures v.Obj? ==> r.1.Obj? && Ordered(r.0, v.ref + 1) && ExtMirrored(r.0, p, v.ref, ProtoRef(r.1.ref))
    decreases Rank(v), 2
  {
    match TypeOf(h, v)
    case DateType => CloneDate(h, v.ref)
    case ArrayType => CloneArray(h, p, v.ref)
    case ObjectType => CloneObject(h, p, v.ref)
    case OtherType => PassThrough(h, p, v); (h, v)
  }

  lemma PassThrough(h: Heap, p: Policy, v: Value)
    requires Grounded(h, v)
    ensures v.Obj? ==> ExtMirrored(h, p, v.ref, ProtoRef(v.ref))
  {
    if v.Obj? { MirroredRefl(h, p, v.ref); }
  }

  /** `cloneDate`: a new Date with the source's time. */
  function CloneDate(h: Heap, r: Ref): (res: (Heap, Value))
    requires r < |h| && h[r].DateObj?
    ensures Extends(h, res.0) && res.1.Obj? && |h| <= res.1.ref < |res.0|
    ensures res.0[res.1.ref] == DateObj(h[r].time)
  {
    (h + [DateObj(h[r].time)], Obj(|h|))
  }

  /** `clone(v)` as `cloneArray` calls it: a falsy `v` becomes a new default
      cloner, anything else is cloned by a default cloner. */
  function DefaultClone(h: Heap, v: Value): (r: (Heap, Value))
    requires Grounded(h, v)
    ensures Extends(h, r.0)
    ensures !Truthy(v) ==> IsFreshDefaultCloner(|h|, r.0, r.1)
    decreases Rank(v), 3
  {
    if Truthy(v) then From(h, DefaultPolicy, v)
    else (h + [ClonerRecord(|h| + 1), AttrRecord()], Obj(|h|))
  }

  /** `cloneArray`: a new array of the same length, filled by `FillElements`. */
  function CloneArray(h: Heap, p: Policy, r: Ref): (res: (Heap, Value))
    requires Ordered(h, r + 1) && h[r].ArrayObj?
    ensures Extends(h, res.0) && res.1.Obj? && |h| <= res.1.ref < |res.0|
    ensures res.0[res.1.ref].ArrayObj? && |res.0[res.1.ref].elems| == |h[r].elems|
    decreases r + 1, 1
  {
    var src := h[r].elems;
    var d := |h|;
    var h1 := h + [ArrayObj(seq(|src|, _ => Undefined))];
    OrderedExtends(h, h1, r + 1);
    (FillElements(h1, p, r, d, src, 0), Obj(d))
  }

  /** Unless `includeArrays` is set, the new array holds the source's
      elements themselves. */
  lemma CloneArrayShape(h: Heap, p: Policy, r: Ref)
    requires Ordered(h, r + 1) && h[r].ArrayObj?
    ensures var res := CloneArray(h, p, r);
            !p.includeArrays ==> res.0[res.1.ref].elems == h[r].elems
  {
    var h1 := h + [ArrayObj(seq(|h[r].elems|, _ => Undefined))];
    OrderedExtends(h, h1, r + 1);
    assert ObjectBelow(h[r], r);
    FillElementsShape(h1, p, r, |h|, h[r].elems, 0);
  }

  /** The loop of `cloneArray` from index `i` on, writing into the array `d`. */
  function FillElements(h: Heap, p: Policy, r: Ref, d: Ref, src: seq<Value>, i: nat): (h': Heap)
    requires Ordered(h, r + 1) && r < d < |h|
    requires h[d].ArrayObj? && |h[d].elems| == |src| && i <= |src|
    requires forall j :: 0 <= j < |src| ==> ValueBelow(src[j], r)
    ensures |h| <= |h'| && forall k :: 0 <= k < |h| && k != d ==> h'[k] == h[k]
    ensures h'[d].ArrayObj? && |h'[d].elems| == |src|
    decreases r + 1, 0, |src| - i
  {
    if i == |src| then h
    else
      assert ValueBelow(src[i], r);
      assert Grounded(h, src[i]);
      var (h1, e) := if p.includeArrays then DefaultClone(h, src[i]) else (h, src[i]);
      var h2 := SetElement(h1, d, i, e);
      assert Extends(h, h1);
      assert Ordered(h2, r + 1) by {
        OrderedExtends(h, h1, r + 1);
        forall k | 0 <= k < r + 1 ensures ObjectBelow(h2[k], k) { assert h2[k] == h1[k]; }
      }
      FillElements(h2, p, r, d, src, i + 1)
  }

  /** The loop of `cloneArray` writes only into the new array, leaves the
      indices before `i` alone and, unless `includeArrays` is set, stores the
      source's elements themselves. */
  lemma {:induction false} FillElementsShape(h: Heap, p: Policy, r: Ref, d: Ref, src: seq<Value>, i: nat)
    requires Ordered(h, r + 1) && r < d < |h|
    requires h[d].ArrayObj? && |h[d].elems| == |src| && i <= |src|
    requires forall j :: 0 <= j < |src| ==> ValueBelow(src[j], r)
    ensures var h' := FillElements(h, p, r, d, src, i);
            && (forall j :: 0 <= j < i ==> h'[d].elems[j] == h[d].elems[j])
            && (!p.includeArrays ==> forall j :: i <= j < |src| ==> h'[d].elems[j] == src[j])
    decreases |src| - i
  {
    if i < |src| {
      assert ValueBelow(src[i], r);
      var (h1, e) := if p.includeArrays then DefaultClone(h, src[i]) else (h, src[i]);
      FillingGrounded(h, r, d, src, i);
      FillStep(h, p, r, d, src, i, h1, e);
      FillElementsShape(SetElement(h1, d, i, e), p, r, d, src, i + 1);
    }
  }

  /** The state `cloneArray`'s loop runs in: the source array `r` lies below
      the new array `d`, which has the source's length. */
  ghost predicate Filling(h: Heap, r: Ref, d: Ref, src: seq<Value>) {
    && Ordered(h, r + 1) && r < d < |h| && h[d].ArrayObj? && |h[d].elems| == |src|
    && forall j :: 0 <= j < |src| ==> ValueBelow(src[j], r)
  }

  lemma FillingGrounded(h: Heap, r: Ref, d: Ref, src: seq<Value>, i: nat)
    requires Filling(h, r, d, src) && i < |src|
    ensures Grounded(h, src[i])
  {
    assert ValueBelow(src[i], r);
  }

  /** One iteration of `cloneArray`'s loop: clone element `i` (or keep it)
      and store it, then go on with the next index. */
  lemma FillStep(h: Heap, p: Policy, r: Ref, d: Ref, src: seq<Value>, i: nat, h1: Heap, e: Value)
    requires Filling(h, r, d, src) && i < |src| && Grounded(h, src[i])
    requires (h1, e) == if p.includeArrays then DefaultClone(h, src[i]) else (h, src[i])
    ensures d < |h1| && h1[d] == h[d]
    ensures Filling(SetElement(h1, d, i, e), r, d, src)
    ensures FillElements(h, p, r, d, src, i) == FillElements(SetElement(h1, d, i, e), p, r, d, src, i + 1)
  {
    var h2 := SetElement(h1, d, i, e);
    OrderedExtends(h, h1, r + 1);
    assert Ordered(h2, r + 1) by {
      forall k | 0 <= k < r + 1 ensures ObjectBelow(h2[k], k) { assert h2[k] == h1[k]; }
    }
  }

  /** The body of `cloneObject`'s `forEach`, for one descriptor: a truthy data
      value is cloned by the same cloner, anything else is kept. */
  function CloneDescriptor(h: Heap, p: Policy, r: Ref, desc: Descriptor): (res: (Heap, Descriptor))
    requires Ordered(h, r + 1) && DescBelow(desc, r)
    ensures Extends(h, res.0)
    ensures !(desc.Data? && Truthy(desc.value)) ==> res == (h, desc)
    ensures desc.Data? ==> res.1.Data? && res.1 == desc.(value := res.1.value)
    decreases r + 1, 0, 0
  {
    if desc.Data? && Truthy(desc.value) then
      var (h1, v) := From(h, p, desc.value);
      (h1, desc.(value := v))
    else (h, desc)
  }

  /** `cloneObject`'s `forEach` from property `i` on. */
  function CloneProps(h: Heap, p: Policy, r: Ref, props: seq<Property>, i: nat): (res: (Heap, seq<Property>))
    requires Ordered(h, r + 1) && i <= |props|
    requires forall j :: 0 <= j < |props| ==> DescBelow(props[j].desc, r)
    ensures Extends(h, res.0)
    ensures |res.1| == |props| - i
    ensures forall j :: 0 <= j < |res.1| ==> res.1[j].key == props[i + j].key
    decreases r + 1, 0, |props| - i
  {
    if i == |props| then (h, [])
    else
      var (h1, desc) := CloneDescriptor(h, p, r, props[i].desc);
      OrderedExtends(h, h1, r + 1);
      var (h2, rest) := CloneProps(h1, p, r, props, i + 1);
      (h2, [Property(props[i].key, desc)] + rest)
  }

  /** One iteration of `cloneObject`'s `forEach`: the descriptor of property
      `i` is cloned, then the rest follow. */
  lemma PropsStep(h: Heap, p: Policy, r: Ref, props: seq<Property>, i: nat, h1: Heap, desc: Descriptor)
    requires Ordered(h, r + 1) && i < |props|
    requires forall j :: 0 <= j < |props| ==> DescBelow(props[j].desc, r)
    requires (h1, desc) == CloneDescriptor(h, p, r, props[i].desc)
    ensures Extends(h, h1) && Ordered(h1, r + 1)
    ensures var rest := CloneProps(h1, p, r, props, i + 1);
            CloneProps(h, p, r, props, i) == (rest.0, [Property(props[i].key, desc)] + rest.1)
  {
    OrderedExtends(h, h1, r + 1);
  }

  lemma AppendOne(front: seq<Property>, x: Property, back: seq<Property>)
    ensures front + ([x] + back) == (front + [x]) + back
  {
  }

  /** The prototype of the clone: cloned by the same cloner when
      `includeInheritance` is set and the prototype is neither null nor
      `Object.prototype`, shared otherwise. */
  function ResolveParent(h: Heap, p: Policy, r: Ref, proto: Proto): (res: (Heap, Proto))
    requires Ordered(h, r + 1) && (proto.ProtoRef? ==> proto.ref < r)
    ensures Extends(h, res.0)
    ensures !(p.includeInheritance && proto.ProtoRef? && proto.ref != ObjectPrototype) ==> res == (h, proto)
    ensures proto.ProtoRef? ==> Ordered(res.0, proto.ref + 1) && ExtMirrored(res.0, p, proto.ref, res.1)
    ensures proto == NoProto ==> res.1 == NoProto
    decreases r + 1, 0, 0
  {
    if p.includeInheritance && proto.ProtoRef? && proto.ref != ObjectPrototype then
      var (h1, v) := From(h, p, Obj(proto.ref));
      (h1, ProtoRef(v.ref))
    else
      PassThrough(h, p, if proto.ProtoRef? then Obj(proto.ref) else Undefined);
      (h, proto)
  }

  /** `cloneObject`: a new record with the cloned descriptors and the
      resolved prototype, then `setObjExtensible`. `props` lists every
      descriptor the `forEach` produced; `Object.create` receives what the
      `destProperties` dictionary keeps of them, which is `Stored(props)`. */
  function CloneObject(h: Heap, p: Policy, r: Ref): (res: (Heap, Value))
    requires Ordered(h, r + 1) && h[r].PlainObj?
    ensures Extends(h, res.0) && res.1.Obj? && |h| <= res.1.ref < |res.0|
    ensures res.0[res.1.ref].PlainObj? && Keys(res.0[res.1.ref].props) == Keys(Stored(h[r].props))
    ensures Ordered(res.0, r + 1) && ExtMirrored(res.0, p, r, ProtoRef(res.1.ref))
    decreases r + 1, 1
  {
    var o := h[r];
    var (h1, props) := CloneProps(h, p, r, o.props, 0);
    OrderedExtends(h, h1, r + 1);
    var (h2, parent) := ResolveParent(h1, p, r, o.proto);
    OrderedExtends(h1, h2, r + 1);
    var d := |h2|;
    assert Keys(props) == Keys(o.props);
    StoredKeys(props, o.props);
    var h3 := h2 + [PlainObj(Stored(props), parent, true)];
    WalkFromNewRecord(h2, p, r, Stored(props), parent);
    (SetObjExtensible(h3, p, r, ProtoRef(d)), Obj(d))
  }

  /** `cloneObject` in closed form: the record it creates ends up with the
      source's flag, and nothing else is touched by the walk. */
  lemma CloneObjectSteps(h: Heap, p: Policy, r: Ref)
    requires Ordered(h, r + 1) && h[r].PlainObj?
    ensures ObjectBelow(h[r], r)
    ensures var cp := CloneProps(h, p, r, h[r].props, 0);
            Ordered(cp.0, r + 1) &&
            var rp := ResolveParent(cp.0, p, r, h[r].proto);
            var rec := PlainObj(Stored(cp.1), rp.1, true);
            CloneObject(h, p, r) == ((rp.0 + [rec])[|rp.0| := rec.(extensible := h[r].extensible)], Obj(|rp.0|))
  {
    var o := h[r];
    assert ObjectBelow(o, r);
    var cp := CloneProps(h, p, r, o.props, 0);
    OrderedExtends(h, cp.0, r + 1);
    var rp := ResolveParent(cp.0, p, r, o.proto);
    WalkFromNewRecord(rp.0, p, r, Stored(cp.1), rp.1);
  }

  /** The walk `cloneObject` starts from a record it has just created only
      sets that record's flag: the rest of the chain already mirrors. */
  lemma WalkFromNewRecord(h: Heap, p: Policy, r: Ref, props: seq<Property>, parent: Proto)
    requires Ordered(h, r + 1) && h[r].PlainObj?
    requires h[r].proto.ProtoRef? ==> ExtMirrored(h, p, h[r].proto.ref, parent)
    ensures var d := |h|;
            var h3 := h + [PlainObj(props, parent, true)];
            Ordered(h3, r + 1) &&
            SetObjExtensible(h3, p, r, ProtoRef(d)) == h3[d := PlainObj(props, parent, h[r].extensible)] &&
            ExtMirrored(h3[d := PlainObj(props, parent, h[r].extensible)], p, r, ProtoRef(d))
  {
    var d := |h|;
    var h3 := h + [PlainObj(props, parent, true)];
    var h4 := h3[d := PlainObj(props, parent, h[r].extensible)];
    OrderedExtends(h, h3, r + 1);
    var h1 := if !ExtAt(h3, r) then PreventExtensions(h3, ProtoRef(d)) else h3;
    assert h1 == h4;
    if p.includeInheritance && ProtoOfAt(h3, r).ProtoRef? {
      var ps := ProtoOfAt(h3, r).ref;
      assert Extends(h, h4);
      MirroredFrame(h, h4, p, ps, parent);
      assert ProtoOf(h1, ProtoRef(d)) == parent;
      MirroredWalkIsNoop(h4, p, ps, parent);
    }
    OrderedExtends(h, h4, r + 1);
  }
}
