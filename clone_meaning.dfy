/** What a clone made by lib/clone.js is, stated independently of how it is
    computed, and the theorem that `CloneSpec.From` produces one. */
module CloneMeaning {
  import opened JsHeap
  import opened CloneSpec

  /** `c` refers to an object allocated at or after `n`. */
  ghost predicate FreshIn(n: nat, h: Heap, c: Value) {
    c.Obj? && n <= c.ref < |h|
  }

  /** `c` is a clone of `v` under policy `p` in heap `h`, with every object
      of the copy allocated at or after `n`:
      - values that are not dates, arrays or records are the clone itself;
      - a date becomes a new date with the same time;
      - an array becomes a new array of the same length whose elements are
        the same references, or, under `includeArrays`, default clones;
      - a record becomes a new record with the source's own properties
        other than `__proto__`, under the same names and in the same order,
        the descriptors of `DescCloned`, the prototype of `ParentCloned` and
        the same extensibility. */
  ghost predicate IsClone(n: nat, h: Heap, p: Policy, v: Value, c: Value)
    requires Grounded(h, v)
    decreases Rank(v), 0
  {
    match TypeOf(h, v)
    case OtherType => c == v
    case DateType => FreshIn(n, h, c) && h[c.ref] == DateObj(h[v.ref].time)
    case ArrayType =>
      assert ObjectBelow(h[v.ref], v.ref);
      var es := h[v.ref].elems;
      && FreshIn(n, h, c) && h[c.ref].ArrayObj?
      && |h[c.ref].elems| == |es|
      && forall i :: 0 <= i < |es| ==> ElemCloned(n, h, p, es[i], h[c.ref].elems[i])
    case ObjectType =>
      assert ObjectBelow(h[v.ref], v.ref);
      var o := h[v.ref];
      var ix := KeptFrom(Keys(o.props), 0);
      && FreshIn(n, h, c) && h[c.ref].PlainObj?
      && |h[c.ref].props| == |ix|
      && (forall i :: 0 <= i < |ix| ==>
            h[c.ref].props[i].key == o.props[ix[i]].key &&
            DescCloned(n, h, p, o.props[ix[i]].desc, h[c.ref].props[i].desc))
      && ParentCloned(n, h, p, o.proto, h[c.ref].proto)
      && h[c.ref].extensible == o.extensible
  }

  /** An array element of the clone: the same reference unless
      `includeArrays` is set; then, as the top-level `clone` does it, a
      falsy element becomes a new default cloner and any other one is cloned
      under the default policy. */
  ghost predicate ElemCloned(n: nat, h: Heap, p: Policy, e: Value, e': Value)
    requires Grounded(h, e)
    decreases Rank(e), 2
  {
    if p.includeArrays then DefaultCloned(n, h, e, e') else e' == e
  }

  /** What the top-level `clone(e)` leaves in the heap: a falsy `e` gives a
      new default cloner, anything else a clone under the default policy. */
  ghost predicate DefaultCloned(n: nat, h: Heap, e: Value, e': Value)
    requires Grounded(h, e)
    decreases Rank(e), 1
  {
    if Truthy(e) then IsClone(n, h, DefaultPolicy, e, e') else IsFreshDefaultCloner(n, h, e')
  }

  /** A descriptor of the clone: a data descriptor with a truthy value keeps
      its flags and holds a clone of the value under the same policy; every
      other descriptor (falsy value, getter/setter pair) is the same. */
  ghost predicate DescCloned(n: nat, h: Heap, p: Policy, d: Descriptor, d': Descriptor)
    requires d.Data? ==> Grounded(h, d.value)
    decreases if d.Data? then Rank(d.value) else 0, 1
  {
    if d.Data? && Truthy(d.value) then
      d'.Data? && d' == d.(value := d'.value) && IsClone(n, h, p, d.value, d'.value)
    else d' == d
  }

  /** The prototype of the clone: a clone of the source's under the same
      policy when `includeInheritance` is set and it is neither null nor
      `Object.prototype`; the very same prototype otherwise. */
  ghost predicate ParentCloned(n: nat, h: Heap, p: Policy, proto: Proto, proto': Proto)
    requires proto.ProtoRef? ==> Grounded(h, Obj(proto.ref))
    decreases if proto.ProtoRef? then proto.ref + 1 else 0, 1
  {
    if p.includeInheritance && proto.ProtoRef? && proto.ref != ObjectPrototype then
      proto'.ProtoRef? && IsClone(n, h, p, Obj(proto.ref), Obj(proto'.ref))
    else proto' == proto
  }

  // ---- framing ----------------------------------------------------------------

  /** `h'` agrees with `h` on the source objects below `lo` and on the objects
      allocated at or after `n`. */
  ghost predicate Agree(h: Heap, h': Heap, lo: nat, n: nat) {
    |h| <= |h'| && forall k :: 0 <= k < |h| && (k < lo || n <= k) ==> h'[k] == h[k]
  }

  /** A clone stays a clone in a later heap that leaves the source and the
      copy alone, and with any smaller freshness bound. */
  lemma {:induction false} IsCloneFrame(n: nat, n': nat, h: Heap, h': Heap, p: Policy, v: Value, c: Value)
    requires n' <= n && Grounded(h, v) && IsClone(n, h, p, v, c) && Agree(h, h', Rank(v), n)
    ensures Grounded(h', v) && IsClone(n', h', p, v, c)
    decreases Rank(v), 0
  {
    if v.Obj? {
      assert Ordered(h', v.ref + 1) by {
        forall k | 0 <= k < v.ref + 1 ensures ObjectBelow(h'[k], k) { assert h'[k] == h[k]; }
      }
      assert h'[v.ref] == h[v.ref];
      assert ObjectBelow(h[v.ref], v.ref);
      match TypeOf(h, v)
      case OtherType =>
      case DateType =>
        assert h'[c.ref] == h[c.ref];
      case ArrayType =>
        assert h'[c.ref] == h[c.ref];
        var es := h[v.ref].elems;
        forall i | 0 <= i < |es| ensures ElemCloned(n', h', p, es[i], h'[c.ref].elems[i]) {
          ElemFrame(n, n', h, h', p, es[i], h[c.ref].elems[i]);
        }
      case ObjectType =>
        assert h'[c.ref] == h[c.ref];
        var o := h[v.ref];
        var ix := KeptFrom(Keys(o.props), 0);
        forall i | 0 <= i < |ix|
          ensures DescCloned(n', h', p, o.props[ix[i]].desc, h'[c.ref].props[i].desc)
        {
          assert DescBelow(o.props[ix[i]].desc, v.ref);
          DescFrame(n, n', h, h', p, o.props[ix[i]].desc, h[c.ref].props[i].desc);
        }
        ParentFrame(n, n', h, h', p, o.proto, h[c.ref].proto);
    }
  }

  lemma {:induction false} ElemFrame(n: nat, n': nat, h: Heap, h': Heap, p: Policy, e: Value, e': Value)
    requires n' <= n && Grounded(h, e) && ElemCloned(n, h, p, e, e') && Agree(h, h', Rank(e), n)
    ensures Grounded(h', e) && ElemCloned(n', h', p, e, e')
    decreases Rank(e), 2
  {
    if p.includeArrays && Truthy(e) {
      IsCloneFrame(n, n', h, h', DefaultPolicy, e, e');
    } else if p.includeArrays {
      assert h'[e'.ref] == h[e'.ref];
      assert h'[h[e'.ref].props[0].desc.value.ref] == h[h[e'.ref].props[0].desc.value.ref];
    }
  }

  lemma {:induction false} DescFrame(n: nat, n': nat, h: Heap, h': Heap, p: Policy, d: Descriptor, d': Descriptor)
    requires n' <= n && (d.Data? ==> Grounded(h, d.value)) && DescCloned(n, h, p, d, d')
    requires Agree(h, h', if d.Data? then Rank(d.value) else 0, n)
    ensures (d.Data? ==> Grounded(h', d.value)) && DescCloned(n', h', p, d, d')
    decreases if d.Data? then Rank(d.value) else 0, 1
  {
    if d.Data? {
      if Truthy(d.value) {
        IsCloneFrame(n, n', h, h', p, d.value, d'.value);
      }
    }
  }

  lemma {:induction false} ParentFrame(n: nat, n': nat, h: Heap, h': Heap, p: Policy, proto: Proto, proto': Proto)
    requires n' <= n && (proto.ProtoRef? ==> Grounded(h, Obj(proto.ref))) && ParentCloned(n, h, p, proto, proto')
    requires Agree(h, h', if proto.ProtoRef? then proto.ref + 1 else 0, n)
    ensures (proto.ProtoRef? ==> Grounded(h', Obj(proto.ref))) && ParentCloned(n', h', p, proto, proto')
    decreases if proto.ProtoRef? then proto.ref + 1 else 0, 1
  {
    if p.includeInheritance && proto.ProtoRef? && proto.ref != ObjectPrototype {
      IsCloneFrame(n, n', h, h', p, Obj(proto.ref), Obj(proto'.ref));
    }
  }

  // ---- the clone algorithm meets the relation ----------------------------------

  /** `from(v)` returns a clone of `v`; everything it allocates is new. */
  lemma {:induction false} FromIsClone(h: Heap, p: Policy, v: Value)
    requires Grounded(h, v)
    ensures var r := From(h, p, v); Grounded(r.0, v) && IsClone(|h|, r.0, p, v, r.1)
    decreases Rank(v), 2
  {
    var r := From(h, p, v);
    if v.Obj? {
      OrderedExtends(h, r.0, v.ref + 1);
      assert r.0[v.ref] == h[v.ref];
      match TypeOf(h, v)
      case OtherType =>
      case DateType =>
      case ArrayType => CloneArrayIsClone(h, p, v.ref);
      case ObjectType => CloneObjectIsClone(h, p, v.ref);
    }
  }

  /** The top-level `clone(e)` on an array element meets `DefaultCloned`. */
  lemma {:induction false} DefaultCloneIsClone(h: Heap, e: Value)
    requires Grounded(h, e)
    ensures var r := DefaultClone(h, e); Grounded(r.0, e) && DefaultCloned(|h|, r.0, e, r.1)
    decreases Rank(e), 3
  {
    if Truthy(e) {
      FromIsClone(h, DefaultPolicy, e);
    }
  }

  lemma {:induction false} CloneArrayIsClone(h: Heap, p: Policy, r: Ref)
    requires Ordered(h, r + 1) && h[r].ArrayObj?
    ensures var res := CloneArray(h, p, r); Ordered(res.0, r + 1) && IsClone(|h|, res.0, p, Obj(r), res.1)
    decreases r + 1, 1
  {
    var src := h[r].elems;
    var d := |h|;
    var h1 := h + [ArrayObj(seq(|src|, _ => Undefined))];
    OrderedExtends(h, h1, r + 1);
    assert ObjectBelow(h[r], r);
    FillElementsCloned(h1, p, r, d, src, 0, |h|);
    FillElementsShape(h1, p, r, d, src, 0);
    var res := CloneArray(h, p, r);
    OrderedExtends(h, res.0, r + 1);
    assert res.0[r] == h[r];
  }

  lemma {:induction false} FillElementsCloned(h: Heap, p: Policy, r: Ref, d: Ref, src: seq<Value>, i: nat, n: nat)
    requires Filling(h, r, d, src) && i <= |src| && n <= |h|
    ensures var h' := FillElements(h, p, r, d, src, i);
            forall j :: i <= j < |src| ==> Grounded(h', src[j]) && ElemCloned(n, h', p, src[j], h'[d].elems[j])
    decreases r + 1, 0, |src| - i
  {
    if i < |src| {
      FillingGrounded(h, r, d, src, i);
      var (h1, e) := if p.includeArrays then DefaultClone(h, src[i]) else (h, src[i]);
      if p.includeArrays {
        DefaultCloneIsClone(h, src[i]);
      }
      assert ElemCloned(|h|, h1, p, src[i], e);
      FillStep(h, p, r, d, src, i, h1, e);
      var h2 := SetElement(h1, d, i, e);
      FillElementsCloned(h2, p, r, d, src, i + 1, n);
      FillElementsShape(h2, p, r, d, src, i + 1);
      var h' := FillElements(h2, p, r, d, src, i + 1);
      assert Agree(h1, h', Rank(src[i]), |h|);
      ElemFrame(|h|, n, h1, h', p, src[i], e);
    }
  }

  lemma {:induction false} DescriptorCloned(h: Heap, p: Policy, r: Ref, desc: Descriptor)
    requires Ordered(h, r + 1) && DescBelow(desc, r)
    ensures var res := CloneDescriptor(h, p, r, desc);
            Ordered(res.0, r + 1) && DescCloned(|h|, res.0, p, desc, res.1)
    decreases r + 1, 0, 0
  {
    var res := CloneDescriptor(h, p, r, desc);
    OrderedExtends(h, res.0, r + 1);
    if desc.Data? && Truthy(desc.value) {
      FromIsClone(h, p, desc.value);
    }
  }

  lemma {:induction false} PropsCloned(h: Heap, p: Policy, r: Ref, props: seq<Property>, i: nat)
    requires Ordered(h, r + 1) && i <= |props|
    requires forall j :: 0 <= j < |props| ==> DescBelow(props[j].desc, r)
    ensures var res := CloneProps(h, p, r, props, i);
            Ordered(res.0, r + 1) &&
            forall j :: 0 <= j < |res.1| ==> DescCloned(|h|, res.0, p, props[i + j].desc, res.1[j].desc)
    decreases r + 1, 0, |props| - i
  {
    if i < |props| {
      var (h1, desc) := CloneDescriptor(h, p, r, props[i].desc);
      DescriptorCloned(h, p, r, props[i].desc);
      PropsCloned(h1, p, r, props, i + 1);
      var (h2, rest) := CloneProps(h1, p, r, props, i + 1);
      var all := [Property(props[i].key, desc)] + rest;
      assert CloneProps(h, p, r, props, i) == (h2, all);
      DescFrame(|h|, |h|, h1, h2, p, props[i].desc, desc);
      forall j | 0 <= j < |all| ensures DescCloned(|h|, h2, p, props[i + j].desc, all[j].desc) {
        if j > 0 {
          assert all[j] == rest[j - 1];
          DescFrame(|h1|, |h|, h2, h2, p, props[i + j].desc, rest[j - 1].desc);
        }
      }
    }
  }

  lemma {:induction false} ParentIsClone(h: Heap, p: Policy, r: Ref, proto: Proto)
    requires Ordered(h, r + 1) && (proto.ProtoRef? ==> proto.ref < r)
    ensures var res := ResolveParent(h, p, r, proto);
            Ordered(res.0, r + 1) && ParentCloned(|h|, res.0, p, proto, res.1)
    decreases r + 1, 0, 0
  {
    var res := ResolveParent(h, p, r, proto);
    OrderedExtends(h, res.0, r + 1);
    if p.includeInheritance && proto.ProtoRef? && proto.ref != ObjectPrototype {
      FromIsClone(h, p, Obj(proto.ref));
    }
  }

  lemma {:induction false} CloneObjectIsClone(h: Heap, p: Policy, r: Ref)
    requires Ordered(h, r + 1) && h[r].PlainObj?
    ensures var res := CloneObject(h, p, r); Ordered(res.0, r + 1) && IsClone(|h|, res.0, p, Obj(r), res.1)
    decreases r + 1, 1
  {
    var o := h[r];
    assert ObjectBelow(o, r);
    var cp := CloneProps(h, p, r, o.props, 0);
    PropsCloned(h, p, r, o.props, 0);
    var rp := ResolveParent(cp.0, p, r, o.proto);
    ParentIsClone(cp.0, p, r, o.proto);
    var d := |rp.0|;
    CloneObjectSteps(h, p, r);
    var h4 := (rp.0 + [PlainObj(Stored(cp.1), rp.1, true)])[d := PlainObj(Stored(cp.1), rp.1, o.extensible)];
    RecordIsClone(h, p, r, cp.0, cp.1, rp.0, rp.1, h4);
  }

  /** The last step of `cloneObject`: the record holding what the
      dictionary keeps of the cloned descriptors and the resolved
      prototype, with the source's flag. */
  lemma RecordIsClone(h: Heap, p: Policy, r: Ref, h1: Heap, props: seq<Property>, h2: Heap, parent: Proto, h4: Heap)
    requires Ordered(h, r + 1) && h[r].PlainObj? && ObjectBelow(h[r], r)
    requires Extends(h, h1) && Extends(h1, h2)
    requires |props| == |h[r].props|
    requires forall j :: 0 <= j < |props| ==> props[j].key == h[r].props[j].key
    requires Ordered(h1, r + 1) && forall j :: 0 <= j < |props| ==> DescCloned(|h|, h1, p, h[r].props[j].desc, props[j].desc)
    requires Ordered(h2, r + 1) && ParentCloned(|h1|, h2, p, h[r].proto, parent)
    requires h4 == (h2 + [PlainObj(Stored(props), parent, true)])[|h2| := PlainObj(Stored(props), parent, h[r].extensible)]
    ensures Ordered(h4, r + 1) && IsClone(|h|, h4, p, Obj(r), Obj(|h2|))
  {
    var o := h[r];
    assert Extends(h2, h4);
    assert Extends(h1, h4);
    var ix := KeptFrom(Keys(o.props), 0);
    assert Keys(props) == Keys(o.props);
    var kept := Stored(props);
    forall i | 0 <= i < |ix|
      ensures kept[i].key == o.props[ix[i]].key && DescCloned(|h|, h4, p, o.props[ix[i]].desc, kept[i].desc)
    {
      assert kept[i] == props[ix[i]];
      assert DescBelow(o.props[ix[i]].desc, r);
      DescFrame(|h|, |h|, h1, h4, p, o.props[ix[i]].desc, props[ix[i]].desc);
    }
    ParentFrame(|h1|, |h|, h2, h4, p, o.proto, parent);
    OrderedExtends(h, h4, r + 1);
    assert h4[r] == o;
  }

  // ---- consequences -------------------------------------------------------------

  /** Setting the time of a cloned date leaves the source date as it was. */
  lemma DateCloneIndependent(h: Heap, p: Policy, v: Value, t: int)
    requires Grounded(h, v) && TypeOf(h, v) == DateType
    ensures var r := From(h, p, v);
            r.1.Obj? && r.1.ref < |r.0| &&
            var h' := r.0[r.1.ref := DateObj(t)];
            h'[v.ref] == h[v.ref] && h'[r.1.ref].time == t && r.0[r.1.ref].time == h[v.ref].time
  {
    FromIsClone(h, p, v);
  }

  /** The prototype `k` levels above `s` (`s` itself at height 0). */
  function Ancestor(h: Heap, s: Proto, k: nat): (a: Proto)
    ensures a.ProtoRef? ==> s.ProtoRef?
    ensures a.ProtoRef? && Ordered(h, s.ref + 1) ==> a.ref <= s.ref
    decreases k
  {
    if k == 0 || s == NoProto then s
    else
      assert Ordered(h, s.ref + 1) ==> ObjectBelow(h[s.ref], s.ref);
      Ancestor(h, ProtoOfAt(h, s.ref), k - 1)
  }

  /** The `k` prototypes above `s` are records other than `Object.prototype`. */
  ghost predicate RecordChain(h: Heap, s: Ref, k: nat)
    decreases k
  {
    k == 0 ||
    var q := ProtoOfAt(h, s);
    q.ProtoRef? && q.ref != ObjectPrototype && q.ref < |h| && h[q.ref].PlainObj? && RecordChain(h, q.ref, k - 1)
  }

  /** Under `includeInheritance`, a record's clone has a chain of new records
      as long as the source's chain stays clear of `Object.prototype`, each a
      clone of the source ancestor at the same height; where the source's
      chain ends or reaches `Object.prototype`, so does the clone's. */
  lemma {:induction false} DeepChainFresh(n: nat, h: Heap, p: Policy, s: Ref, c: Ref, k: nat)
    requires p.includeInheritance && s < n && Ordered(h, s + 1) && h[s].PlainObj?
    requires IsClone(n, h, p, Obj(s), Obj(c))
    requires RecordChain(h, s, k)
    ensures var a := Ancestor(h, ProtoRef(s), k);
            var b := Ancestor(h, ProtoRef(c), k);
            && a.ProtoRef? && b.ProtoRef? && n <= b.ref < |h| && h[a.ref].PlainObj? && h[b.ref].PlainObj?
            && IsClone(n, h, p, Obj(a.ref), Obj(b.ref))
            && (h[a.ref].proto == NoProto ==> h[b.ref].proto == NoProto)
            && (h[a.ref].proto == ProtoRef(ObjectPrototype) ==> h[b.ref].proto == ProtoRef(ObjectPrototype))
    decreases k
  {
    assert ObjectBelow(h[s], s);
    if k > 0 {
      var q := h[s].proto;
      var cq := h[c].proto;
      assert ProtoOfAt(h, s) == q && ProtoOfAt(h, c) == cq;
      DeepChainFresh(n, h, p, q.ref, cq.ref, k - 1);
    }
  }
}
