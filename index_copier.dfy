/** The record copier of index.js: a shallow copy of one record with the
    source's own descriptors, its prototype and its extensibility. Its deep
    path names `clone`, which that strict-mode module never declares. */
module IndexCopier {
  import opened JsHeap

  /** `setExtensible(srcObj, destObj, deepCopy)`: `preventExtensions` on `d`
      when `s` is not extensible and, when `deepCopy` holds and `s` has a
      prototype, the same once more for the two prototypes, with `deepCopy`
      left out of that call. */
  function WithExtensibility(h: Heap, s: Ref, d: Proto, deep: bool): (h': Heap)
    ensures |h'| == |h|
    ensures forall k :: 0 <= k < |h| ==> h'[k] == h[k] || (h[k].PlainObj? && h'[k] == h[k].(extensible := false))
    ensures forall k :: 0 <= k < |h| && ExtAt(h', k) ==> ExtAt(h, k)
    ensures d.ProtoRef? && d.ref < |h| && h[d.ref].PlainObj? && !ExtAt(h, s) ==> !ExtAt(h', d.ref)
    ensures deep && ProtoOfAt(h, s).ProtoRef? && !ExtAt(h, ProtoOfAt(h, s).ref) &&
            ProtoOf(h, d).ProtoRef? && ProtoOf(h, d).ref < |h| && h[ProtoOf(h, d).ref].PlainObj? ==>
              !ExtAt(h', ProtoOf(h, d).ref)
    ensures d.ProtoRef? && d.ref < |h| && ExtAt(h, s) && !(deep && ProtoOfAt(h, s).ProtoRef? && ProtoOf(h, d) == d) ==>
              h'[d.ref] == h[d.ref]
    ensures deep && ProtoOfAt(h, s).ProtoRef? && ExtAt(h, ProtoOfAt(h, s).ref) &&
            (d.ProtoRef? ==> ProtoOfAt(h, s).ref != d.ref) &&
            ProtoOf(h, d).ProtoRef? && ProtoOf(h, d).ref < |h| && ProtoOf(h, d) != d ==>
              h'[ProtoOf(h, d).ref] == h[ProtoOf(h, d).ref]
    ensures forall k :: 0 <= k < |h| && (d.ProtoRef? ==> k != d.ref) &&
                        (deep && ProtoOfAt(h, s).ProtoRef? && ProtoOf(h, d).ProtoRef? ==> k != ProtoOf(h, d).ref) ==>
              h'[k] == h[k]
    decreases if deep then 1 else 0
  {
    var h1 := if !ExtAt(h, s) then PreventExtensions(h, d) else h;
    if deep && ProtoOfAt(h1, s).ProtoRef? then
      WithExtensibility(h1, ProtoOfAt(h1, s).ref, ProtoOf(h1, d), false)
    else h1
  }

  /** The exported function with `deepCopy` read as a truth value: the heap
      after the call and how the call ends. */
  function CopyOf(h: Heap, r: Ref, deep: bool): (res: (Heap, Completion))
    requires r < |h| && h[r].PlainObj?
    ensures res.1.Threw? <==> deep && h[r].proto.ProtoRef?
    ensures res.1.Threw? ==> res.1.error == ReferenceError && res.0 == h
    ensures res.1.Returned? ==> res.1.ref == |h| && |res.0| == |h| + 1 && res.0[..|h|] == h
  {
    var o := h[r];
    if deep && o.proto.ProtoRef? then (h, Threw(ReferenceError))
    else
      var h1 := h + [PlainObj(Stored(o.props), o.proto, true)];
      (WithExtensibility(h1, r, ProtoRef(|h|), deep), Returned(|h|))
  }

  /** The copy is a duplicate of the source record at a new reference: the
      same descriptors under the same names, except a `__proto__` entry, which
      the `destProperties` dictionary does not keep; the same prototype and
      the same extensibility, with no other object changed. A deep copy of a record
      with any prototype, `Object.prototype` included, throws a
      `ReferenceError` and changes nothing. */
  lemma CopyIsDuplicate(h: Heap, r: Ref, deep: bool)
    requires r < |h| && h[r].PlainObj?
    ensures deep && h[r].proto.ProtoRef? ==> CopyOf(h, r, deep) == (h, Threw(ReferenceError))
    ensures !(deep && h[r].proto.ProtoRef?) ==>
              CopyOf(h, r, deep) == (h + [h[r].(props := Stored(h[r].props))], Returned(|h|))
    ensures !(deep && h[r].proto.ProtoRef?) && (forall j :: 0 <= j < |h[r].props| ==> h[r].props[j].key != ProtoKey) ==>
              CopyOf(h, r, deep) == (h + [h[r]], Returned(|h|))
  {
    var o := h[r];
    if !(deep && o.proto.ProtoRef?) {
      var h1 := h + [PlainObj(Stored(o.props), o.proto, true)];
      var h2 := if !ExtAt(h1, r) then PreventExtensions(h1, ProtoRef(|h|)) else h1;
      assert h2 == h + [o.(props := Stored(o.props))];
      assert ProtoOfAt(h2, r) == o.proto;
      if forall j :: 0 <= j < |o.props| ==> o.props[j].key != ProtoKey {
        StoredWhole(o.props);
        assert o.(props := Stored(o.props)) == o;
      }
    }
  }

  /** The exported copier, step by step. */
  method Copy(m: Memory, obj: Ref, deepCopy: Value) returns (res: Completion)
    requires obj < |m.objs| && m.objs[obj].PlainObj?
    modifies m
    ensures (m.objs, res) == CopyOf(old(m.objs), obj, Truthy(deepCopy))
  {
    var properties := m.objs[obj].props;
    var parent := m.objs[obj].proto;
    var deep := Truthy(deepCopy);
    var destProperties: seq<Property> := [];
    var i := 0;
    while i < |properties|
      invariant 0 <= i <= |properties|
      invariant destProperties == properties[..i]
    {
      destProperties := destProperties + [Property(properties[i].key, properties[i].desc)];
      i := i + 1;
    }
    assert destProperties == properties;
    if deep && parent.ProtoRef? {
      return Threw(ReferenceError);
    }
    var destObj := m.Alloc(PlainObj(Stored(destProperties), parent, true));
    SetExtensible(m, obj, ProtoRef(destObj), deep);
    res := Returned(destObj);
  }

  /** `setExtensible`, step by step. */
  method SetExtensible(m: Memory, srcObj: Ref, destObj: Proto, deepCopy: bool)
    modifies m
    ensures m.objs == WithExtensibility(old(m.objs), srcObj, destObj, deepCopy)
    decreases if deepCopy then 1 else 0
  {
    if !ExtAt(m.objs, srcObj) {
      m.MakeNonExtensible(destObj);
    }
    var srcParent := ProtoOfAt(m.objs, srcObj);
    if deepCopy && srcParent.ProtoRef? {
      SetExtensible(m, srcParent.ref, ProtoOf(m.objs, destObj), false);
    }
  }
}
