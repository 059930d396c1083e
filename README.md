# basicdays-clone in Dafny

This project models the object cloner of the `clone` component and proves what it
computes. The component has three copiers with different semantics, and each is
modelled on its own:

- **lib/clone.js**: the main cloner. `clone(x)` builds a cloner, an object created from
  `cloneTool` with an `attr` record holding two flags, `includeInheritance` and
  `includeArrays`. The chainable getters set these flags. `from(v)` dispatches on the
  runtime type of `v`:
  - a date is rebuilt from its time;
  - an array is copied element by element, through `clone(e)` when `includeArrays` is set;
  - a plain record is rebuilt from its own property descriptors. A truthy data value is
    cloned by the same cloner. The prototype is cloned as well when `includeInheritance`
    is set and the prototype is neither null nor `Object.prototype`. The source's
    extensibility is mirrored on the result, walking both prototype chains under
    `includeInheritance`;
  - anything else is returned as it is.
- **index.js** and **clone.js**: two older shallow record copiers. Each takes over the
  source's own string-keyed descriptors verbatim, shares its prototype and mirrors its
  extensibility. Their deep paths call a `clone` that index.js never declares, and
  `this.clone` in clone.js.

The JavaScript heap is explicit:
- `JsHeap.Heap` is a sequence of objects and a reference is an index into it; allocation
  appends an object.
- Two references are reserved: `Object.prototype` (0) and the shared `cloneTool` (1).
- Values are primitives, opaque function references and object references.
- Objects are dates with an integer time, arrays of values, plain records, and opaque
  objects. A plain record has an ordered list of own string-keyed properties (symbol keys are not
  modelled), each with a data or an
  accessor descriptor, a prototype slot and an extensibility flag. Opaque objects stand
  for regular expressions, errors, boxed primitives and the like.

The JavaScript code keeps no record of the objects it has visited. A cycle that the
recursion follows therefore recurses until the stack overflows, which ends in a
`RangeError`. The recursion always follows truthy data values of records, follows array
elements only under `includeArrays`, and follows prototypes only under
`includeInheritance`. The model requires an acyclic input: `Ordered(h, n)` says every
object below `n` only refers to objects allocated before it. This is also what the
recursion decreases on.

The `destProperties` dictionary into which lib/clone.js, index.js and clone.js store
each descriptor by name is a plain `{}`. Storing under the name `__proto__` runs the
setter that the dictionary inherits from `Object.prototype` and creates no own entry, so
`Object.create` never gives the copy that property. `JsHeap.Stored` is what the
dictionary keeps of a property list: every entry except `__proto__`, in order.

`JsHeap.Truthy` models the truth tests `if (srcObj)`, `if (descriptor.value)` and
`deepCopy && ...`. `JsHeap.ExtAt`, `JsHeap.ProtoOfAt`, `JsHeap.PreventExtensions` and
`JsHeap.SetElement` model the built-ins `Object.isExtensible`, `Object.getPrototypeOf`,
`Object.preventExtensions` and the element store `destObj[i] = ...`. In the imperative
modules, the methods of class `JsHeap.Memory` perform these updates in place:
- `Alloc` is the allocation of `Object.create`, `new Date` and `new Array`;
- `WriteElement` is `destObj[i] = ...` (lib/clone.js:68);
- `MakeNonExtensible` is `Object.preventExtensions` (lib/clone.js:123, index.js:42, clone.js:4);
- `AddDataProperty` is `cloner.attr = {...}` (lib/clone.js:139).

Module layout:
- `JsHeap` (js_heap.dfy): values, descriptors, objects, the heap, and the object
  operations the cloners use. Class `Memory` holds the heap for the operations that
  update it in place.
- `CloneSpec` (clone_spec.dfy): lib/clone.js as functions over the heap. They allocate
  in the same order as the JavaScript and return the new heap with the result.
- `Cloning` (cloning.dfy): lib/clone.js in its own, imperative form. Class `Cloner` has
  the two flags as fields; it has the getters and the copy methods, with the loops of
  `cloneArray` and `cloneObject`. Each method is proved to compute exactly what
  `CloneSpec` defines.
- `CloneMeaning` (clone_meaning.dfy): `IsClone`, a definition of what a clone is that
  does not say how it is computed, and the theorem `FromIsClone` that `from` produces
  one. It also holds the consequences: date independence and the freshness of a deep
  clone's prototype chain.
- `IndexCopier` (index_copier.dfy) and `CloneJsCopier` (clone_copier.dfy): the two
  older copiers. Each has a specification function, the step-by-step methods, and the
  lemma that a copy is the source record at a new reference, less any own `__proto__`
  entry (an exact duplicate when the source has none).

## Model

| member | source | states |
|---|---|---|
| JsHeap.TypeOf | lib/clone.js:19-28 | only object references are typed date, array or object; primitives and functions fall to the pass-through branch |
| JsHeap.PreventExtensions | lib/clone.js:122-124 | `Object.preventExtensions` clears the flag of the target record only, never sets a flag, and leaves every other object alone |
| JsHeap.Stored | lib/clone.js:102 | what the `destProperties` dictionary keeps: only entries of the list, none named `__proto__` |
| JsHeap.KeptFromComplete | lib/clone.js:102 | the dictionary keeps every entry not named `__proto__` |
| JsHeap.KeptFromIncreasing | lib/clone.js:102 | the kept entries stay in the source's order |
| JsHeap.StoredWhole | lib/clone.js:102 | a list without a `__proto__` entry is kept whole |
| JsHeap.SetElement | lib/clone.js:68 | `destObj[i] = v` sets index i to v, and changes no other index and no other object |
| JsHeap.ProtoOfAt | lib/clone.js:125-126 | only a plain record reports a prototype, and it is the record's own prototype slot |
| CloneSpec.From | lib/clone.js:18-30 | the heap only grows; a value that is not a date, array or record comes back as it is with no allocation; any other value gives a newly allocated object, whose extensibility chain mirrors the source's |
| CloneSpec.CloneDate | lib/clone.js:80-82 | a new date, allocated past the old heap, with the source's time |
| CloneSpec.DefaultClone | lib/clone.js:137-147 | `clone(v)` as `cloneArray` calls it: a falsy `v` gives a new cloner with both flags false (a cloner record inheriting from `cloneTool` and its `attr` record) |
| CloneSpec.CloneArray | lib/clone.js:65-71 | a new array of the source's length; the heap only grows |
| CloneSpec.CloneArrayShape | lib/clone.js:65-71 | without `includeArrays` the new array holds exactly the source's elements |
| CloneSpec.FillElements | lib/clone.js:67-69 | the loop writes only into the new array, which keeps the source's length |
| CloneSpec.FillElementsShape | lib/clone.js:67-69 | indices not yet reached are left alone; without `includeArrays` index j receives `src[j]` |
| CloneSpec.FillStep | lib/clone.js:67-69 | proof step for the loop of `Cloning.Cloner.FillArray`: one iteration (clone or keep element i, store it) keeps the loop's state and moves on to the next index |
| CloneSpec.CloneProps | lib/clone.js:97-103 | the `forEach` yields one descriptor per own property, under the same names in the same order, and the heap only grows |
| CloneSpec.CloneDescriptor | lib/clone.js:98-101 | one `forEach` step only grows the heap; a falsy value or an accessor pair is kept with the heap untouched; a data descriptor keeps its flags; that a truthy value is replaced by its clone is stated by `CloneMeaning.DescriptorCloned` |
| CloneSpec.PropsStep | lib/clone.js:97-103 | proof step for the loop of `Cloning.Cloner.CloneDescriptors`: one iteration of the `forEach` cloned the descriptor of property i; the rest follow |
| CloneSpec.ResolveParent | lib/clone.js:105-107 | the prototype is shared unless `includeInheritance` holds and it is neither null nor `Object.prototype`; a null prototype stays null; the result mirrors the source's extensibility chain |
| CloneSpec.CloneObject | lib/clone.js:90-111 | a new record, allocated past the old heap, with the source's property names other than `__proto__`, in order; its extensibility chain mirrors the source's |
| CloneSpec.WalkFromNewRecord | lib/clone.js:108-109 | the walk `cloneObject` starts on the record it just created changes only that record's flag, setting it equal to the source's |
| CloneSpec.SetObjExtensible | lib/clone.js:121-128 | the walk keeps the heap's size |
| CloneSpec.SetObjExtensibleClears | lib/clone.js:121-128 | the walk only ever clears record flags, and clears the target's when the source is not extensible |
| CloneSpec.MirroredWalkIsNoop | lib/clone.js:121-128 | walking two chains that already mirror each other changes nothing |
| Cloning.Cloner.constructor | lib/clone.js:138-142 | a new cloner has both flags false |
| Cloning.Cloner.IncludeInheritance | lib/clone.js:36-39 | sets `includeInheritance`, keeps `includeArrays`, returns the same cloner |
| Cloning.Cloner.IncludeArrays | lib/clone.js:45-48 | sets `includeArrays`, keeps `includeInheritance`, returns the same cloner |
| Cloning.Cloner.And | lib/clone.js:54-56 | returns the same cloner and changes nothing |
| Cloning.Cloner.From | lib/clone.js:18-30 | the dispatcher leaves the heap and returns the value `CloneSpec.From` defines under the cloner's flags, and cannot change the flags |
| Cloning.Cloner.CloneDate | lib/clone.js:80-82 | equals `CloneSpec.CloneDate` |
| Cloning.Cloner.CloneArray | lib/clone.js:65-71 | equals `CloneSpec.CloneArray` under the cloner's flags |
| Cloning.Cloner.FillArray | lib/clone.js:67-69 | the index loop leaves the heap `CloneSpec.FillElements` defines |
| Cloning.Cloner.ElementFor | lib/clone.js:68 | stores `clone(v)` under `includeArrays`, `v` itself otherwise |
| Cloning.Cloner.CloneObject | lib/clone.js:90-111 | equals `CloneSpec.CloneObject` under the cloner's flags |
| Cloning.Cloner.CloneDescriptors | lib/clone.js:97-103 | the `forEach` yields the descriptors and heap `CloneSpec.CloneProps` defines |
| Cloning.Cloner.CloneDescriptor | lib/clone.js:98-101 | a data descriptor with a truthy value gets the clone of the value; any other descriptor is kept |
| Cloning.Cloner.SetObjExtensible | lib/clone.js:121-128 | the recursive walk leaves the heap `CloneSpec.SetObjExtensible` defines |
| Cloning.CloneElement | lib/clone.js:137-147 | `clone(v)` inside `cloneArray` leaves the heap and the value `CloneSpec.DefaultClone` defines |
| Cloning.Clone | lib/clone.js:137-147 | a falsy `x` gets a new cloner with both flags false; the modelled heap is untouched, because the cloner is a Dafny object outside it; a truthy `x` gets `from(x)` under the default flags |
| CloneMeaning.FromIsClone | lib/clone.js:18-30 | every result of `from` is a clone in the sense of `IsClone`: dates new with the same time; arrays new, of the same length, with shared elements or default clones; records new, with the source's properties other than `__proto__` under the same names and flags, truthy data values cloned, falsy values and accessors verbatim, the prototype rule, and the source's extensibility; everything allocated is new |
| CloneMeaning.DefaultCloneIsClone | lib/clone.js:137-147 | an array element under `includeArrays` becomes a new default cloner if falsy, and a default-policy clone otherwise, which does not inherit `includeInheritance` |
| CloneMeaning.CloneArrayIsClone | lib/clone.js:65-71 | the new array is a clone of the source array |
| CloneMeaning.FillElementsCloned | lib/clone.js:67-69 | every index the loop visits holds the clone of the source element the policy asks for |
| CloneMeaning.DescriptorCloned | lib/clone.js:98-101 | each descriptor keeps its flags; only a truthy data value is replaced, by its clone under the same cloner |
| CloneMeaning.PropsCloned | lib/clone.js:97-103 | all descriptors produced by the `forEach` are cloned descriptors |
| CloneMeaning.ParentIsClone | lib/clone.js:105-107 | the resolved prototype is the source's own, or under `includeInheritance` a clone of it, unless it is null or `Object.prototype` |
| CloneMeaning.CloneObjectIsClone | lib/clone.js:90-111 | the new record is a clone of the source record |
| CloneMeaning.RecordIsClone | lib/clone.js:108-110 | the created record with the cloned descriptors, the resolved prototype and the mirrored flag is a clone |
| CloneMeaning.DateCloneIndependent | lib/clone.js:80-82 | after a date is cloned, setting the clone's time leaves the source's time as it was |
| CloneMeaning.DeepChainFresh | lib/clone.js:105-107 | under `includeInheritance`, every ancestor of a record's clone is a new record cloned from the source's ancestor at the same height, as far as the source's chain stays clear of `Object.prototype`; where the source's chain ends or reaches `Object.prototype`, the clone's does too |
| IndexCopier.WithExtensibility | index.js:38-47 | flags are only cleared; the target's is cleared when the source is not extensible and left as it was when the source is extensible; with `deepCopy` the same holds one level up, for the two prototypes; nothing else changes, so mirroring goes at most one level up |
| IndexCopier.CopyOf | index.js:12-29 | the call throws exactly when `deepCopy` is truthy and the prototype is non-null, with a `ReferenceError` and the heap untouched; otherwise it returns one new object |
| IndexCopier.CopyIsDuplicate | index.js:12-29 | a copy is the source record itself at a new reference, except that a `__proto__` entry is dropped: identical descriptors under the same names, shared prototype, the same extensibility, no other object changed; without a `__proto__` entry it is an exact duplicate |
| IndexCopier.Copy | index.js:12-29 | the copier leaves the heap and returns the outcome `CopyOf` defines |
| IndexCopier.SetExtensible | index.js:38-47 | leaves the heap `WithExtensibility` defines |
| CloneJsCopier.WithExtensibility | clone.js:3-8 | flags are only cleared; the target's is cleared when the source is not extensible and left as it was when the source is extensible; with `deepCopy` the same holds one level up, for the two prototypes; nothing else changes |
| CloneJsCopier.CopyOf | clone.js:10-27 | called without a receiver, the call throws a `TypeError` exactly when `deepCopy` is truthy and the prototype is non-null, leaving the heap untouched; otherwise it returns one new object |
| CloneJsCopier.CopyIsDuplicate | clone.js:10-27 | a copy is the source record itself at a new reference, except that a `__proto__` entry is dropped: verbatim descriptors, shared prototype, the same extensibility; without a `__proto__` entry it is an exact duplicate |
| CloneJsCopier.Copy | clone.js:10-27 | the copier leaves the heap and returns the outcome `CopyOf` defines |
| CloneJsCopier.SetExtensible | clone.js:3-8 | leaves the heap `WithExtensibility` defines |

## Left out

- The `component-type` / `type-component` loader (lib/clone.js:4-9) is replaced by `JsHeap.TypeOf`, which reads the object's tag.
- The export lines of lib/clone.js (149-150) only publish `clone` and `cloneTool`, and are not modelled.
- Cyclic inputs are not modelled: `Ordered` and `Grounded` require the whole object graph below the source to be acyclic. This also excludes cyclic inputs the source clones normally, because the cycle runs through a link the recursion does not follow. Examples are a record that holds an array containing the record, cloned without `includeArrays`, or a cycle through a prototype, cloned without `includeInheritance`. A cycle the recursion does follow ends in a stack-overflow `RangeError`, which is not modelled either.
- Numbers are integers: NaN, -0 and other floating-point values are not modelled, and neither is date calendar arithmetic. A date's time is an opaque integer.
- Arrays, dates and opaque objects carry no prototype, no extensibility flag and no own named properties in the model. They read as extensible and as having a null prototype, so the extensibility walk stops at them. `cloneArray` and `cloneDate` drop named properties such as `arr.foo` (lib/clone.js:66-69, 81), and the model cannot show that.
- Accessor functions and methods are opaque references: the cloners never invoke or inspect them.
- `from` ignores any second argument the tests pass it, and the model takes none.
- `clone(x)` for a truthy `x` also allocates the cloner and its `attr` record; that garbage is not put on the modelled heap. For a falsy `x`, `Cloning.Clone` returns a `Cloner` object that lives outside `JsHeap`. The program allocates that cloner and its `attr` record on its heap (lib/clone.js:138-142), but the model does not, so such a cloner cannot be stored in a `Value` or cloned again. Inside `cloneArray`, a falsy element's cloner is put on the heap, since the array keeps it.
- The `destProperties` dictionaries are local to the call and are not heap objects in the model. The prototype that the `__proto__` setter gives a dictionary is never read again, so it is not modelled. The loops collect every descriptor, and `Stored` is applied where `Object.create` reads the dictionary; the record that results is the same.
- Property lists are kept in the order `Object.getOwnPropertyNames` lists them. That order already puts integer-like keys first, so `Object.create` keeps it.
- An object's own property names are distinct, so `getOwnPropertyDescriptor(obj, name)` is modelled as the descriptor at that position.
- IndexCopier.Copy and CloneJsCopier.Copy: the source must be a plain record. Passing an array, date or primitive to these copiers is not modelled.
- CloneJsCopier.Copy: models the call without a receiver, as the repository's tests make it. Invoked as a method, the deep path would call foreign code through `this.clone`, which is not part of this model.
- IndexCopier.Copy and CloneJsCopier.Copy: only the deep path's error outcome is modelled. In index.js it always throws a `ReferenceError`. In clone.js it throws a `TypeError` on the call without a receiver modelled here, and it proceeds only when invoked as a method (previous line). No working deep copy is assumed for either.
- A prototype is a heap reference, while functions are `Fn` values outside the heap. A record whose prototype is a function (`Object.create(f)`) therefore gets an opaque stand-in for `f`, and the model cannot say that the stand-in and an `Fn` property value are the same function. The clone shares that prototype either way (lib/clone.js:26-28, 105-106), so no result changes.
- Proxies and host objects are not modelled.
- Property keys are strings. Symbol-keyed own properties are not modelled; `getOwnPropertyNames` skips them (lib/clone.js:92, index.js:13, clone.js:11), so all three copiers drop them. The statements above that a copy is the source record at a new reference, or keeps the source's properties other than `__proto__`, hold for string keys only.
- `Object.getPrototypeOf(null)` would throw in `setObjExtensible` when the clone's chain ends before the source's. This cannot happen in the model, where arrays and dates have no prototype, and the model treats it as a null prototype. In the program, a record whose prototype is an array or a date pairs that chain with `Array.prototype` or `Date.prototype`. The walk can then call `preventExtensions` on those shared built-ins and throw on `Object.getPrototypeOf(null)`; this is not modelled.
