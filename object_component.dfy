/**
 * The sequencer's object component: a reference to an object held either strongly
 * (raw pointer, default key) or weakly (raw pointer plus the object's key), with
 * component equality and hashing that prefer the key whenever either side has one.
 *
 * An object is identified by its address and by the key that the object table hands
 * out for it (slot index and serial number). Two objects may share an address over
 * time (the second allocated after the first was destroyed) while their keys differ.
 */
module ObjectComponents {

  /** A non-null address. */
  type Address = a: nat | a > 0 witness 1

  /** A raw object pointer; the object table slot and serial number travel with it. */
  datatype ObjectRef = NullRef | ObjectAt(address: Address, index: nat, serial: nat)

  /** The integer value of a pointer, zero for null. */
  function PointerValue(p: ObjectRef): (v: nat)
    ensures v == 0 <==> p.NullRef?
  {
    if p.NullRef? then 0 else p.address
  }

  /** Raw pointer comparison: only the addresses matter. */
  predicate SamePointer(a: ObjectRef, b: ObjectRef) {
    PointerValue(a) == PointerValue(b)
  }

  /** An object key: slot index and serial number; INDEX_NONE and serial 0 by default. */
  datatype ObjectKey = ObjectKey(objectIndex: int, serialNumber: int)

  const IndexNone: int := -1
  const DefaultKey: ObjectKey := ObjectKey(IndexNone, 0)

  /** The key of an object; the null pointer has the default key. */
  function KeyOf(p: ObjectRef): (k: ObjectKey)
    ensures k == DefaultKey <==> p.NullRef?
  {
    if p.NullRef? then DefaultKey else ObjectKey(p.index, p.serial)
  }

  datatype ObjectComponent = ObjectComponent(objectPtr: ObjectRef, objectKey: ObjectKey)

  /** The default-constructed component. */
  function DefaultComponent(): (c: ObjectComponent)
    ensures !IsValid(c) && c.objectKey == DefaultKey
  {
    ObjectComponent(NullRef, DefaultKey)
  }

  /** A null component, identical to the default-constructed one. */
  function Null(): (c: ObjectComponent)
    ensures !IsValid(c) && c == DefaultComponent()
  {
    ObjectComponent(NullRef, DefaultKey)
  }

  /** A strongly referenced component: the pointer with the default key. */
  function Strong(o: ObjectRef): (c: ObjectComponent)
    ensures IsValid(c) <==> !o.NullRef?
    ensures EqualsObject(c, o) && c.objectKey == DefaultKey
  {
    ObjectComponent(o, DefaultKey)
  }

  /** A weakly referenced component: the pointer together with the object's key. */
  function Weak(o: ObjectRef): (c: ObjectComponent)
    ensures IsValid(c) <==> !o.NullRef?
    ensures EqualsObject(c, o) && c.objectKey == KeyOf(o)
  {
    ObjectComponent(o, KeyOf(o))
  }

  /** Whether the component holds a non-null pointer. */
  predicate IsValid(c: ObjectComponent) {
    c.objectPtr != NullRef
  }

  /** Comparison with a raw pointer, which looks at the pointer only. */
  predicate EqualsObject(c: ObjectComponent, o: ObjectRef) {
    SamePointer(c.objectPtr, o)
  }

  /** The negation of the comparison with a raw pointer. */
  predicate NotEqualsObject(c: ObjectComponent, o: ObjectRef) {
    !SamePointer(c.objectPtr, o)
  }

  /** Component equality: keys decide when either key is set, pointers decide otherwise. */
  predicate Equals(a: ObjectComponent, b: ObjectComponent) {
    if a.objectKey != DefaultKey || b.objectKey != DefaultKey then a.objectKey == b.objectKey
    else SamePointer(a.objectPtr, b.objectPtr)
  }

  /**
   * The component's hash: the key's hash when the key is set, the pointer's hash otherwise.
   * The hashes of keys and of pointer values are given.
   */
  function GetTypeHash(c: ObjectComponent, keyHash: ObjectKey -> nat, pointerHash: nat -> nat): nat {
    if c.objectKey != DefaultKey then keyHash(c.objectKey) else pointerHash(PointerValue(c.objectPtr))
  }

  /** `!=` with a raw pointer is exactly the negation of `==`. */
  lemma NotEqualsIsNegation(c: ObjectComponent, o: ObjectRef)
    ensures NotEqualsObject(c, o) <==> !EqualsObject(c, o)
  {
  }

  /** Component equality is an equivalence relation. */
  lemma EqualsIsEquivalence(a: ObjectComponent, b: ObjectComponent, c: ObjectComponent)
    ensures Equals(a, a)
    ensures Equals(a, b) ==> Equals(b, a)
    ensures Equals(a, b) && Equals(b, c) ==> Equals(a, c)
  {
  }

  /** Equal components have equal hashes, so components can key a hash map. */
  lemma EqualComponentsHashEqual(a: ObjectComponent, b: ObjectComponent,
                                 keyHash: ObjectKey -> nat, pointerHash: nat -> nat)
    requires Equals(a, b)
    ensures GetTypeHash(a, keyHash, pointerHash) == GetTypeHash(b, keyHash, pointerHash)
  {
    if a.objectKey != DefaultKey || b.objectKey != DefaultKey {
      assert a.objectKey == b.objectKey;
    } else {
      assert PointerValue(a.objectPtr) == PointerValue(b.objectPtr);
    }
  }

  /** Two strong components are equal exactly when they point at the same address. */
  lemma StrongEqualsByPointer(a: ObjectRef, b: ObjectRef)
    ensures Equals(Strong(a), Strong(b)) <==> SamePointer(a, b)
  {
  }

  /** Two weak components are equal exactly when the objects' keys are equal, whatever their addresses. */
  lemma WeakEqualsByKey(a: ObjectRef, b: ObjectRef)
    ensures Equals(Weak(a), Weak(b)) <==> KeyOf(a) == KeyOf(b)
  {
  }

  /**
   * A later object allocated at a destroyed object's address compares equal to a raw pointer
   * to the old one, but a weak component to it is not equal to a weak component to the old one.
   */
  lemma ReusedAddressDistinguishedByKey(a: ObjectRef, b: ObjectRef)
    requires a.ObjectAt? && b.ObjectAt? && a.address == b.address && a.serial != b.serial
    ensures EqualsObject(Weak(a), b)
    ensures !Equals(Weak(a), Weak(b))
    ensures Equals(Strong(a), Strong(b))
  {
  }

  /** A strong and a weak component to the same non-null object are never equal. */
  lemma StrongNeverEqualsWeak(o: ObjectRef)
    requires !o.NullRef?
    ensures !Equals(Strong(o), Weak(o))
    ensures EqualsObject(Strong(o), o) && EqualsObject(Weak(o), o)
  {
  }

  /** A weak component to null is the null component. */
  lemma WeakNullIsNull()
    ensures Weak(NullRef) == Null()
    ensures Equals(Weak(NullRef), Null())
  {
  }
}
