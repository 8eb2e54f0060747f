/**
 An arbitrary, possibly cyclic, graph of JavaScript objects.
 */
module ObjectGraph {

  datatype Value = Nothing | Number(n: int) | Text(s: string) | Ref(id: nat) | OtherPrimitive

  /** A property; "enumerable" is false for one that is hidden from Object.keys or inherited. */
  datatype Property = Property(key: string, value: Value, enumerable: bool)

  datatype Obj = Obj(isArray: bool, elements: seq<Value>, properties: seq<Property>)

  type Heap = map<nat, Obj>

  predicate RefsIn(heap: Heap, v: Value) {
    v.Ref? ==> v.id in heap
  }

  ghost predicate Closed(heap: Heap) {
    forall id :: id in heap ==>
      && (forall v :: v in heap[id].elements ==> RefsIn(heap, v))
      && (forall p :: p in heap[id].properties ==> RefsIn(heap, p.value))
  }
}
