/**
 Which of several hits a depth-first walk finds.

 Search is a walk with one set of visited objects, as the clients do it; it enters no object twice. First is
 the plain search: it tries the values of an object one after the other, remembers nothing but the objects
 on its own path, and stops at the first hit. It may enter an object very often. Both find the same hit, on
 every graph, for every order of the values and every notion of a hit.
 */
module WalkOrder {

  import opened Wrappers
  import opened ObjectGraph

  // The values of an object, in the order in which a walk visits them.
  type Values = Obj -> seq<Value>

  // What a value itself shows.
  type Hit<R> = Value -> Option<R>

  // ---------------------------------------------------------------------------------------------
  // The plain search
  // ---------------------------------------------------------------------------------------------

  ghost function First<R>(heap: Heap, values: Values, hit: Hit<R>, path: set<nat>, v: Value): Option<R>
    decreases heap.Keys - path, 0
  {
    if v.Ref? && v.id in path then None
    else if hit(v).Some? then hit(v)
    else if v.Ref? && v.id in heap then FirstOf(heap, values, hit, path + {v.id}, values(heap[v.id]))
    else None
  }

  ghost function FirstOf<R>(heap: Heap, values: Values, hit: Hit<R>, path: set<nat>, vs: seq<Value>): Option<R>
    decreases heap.Keys - path, 1, |vs|
  {
    if vs == [] then None
    else
      var found := First(heap, values, hit, path, vs[0]);
      if found.Some? then found else FirstOf(heap, values, hit, path, vs[1..])
  }

  // ---------------------------------------------------------------------------------------------
  // The search that remembers
  // ---------------------------------------------------------------------------------------------

  datatype Trace<R> = Trace(found: Option<R>, seen: set<nat>)

  ghost function Search<R>(heap: Heap, values: Values, hit: Hit<R>, seen: set<nat>, v: Value): (t: Trace<R>)
    ensures seen <= t.seen
    decreases heap.Keys - seen, 0
  {
    if v.Ref? && v.id in seen then Trace(None, seen)
    else if v.Ref? && v.id in heap then
      if hit(v).Some? then Trace(hit(v), seen + {v.id})
      else SearchAll(heap, values, hit, seen + {v.id}, values(heap[v.id]))
    else Trace(hit(v), seen)
  }

  ghost function SearchAll<R>(heap: Heap, values: Values, hit: Hit<R>, seen: set<nat>, vs: seq<Value>): (t: Trace<R>)
    ensures seen <= t.seen
    decreases heap.Keys - seen, 1, |vs|
  {
    if vs == [] then Trace(None, seen)
    else
      var t := Search(heap, values, hit, seen, vs[0]);
      assert heap.Keys - t.seen <= heap.Keys - seen;
      if t.found.Some? then t else SearchAll(heap, values, hit, t.seen, vs[1..])
  }

  lemma {:induction false} SearchConcat<R>(heap: Heap, values: Values, hit: Hit<R>, seen: set<nat>, a: seq<Value>,
                                           b: seq<Value>)
    ensures var t := SearchAll(heap, values, hit, seen, a);
            SearchAll(heap, values, hit, seen, a + b)
            == if t.found.Some? then t else SearchAll(heap, values, hit, t.seen, b)
    decreases |a|
  {
    if a == [] {
      assert a + b == b;
    } else {
      assert (a + b)[1..] == a[1..] + b;
      var t := Search(heap, values, hit, seen, a[0]);
      SearchConcat(heap, values, hit, t.seen, a[1..], b);
    }
  }

  // ---------------------------------------------------------------------------------------------
  // They find the same
  // ---------------------------------------------------------------------------------------------

  // The value is no hit, or it is an object of the set.
  ghost predicate Finished<R>(heap: Heap, hit: Hit<R>, objects: set<nat>, v: Value) {
    if v.Ref? && v.id in heap then v.id in objects else hit(v).None?
  }

  // Nothing is to be found behind these objects except through the path.
  ghost predicate Dead<R>(heap: Heap, values: Values, hit: Hit<R>, objects: set<nat>, path: set<nat>) {
    forall id :: id in objects ==>
      && id in heap && hit(Ref(id)).None?
      && forall v :: v in values(heap[id]) ==> Finished(heap, hit, objects + path, v)
  }

  // A path that goes on from a dead object meets itself.
  lemma {:induction false} DeadFindsNothing<R>(heap: Heap, values: Values, hit: Hit<R>, objects: set<nat>,
                                               before: set<nat>, path: set<nat>, v: Value)
    requires Dead(heap, values, hit, objects, before) && before <= path <= heap.Keys
    requires Finished(heap, hit, objects + before, v)
    ensures First(heap, values, hit, path, v) == None
    decreases heap.Keys - path, 0
  {
    if v.Ref? && v.id in heap && v.id !in path {
      DeadFindNothing(heap, values, hit, objects, before, path + {v.id}, values(heap[v.id]));
    }
  }

  lemma {:induction false} DeadFindNothing<R>(heap: Heap, values: Values, hit: Hit<R>, objects: set<nat>,
                                              before: set<nat>, path: set<nat>, vs: seq<Value>)
    requires Dead(heap, values, hit, objects, before) && before <= path <= heap.Keys
    requires forall v :: v in vs ==> Finished(heap, hit, objects + before, v)
    ensures FirstOf(heap, values, hit, path, vs) == None
    decreases heap.Keys - path, 1, |vs|
  {
    if vs != [] {
      DeadFindsNothing(heap, values, hit, objects, before, path, vs[0]);
      DeadFindNothing(heap, values, hit, objects, before, path, vs[1..]);
    }
  }

  // An object is dead, except through the path to it, once its values are finished.
  lemma ObjectDies<R>(heap: Heap, values: Values, hit: Hit<R>, path: set<nat>, id: nat, seen: set<nat>)
    requires id in heap && id !in path && path + {id} <= seen && hit(Ref(id)).None?
    requires Dead(heap, values, hit, seen - (path + {id}), path + {id})
    requires forall v :: v in values(heap[id]) ==> Finished(heap, hit, seen, v)
    ensures Dead(heap, values, hit, seen - path, path)
  {
    assert seen - path + path == seen && seen - (path + {id}) + (path + {id}) == seen;
    assert forall n :: n in seen - path ==> n == id || n in seen - (path + {id});
  }

  lemma {:induction false} SearchFindsFirst<R>(heap: Heap, values: Values, hit: Hit<R>, seen: set<nat>,
                                               path: set<nat>, v: Value)
    requires path <= seen <= heap.Keys && Dead(heap, values, hit, seen - path, path)
    ensures var t := Search(heap, values, hit, seen, v);
            && t.found == First(heap, values, hit, path, v) && t.seen <= heap.Keys
            && (t.found.None? ==> Dead(heap, values, hit, t.seen - path, path) && Finished(heap, hit, t.seen, v))
    decreases heap.Keys - seen, 0
  {
    if v.Ref? && v.id in seen {
      assert seen - path + path == seen;
      DeadFindsNothing(heap, values, hit, seen - path, path, path, v);
    } else if v.Ref? && v.id in heap && hit(v).None? {
      var id := v.id;
      assert seen + {id} - (path + {id}) == seen - path;
      assert seen - path + path == seen;
      assert Dead(heap, values, hit, seen - path, path + {id});
      SearchAllFindsFirst(heap, values, hit, seen + {id}, path + {id}, values(heap[id]));
      var t := Search(heap, values, hit, seen, v);
      if t.found.None? {
        ObjectDies(heap, values, hit, path, id, t.seen);
      }
    }
  }

  lemma {:induction false} SearchAllFindsFirst<R>(heap: Heap, values: Values, hit: Hit<R>, seen: set<nat>,
                                                  path: set<nat>, vs: seq<Value>)
    requires path <= seen <= heap.Keys && Dead(heap, values, hit, seen - path, path)
    ensures var t := SearchAll(heap, values, hit, seen, vs);
            && t.found == FirstOf(heap, values, hit, path, vs) && t.seen <= heap.Keys
            && (t.found.None? ==>
                  && Dead(heap, values, hit, t.seen - path, path)
                  && forall v :: v in vs ==> Finished(heap, hit, t.seen, v))
    decreases heap.Keys - seen, 1, |vs|
  {
    if vs != [] {
      SearchFindsFirst(heap, values, hit, seen, path, vs[0]);
      var t := Search(heap, values, hit, seen, vs[0]);
      assert heap.Keys - t.seen <= heap.Keys - seen;
      if t.found.None? {
        SearchAllFindsFirst(heap, values, hit, t.seen, path, vs[1..]);
      }
    }
  }

  /** A walk that enters no object twice finds what the plain search finds. */
  lemma SearchIsFirst<R>(heap: Heap, values: Values, hit: Hit<R>, v: Value)
    ensures Search(heap, values, hit, {}, v).found == First(heap, values, hit, {}, v)
  {
    var none: set<nat> := {};
    assert none - none == none;
    SearchFindsFirst(heap, values, hit, none, none, v);
  }
}
