/**
 Extracting a protocol error from whatever was thrown: depth-first walks over an arbitrary, possibly
 cyclic, graph of JavaScript objects, sharing one set of visited objects.

 The two clients walk differently. The Solana one follows the enumerable properties and looks for a
 numeric "Custom" on every object; the EVM one also follows six named properties first, enumerable or
 not, and looks at strings. Both are shown to find something exactly when there is something to find
 along the steps that they take, to find what a plain search finds first, and it is shown exactly what a
 walk along more steps would add.
 */
module ObjectWalk {

  import opened Wrappers
  import opened ObjectGraph
  import opened WalkOrder
  import T = Text

  // o[key], for own and inherited, enumerable and other properties.
  function Get(properties: seq<Property>, key: string): (found: Option<Value>)
    ensures found.Some? ==> exists p :: p in properties && p.key == key && p.value == found.value
    ensures found.None? ==> forall p :: p in properties ==> p.key != key
  {
    if properties == [] then None
    else if properties[0].key == key then Some(properties[0].value)
    else Get(properties[1..], key)
  }

  // The values of the enumerable properties, in their order.
  function Shown(properties: seq<Property>): (values: seq<Value>)
    ensures forall v :: v in values <==> exists p :: p in properties && p.enumerable && p.value == v
  {
    if properties == [] then []
    else
      var rest := Shown(properties[1..]);
      var all := if properties[0].enumerable then [properties[0].value] + rest else rest;
      assert forall p :: p in properties <==> p == properties[0] || p in properties[1..];
      all
  }

  // Property by property, in their order.
  lemma {:induction false} ShownInOrder(a: seq<Property>, p: Property, b: seq<Property>)
    ensures Shown(a + [p] + b) == Shown(a) + (if p.enumerable then [p.value] else []) + Shown(b)
  {
    if a == [] {
      assert [] + [p] + b == [p] + b && ([p] + b)[1..] == b;
    } else {
      ShownInOrder(a[1..], p, b);
      assert (a + [p] + b)[1..] == a[1..] + [p] + b;
    }
  }

  // The values of the named properties that the object has, enumerable or not.
  function Carried(properties: seq<Property>, keys: seq<string>): (values: seq<Value>)
    ensures forall v :: v in values ==> exists p :: p in properties && p.key in keys && p.value == v
  {
    if keys == [] then []
    else
      var rest := Carried(properties, keys[1..]);
      match Get(properties, keys[0])
      case None => rest
      case Some(v) => [v] + rest
  }

  lemma {:induction false} CarriedIff(properties: seq<Property>, keys: seq<string>, v: Value)
    ensures v in Carried(properties, keys) <==> exists k :: k in keys && Get(properties, k) == Some(v)
  {
    if keys != [] {
      var rest := keys[1..];
      CarriedIff(properties, rest, v);
      if v in Carried(properties, rest) {
        var k :| k in rest && Get(properties, k) == Some(v);
        assert k in keys;
      }
      if k :| k in keys && Get(properties, k) == Some(v) {
        assert k == keys[0] || k in rest;
      }
    }
  }

  // ---------------------------------------------------------------------------------------------
  // Reachability
  // ---------------------------------------------------------------------------------------------

  // Which values a walk visits from an object.
  type Steps = (Obj, Value) -> bool

  // A path of objects, each a value of the one before.
  ghost predicate IsPath(heap: Heap, steps: Steps, path: seq<nat>) {
    && path != []
    && (forall i :: 0 <= i < |path| ==> path[i] in heap)
    && forall i :: 0 <= i < |path| - 1 ==> steps(heap[path[i]], Ref(path[i + 1]))
  }

  ghost predicate Reaches(heap: Heap, steps: Steps, from: nat, to: nat) {
    exists path :: IsPath(heap, steps, path) && path[0] == from && path[|path| - 1] == to
  }

  lemma ReachesItself(heap: Heap, steps: Steps, id: nat)
    requires id in heap
    ensures Reaches(heap, steps, id, id)
  {
    assert IsPath(heap, steps, [id]);
  }

  lemma ReachesFirst(heap: Heap, steps: Steps, from: nat, next: nat, to: nat)
    requires from in heap && steps(heap[from], Ref(next)) && Reaches(heap, steps, next, to)
    ensures Reaches(heap, steps, from, to)
  {
    var path :| IsPath(heap, steps, path) && path[0] == next && path[|path| - 1] == to;
    assert IsPath(heap, steps, [from] + path);
  }

  lemma ReachesThrough(heap: Heap, steps: Steps, from: nat, mid: nat, to: nat)
    requires Reaches(heap, steps, from, mid) && Reaches(heap, steps, mid, to)
    ensures Reaches(heap, steps, from, to)
  {
    var p :| IsPath(heap, steps, p) && p[0] == from && p[|p| - 1] == mid;
    var q :| IsPath(heap, steps, q) && q[0] == mid && q[|q| - 1] == to;
    assert IsPath(heap, steps, p + q[1..]);
  }

  lemma ReachesNext(heap: Heap, steps: Steps, from: nat, id: nat, next: nat)
    requires Reaches(heap, steps, from, id) && id in heap && steps(heap[id], Ref(next)) && next in heap
    ensures Reaches(heap, steps, from, next)
  {
    ReachesItself(heap, steps, next);
    ReachesFirst(heap, steps, id, next, next);
    ReachesThrough(heap, steps, from, id, next);
  }

  // ---------------------------------------------------------------------------------------------
  // Following more steps
  // ---------------------------------------------------------------------------------------------

  ghost predicate SubSteps(heap: Heap, few: Steps, many: Steps) {
    forall id, v :: id in heap && few(heap[id], v) ==> many(heap[id], v)
  }

  // The value is behind an object that the few steps reach, along one of the other steps.
  ghost predicate Extra(heap: Heap, few: Steps, many: Steps, from: nat, id: nat, v: Value) {
    Reaches(heap, few, from, id) && id in heap && many(heap[id], v) && !few(heap[id], v)
  }

  lemma SubStepsReach(heap: Heap, few: Steps, many: Steps, from: nat, to: nat)
    requires SubSteps(heap, few, many)
    requires Reaches(heap, few, from, to)
    ensures Reaches(heap, many, from, to)
  {
    var path :| IsPath(heap, few, path) && path[0] == from && path[|path| - 1] == to;
    assert IsPath(heap, many, path);
  }

  // Along a path of many steps either the few suffice, or one of the others is taken.
  lemma {:induction false} PathSplits(heap: Heap, few: Steps, many: Steps, path: seq<nat>)
    requires IsPath(heap, many, path)
    ensures var from, to := path[0], path[|path| - 1];
            || Reaches(heap, few, from, to)
            || exists id, next :: Extra(heap, few, many, from, id, Ref(next)) && Reaches(heap, many, next, to)
  {
    var from, to := path[0], path[|path| - 1];
    ReachesItself(heap, few, from);
    if 1 < |path| {
      var rest := path[1..];
      assert IsPath(heap, many, rest) && rest[|rest| - 1] == to;
      if few(heap[from], Ref(path[1])) {
        PathSplits(heap, few, many, rest);
        if Reaches(heap, few, path[1], to) {
          ReachesFirst(heap, few, from, path[1], to);
        } else {
          var id, next :| Extra(heap, few, many, path[1], id, Ref(next)) && Reaches(heap, many, next, to);
          ReachesFirst(heap, few, from, path[1], id);
          assert Extra(heap, few, many, from, id, Ref(next));
        }
      } else {
        assert Reaches(heap, many, path[1], to);
        assert Extra(heap, few, many, from, from, Ref(path[1]));
      }
    }
  }

  // What the many steps reach: what the few reach, and what is behind an extra edge.
  lemma ReachSplits(heap: Heap, few: Steps, many: Steps, from: nat, to: nat)
    requires SubSteps(heap, few, many)
    ensures Reaches(heap, many, from, to)
       <==> || Reaches(heap, few, from, to)
            || exists id, next :: Extra(heap, few, many, from, id, Ref(next)) && Reaches(heap, many, next, to)
  {
    if Reaches(heap, many, from, to) {
      var path :| IsPath(heap, many, path) && path[0] == from && path[|path| - 1] == to;
      PathSplits(heap, few, many, path);
    }
    if Reaches(heap, few, from, to) {
      SubStepsReach(heap, few, many, from, to);
    }
    if id, next :| Extra(heap, few, many, from, id, Ref(next)) && Reaches(heap, many, next, to) {
      SubStepsReach(heap, few, many, from, id);
      ReachesFirst(heap, many, id, next, to);
      ReachesThrough(heap, many, from, id, to);
    }
  }

  lemma {:induction false} PathStays(heap: Heap, few: Steps, many: Steps, path: seq<nat>, i: nat)
    requires IsPath(heap, many, path) && i < |path|
    requires forall id, next :: Extra(heap, few, many, path[0], id, Ref(next)) ==> Reaches(heap, few, path[0], next)
    ensures Reaches(heap, few, path[0], path[i])
  {
    if i == 0 {
      ReachesItself(heap, few, path[0]);
    } else {
      PathStays(heap, few, many, path, i - 1);
      if few(heap[path[i - 1]], Ref(path[i])) {
        ReachesNext(heap, few, path[0], path[i - 1], path[i]);
      } else {
        assert Extra(heap, few, many, path[0], path[i - 1], Ref(path[i]));
      }
    }
  }

  // The few steps lead to the same objects as the many exactly if no extra edge leads out of them.
  lemma SameReachIff(heap: Heap, few: Steps, many: Steps, from: nat)
    requires SubSteps(heap, few, many)
    requires forall id, next :: id in heap && many(heap[id], Ref(next)) ==> next in heap
    ensures (forall to :: Reaches(heap, many, from, to) <==> Reaches(heap, few, from, to))
       <==> (forall id, next :: Extra(heap, few, many, from, id, Ref(next)) ==> Reaches(heap, few, from, next))
  {
    forall to | Reaches(heap, few, from, to)
      ensures Reaches(heap, many, from, to)
    {
      SubStepsReach(heap, few, many, from, to);
    }
    forall id, next | Extra(heap, few, many, from, id, Ref(next))
      ensures Reaches(heap, many, from, next)
    {
      SubStepsReach(heap, few, many, from, id);
      ReachesNext(heap, many, from, id, next);
    }
    if forall id, next :: Extra(heap, few, many, from, id, Ref(next)) ==> Reaches(heap, few, from, next) {
      forall path | IsPath(heap, many, path) && path[0] == from
        ensures Reaches(heap, few, from, path[|path| - 1])
      {
        PathStays(heap, few, many, path, |path| - 1);
      }
    }
  }

  // All values of these objects lead to objects of the set.
  ghost predicate ClosedUnder(heap: Heap, steps: Steps, objects: set<nat>, within: set<nat>) {
    forall id, next :: id in objects && id in heap && steps(heap[id], Ref(next)) ==> next in within
  }

  // A set that is closed under the steps holds whatever it reaches.
  lemma {:induction false} ClosedHoldsPath(heap: Heap, steps: Steps, objects: set<nat>, path: seq<nat>)
    requires ClosedUnder(heap, steps, objects, objects) && IsPath(heap, steps, path) && path[0] in objects
    ensures path[|path| - 1] in objects
  {
    if 1 < |path| {
      assert steps(heap[path[0]], Ref(path[1]));
      assert IsPath(heap, steps, path[1..]);
      ClosedHoldsPath(heap, steps, objects, path[1..]);
    }
  }

  lemma ClosedHoldsReachable(heap: Heap, steps: Steps, objects: set<nat>, from: nat, to: nat)
    requires ClosedUnder(heap, steps, objects, objects) && from in objects && Reaches(heap, steps, from, to)
    ensures to in objects
  {
    var path :| IsPath(heap, steps, path) && path[0] == from && path[|path| - 1] == to;
    ClosedHoldsPath(heap, steps, objects, path);
  }

  // ---------------------------------------------------------------------------------------------
  // The Solana walk
  // ---------------------------------------------------------------------------------------------

  // The object has an enumerable property with the value.
  ghost predicate ShowsValue(o: Obj, v: Value) {
    exists p :: p in o.properties && p.enumerable && p.value == v
  }

  // From an array to its elements, from any other object to the values of its enumerable properties.
  ghost predicate SolanaStep(o: Obj, v: Value) {
    if o.isArray then v in o.elements else ShowsValue(o, v)
  }

  // What the loops run over.
  function SolanaValues(o: Obj): (values: seq<Value>)
    ensures forall v :: v in values <==> SolanaStep(o, v)
  {
    if o.isArray then o.elements else Shown(o.properties)
  }

  // The numeric "Custom" of an object, enumerable or not.
  function CustomOf(o: Obj): Option<int> {
    match Get(o.properties, "Custom")
    case Some(Number(n)) => Some(n)
    case _ => None
  }

  ghost function CustomAt(heap: Heap): Hit<int> {
    (v: Value) => if v.Ref? && v.id in heap then CustomOf(heap[v.id]) else None
  }

  ghost predicate HasCustom(heap: Heap, id: nat, code: int) {
    id in heap && Get(heap[id].properties, "Custom") == Some(Number(code))
  }

  // Some object that the value leads to carries the code.
  ghost predicate CodeReachable(heap: Heap, steps: Steps, v: Value, code: int) {
    v.Ref? && exists id :: Reaches(heap, steps, v.id, id) && HasCustom(heap, id, code)
  }

  // Nothing was found: the newly visited objects carry no code, and all their values are visited.
  ghost predicate SolanaExhausted(heap: Heap, before: set<nat>, seen: set<nat>) {
    && before <= seen
    && (forall id :: id in seen - before ==> id in heap && CustomOf(heap[id]).None?)
    && ClosedUnder(heap, SolanaStep, seen - before, seen)
  }

  class SolanaWalker {
    const heap: Heap
    var seen: set<nat>

    constructor (heap: Heap)
      ensures this.heap == heap && seen == {}
    {
      this.heap := heap;
      seen := {};
    }

    method Walk(node: Value) returns (code: Option<int>)
      requires Closed(heap) && RefsIn(heap, node)
      modifies this
      ensures code.Some? ==> CodeReachable(heap, SolanaStep, node, code.value)
      ensures code.None? ==> SolanaExhausted(heap, old(seen), seen) && (node.Ref? ==> node.id in seen)
      ensures Trace(code, seen) == Search(heap, SolanaValues, CustomAt(heap), old(seen), node)
      decreases heap.Keys - seen, 0
    {
      if !node.Ref? || node.id in seen { return None; }
      seen := seen + {node.id};
      var o := heap[node.id];
      var custom := Get(o.properties, "Custom");
      if custom.Some? && custom.value.Number? {
        ReachesItself(heap, SolanaStep, node.id);
        assert HasCustom(heap, node.id, custom.value.n);
        return Some(custom.value.n);
      }
      code := WalkAll(node.id, SolanaValues(o), old(seen));
    }

    // The loop over the values of an object that has just been entered.
    method WalkAll(id: nat, values: seq<Value>, ghost before: set<nat>) returns (code: Option<int>)
      requires Closed(heap) && id in heap && values == SolanaValues(heap[id]) && CustomOf(heap[id]).None?
      requires id !in before && seen == before + {id}
      modifies this
      ensures code.Some? ==> CodeReachable(heap, SolanaStep, Ref(id), code.value)
      ensures code.None? ==> SolanaExhausted(heap, before, seen) && id in seen
      ensures Trace(code, seen) == SearchAll(heap, SolanaValues, CustomAt(heap), old(seen), values)
      decreases heap.Keys - seen, 1
    {
      for i := 0 to |values|
        invariant old(seen) <= seen
        invariant forall n :: n in seen - old(seen) ==> n in heap && CustomOf(heap[n]).None?
        invariant ClosedUnder(heap, SolanaStep, seen - old(seen), seen)
        invariant forall v :: v in values[..i] && v.Ref? ==> v.id in seen
        invariant SearchAll(heap, SolanaValues, CustomAt(heap), old(seen), values)
               == SearchAll(heap, SolanaValues, CustomAt(heap), seen, values[i..])
      {
        assert values[i..][1..] == values[i + 1..];
        assert values[i] in values && RefsIn(heap, values[i]);
        code := Walk(values[i]);
        if code.Some? {
          ghost var to :| Reaches(heap, SolanaStep, values[i].id, to) && HasCustom(heap, to, code.value);
          ReachesFirst(heap, SolanaStep, id, values[i].id, to);
          return;
        }
      }
      code := None;
    }
  }

  datatype Named = Named(name: string, message: string)

  datatype ProtocolError = ProtocolError(code: int, name: string, message: string)

  // Custom(<code>), for codes that the table does not name.
  function NameCode(table: map<int, Named>, render: int -> string, code: int): ProtocolError {
    if code in table then ProtocolError(code, table[code].name, table[code].message)
    else ProtocolError(code, "Unknown", "Custom(" + render(code) + ")")
  }

  lemma SolanaNothingReachable(heap: Heap, from: nat, seen: set<nat>)
    requires SolanaExhausted(heap, {}, seen) && from in seen
    ensures forall code :: !CodeReachable(heap, SolanaStep, Ref(from), code)
  {
    assert seen - {} == seen;
    forall code, id | Reaches(heap, SolanaStep, from, id)
      ensures !HasCustom(heap, id, code)
    {
      ClosedHoldsReachable(heap, SolanaStep, seen, from, id);
    }
  }

  /**
   tryExtractProtocolError: it terminates on every graph, cyclic or not; it finds an error exactly when
   an object with a numeric "Custom" can be reached from the thrown object, and reports the code that a
   plain search finds first.
   */
  method TryExtractProtocolError(heap: Heap, table: map<int, Named>, render: int -> string, err: Value)
    returns (found: Option<ProtocolError>)
    requires Closed(heap) && RefsIn(heap, err)
    ensures found.Some? ==>
              && CodeReachable(heap, SolanaStep, err, found.value.code)
              && First(heap, SolanaValues, CustomAt(heap), {}, err) == Some(found.value.code)
              && (var code := found.value.code;
                  found.value == if code in table then ProtocolError(code, table[code].name, table[code].message)
                                 else ProtocolError(code, "Unknown", "Custom(" + render(code) + ")"))
    ensures found.Some? <==> exists code :: CodeReachable(heap, SolanaStep, err, code)
  {
    if !err.Ref? { return None; }
    SearchIsFirst(heap, SolanaValues, CustomAt(heap), err);
    var walker := new SolanaWalker(heap);
    var code := walker.Walk(err);
    if code.None? {
      SolanaNothingReachable(heap, err.id, walker.seen);
      return None;
    }
    found := Some(NameCode(table, render, code.value));
  }

  /**
   The error of a failed transaction, { InstructionError: [index, { Custom: code }] }: its code, and no other,
   is found.
   */
  lemma InstructionErrorFound(heap: Heap, index: int, c: int, code: int)
    requires heap == map[
      0 := Obj(false, [], [Property("InstructionError", Ref(1), true)]),
      1 := Obj(true, [Number(index), Ref(2)], []),
      2 := Obj(false, [], [Property("Custom", Number(c), true)])]
    ensures Closed(heap) && (CodeReachable(heap, SolanaStep, Ref(0), code) <==> code == c)
  {
    var p := heap[0].properties[0];
    assert p in heap[0].properties && SolanaStep(heap[0], Ref(1));
    assert heap[1].elements[1] == Ref(2) && SolanaStep(heap[1], Ref(2));
    ReachesItself(heap, SolanaStep, 2);
    ReachesFirst(heap, SolanaStep, 1, 2, 2);
    ReachesFirst(heap, SolanaStep, 0, 1, 2);
    assert HasCustom(heap, 2, c);
    assert Get(heap[0].properties[1..], "Custom") == None;
  }

  // ---------------------------------------------------------------------------------------------
  // What the Solana walk misses
  // ---------------------------------------------------------------------------------------------

  // The two properties are promised to be followed, besides the enumerable ones.
  ghost predicate PromisedStep(o: Obj, v: Value) {
    SolanaStep(o, v) || Get(o.properties, "cause") == Some(v) || Get(o.properties, "transactionError") == Some(v)
  }

  // No promised property is hidden, and no array has one.
  ghost predicate PromisedShown(heap: Heap) {
    forall id, p :: id in heap && p in heap[id].properties && p.key in {"cause", "transactionError"} ==>
      p.enumerable && !heap[id].isArray
  }

  /**
   A code that the promised properties lead to is reachable for the walk as well, or it is behind a
   promised property that is hidden, or on an array, of an object that the walk reaches.
   */
  lemma CodeMissedIff(heap: Heap, v: Value, code: int)
    requires v.Ref?
    ensures CodeReachable(heap, PromisedStep, v, code)
       <==> || CodeReachable(heap, SolanaStep, v, code)
            || exists id, next :: Extra(heap, SolanaStep, PromisedStep, v.id, id, Ref(next))
                                  && CodeReachable(heap, PromisedStep, Ref(next), code)
  {
    if CodeReachable(heap, PromisedStep, v, code) {
      var to :| Reaches(heap, PromisedStep, v.id, to) && HasCustom(heap, to, code);
      ReachSplits(heap, SolanaStep, PromisedStep, v.id, to);
    }
    if to :| Reaches(heap, SolanaStep, v.id, to) && HasCustom(heap, to, code) {
      ReachSplits(heap, SolanaStep, PromisedStep, v.id, to);
    }
    if id, next :| Extra(heap, SolanaStep, PromisedStep, v.id, id, Ref(next))
                   && CodeReachable(heap, PromisedStep, Ref(next), code) {
      var to :| Reaches(heap, PromisedStep, next, to) && HasCustom(heap, to, code);
      ReachSplits(heap, SolanaStep, PromisedStep, v.id, to);
    }
  }

  ghost predicate FindsCode(heap: Heap, steps: Steps, v: Value) {
    exists code :: CodeReachable(heap, steps, v, code)
  }

  /**
   What the caller sees: if the walk finds nothing, then an error is missed exactly if a hidden promised
   property of an object that the walk reaches leads to one.
   */
  lemma ErrorMissedIff(heap: Heap, v: Value)
    requires v.Ref?
    ensures FindsCode(heap, PromisedStep, v)
       <==> || FindsCode(heap, SolanaStep, v)
            || exists id, next :: Extra(heap, SolanaStep, PromisedStep, v.id, id, Ref(next))
                                  && FindsCode(heap, PromisedStep, Ref(next))
  {
    if FindsCode(heap, SolanaStep, v) {
      var code :| CodeReachable(heap, SolanaStep, v, code);
      CodeMissedIff(heap, v, code);
    }
    if code :| CodeReachable(heap, PromisedStep, v, code) {
      CodeMissedIff(heap, v, code);
      if id, next :| Extra(heap, SolanaStep, PromisedStep, v.id, id, Ref(next))
                     && CodeReachable(heap, PromisedStep, Ref(next), code) {
        assert FindsCode(heap, PromisedStep, Ref(next));
      }
    }
    if id, next :| Extra(heap, SolanaStep, PromisedStep, v.id, id, Ref(next))
                   && FindsCode(heap, PromisedStep, Ref(next)) {
      var code :| CodeReachable(heap, PromisedStep, Ref(next), code);
      CodeMissedIff(heap, v, code);
    }
  }

  /**
   The promise is kept for all that could be thrown with these objects, whatever codes they carry,
   exactly if no hidden promised property leads out of what the walk reaches.
   */
  lemma PromiseKeptIff(heap: Heap, v: Value)
    requires Closed(heap) && v.Ref?
    ensures (forall to :: Reaches(heap, PromisedStep, v.id, to) <==> Reaches(heap, SolanaStep, v.id, to))
       <==> (forall id, next :: Extra(heap, SolanaStep, PromisedStep, v.id, id, Ref(next))
                                ==> Reaches(heap, SolanaStep, v.id, next))
  {
    SameReachIff(heap, SolanaStep, PromisedStep, v.id);
  }

  /** In particular it is kept if no promised property is hidden or on an array. */
  lemma ShownIsKept(heap: Heap, v: Value, code: int)
    requires v.Ref? && PromisedShown(heap)
    ensures CodeReachable(heap, PromisedStep, v, code) <==> CodeReachable(heap, SolanaStep, v, code)
  {
    assert SubSteps(heap, PromisedStep, SolanaStep);
    CodeMissedIff(heap, v, code);
  }

  // The cause of an Error is not enumerable, and transactionError is a getter of the class: here object
  // 0 has object 1 as its hidden cause, object 1 carries code 6000, and nothing is found.
  lemma HiddenCauseIsMissed(heap: Heap)
    requires heap == map[
      0 := Obj(false, [], [Property("cause", Ref(1), false)]),
      1 := Obj(false, [], [Property("Custom", Number(6000), true)])]
    ensures Closed(heap) && CodeReachable(heap, PromisedStep, Ref(0), 6000)
    ensures forall code :: !CodeReachable(heap, SolanaStep, Ref(0), code)
  {
    assert Get(heap[0].properties[1..], "Custom") == None;
    assert Shown(heap[0].properties[1..]) == [];
    assert {0} - {} == {0};
    SolanaNothingReachable(heap, 0, {0});
    assert Get(heap[0].properties, "cause") == Some(Ref(1));
    ReachesItself(heap, PromisedStep, 1);
    ReachesFirst(heap, PromisedStep, 0, 1, 1);
    assert HasCustom(heap, 1, 6000);
  }

  // ---------------------------------------------------------------------------------------------
  // The EVM walk
  // ---------------------------------------------------------------------------------------------

  const CARRIERS: seq<string> := ["data", "cause", "details", "error", "raw", "value"]

  // Object.values: the elements of an array, then the enumerable properties.
  ghost predicate ValuesStep(o: Obj, v: Value) {
    (o.isArray && v in o.elements) || ShowsValue(o, v)
  }

  function ObjectValues(o: Obj): (values: seq<Value>)
    ensures forall v :: v in values <==> ValuesStep(o, v)
  {
    (if o.isArray then o.elements else []) + Shown(o.properties)
  }

  // One of the six named properties has the value, enumerable or not.
  ghost predicate CarriesValue(o: Obj, v: Value) {
    var ps := o.properties;
    || Get(ps, "data") == Some(v) || Get(ps, "cause") == Some(v) || Get(ps, "details") == Some(v)
    || Get(ps, "error") == Some(v) || Get(ps, "raw") == Some(v) || Get(ps, "value") == Some(v)
  }

  ghost predicate EvmStep(o: Obj, v: Value) {
    CarriesValue(o, v) || ValuesStep(o, v)
  }

  lemma CarrierNames(k: string)
    ensures k in CARRIERS <==>
            k == "data" || k == "cause" || k == "details" || k == "error" || k == "raw" || k == "value"
  {
    assert CARRIERS[0] == "data" && CARRIERS[1] == "cause" && CARRIERS[2] == "details";
    assert CARRIERS[3] == "error" && CARRIERS[4] == "raw" && CARRIERS[5] == "value";
  }

  lemma CarriedMeaning(o: Obj, v: Value)
    ensures v in Carried(o.properties, CARRIERS) <==> CarriesValue(o, v)
  {
    CarriedIff(o.properties, CARRIERS, v);
    CarrierNames("data");
    CarrierNames("cause");
    CarrierNames("details");
    CarrierNames("error");
    CarrierNames("raw");
    CarrierNames("value");
    if k :| k in CARRIERS && Get(o.properties, k) == Some(v) {
      CarrierNames(k);
    }
  }

  function CarriedValues(o: Obj): (values: seq<Value>)
    ensures forall v :: v in values <==> CarriesValue(o, v)
  {
    assert forall v :: v in Carried(o.properties, CARRIERS) <==> CarriesValue(o, v) by {
      forall v
        ensures v in Carried(o.properties, CARRIERS) <==> CarriesValue(o, v)
      {
        CarriedMeaning(o, v);
      }
    }
    Carried(o.properties, CARRIERS)
  }

  function SelectorOf(data: string): Option<string> {
    if !("0x" <= data) || |data| < 10 then None else Some(T.Lower(data[..10]))
  }

  function DecodePactError(table: map<string, Named>, data: string): Option<Named> {
    match SelectorOf(data)
    case None => None
    case Some(selector) => if selector in table then Some(table[selector]) else None
  }

  /**
   Revert data is 0x and a selector of eight characters, with or without a payload: the error is the one
   that the table has for the selector in lower case. No other string has one.
   */
  lemma DecodeMeaning(table: map<string, Named>, selector: string, payload: string)
    requires |selector| == 8
    ensures var key := T.Lower("0x" + selector);
            DecodePactError(table, "0x" + selector + payload) == if key in table then Some(table[key]) else None
  {
    assert ("0x" + selector + payload)[..10] == "0x" + selector;
  }

  lemma DecodeNothing(table: map<string, Named>, data: string)
    requires |data| < 10 || data[0] != '0' || data[1] != 'x'
    ensures DecodePactError(table, data) == None
  {
  }

  predicate Decodes(table: map<string, Named>, v: Value) {
    v.Text? && DecodePactError(table, v.s).Some?
  }

  // The named properties first, then Object.values.
  function EvmValues(o: Obj): seq<Value> {
    CarriedValues(o) + ObjectValues(o)
  }

  ghost function DecodedAt(table: map<string, Named>): Hit<Named> {
    (v: Value) => if v.Text? then DecodePactError(table, v.s) else None
  }

  // The object has a string among its values that decodes to the error.
  ghost predicate HasLeaf(heap: Heap, steps: Steps, table: map<string, Named>, id: nat, e: Named) {
    id in heap && exists v :: steps(heap[id], v) && v.Text? && DecodePactError(table, v.s) == Some(e)
  }

  // The value is, or leads to, a string that decodes to the error.
  ghost predicate LeafReachable(heap: Heap, steps: Steps, table: map<string, Named>, v: Value, e: Named) {
    || (v.Text? && DecodePactError(table, v.s) == Some(e))
    || (v.Ref? && exists id :: Reaches(heap, steps, v.id, id) && HasLeaf(heap, steps, table, id, e))
  }

  ghost predicate NoLeaf(heap: Heap, steps: Steps, table: map<string, Named>, id: nat)
    requires id in heap
  {
    forall v :: steps(heap[id], v) ==> !Decodes(table, v)
  }

  // The objects visited since "before" have no string that decodes, and all their values are visited.
  ghost predicate EvmExhausted(heap: Heap, table: map<string, Named>, before: set<nat>, seen: set<nat>) {
    && before <= seen
    && (forall id :: id in seen - before ==> id in heap && NoLeaf(heap, EvmStep, table, id))
    && ClosedUnder(heap, EvmStep, seen - before, seen)
  }

  // The walk is done with a value: it does not decode, and if it is an object it has been visited.
  ghost predicate DoneWith(table: map<string, Named>, seen: set<nat>, v: Value) {
    (v.Ref? ==> v.id in seen) && !Decodes(table, v)
  }

  lemma ExhaustedTwice(heap: Heap, table: map<string, Named>, before: set<nat>, mid: set<nat>, seen: set<nat>)
    requires EvmExhausted(heap, table, before, mid) && EvmExhausted(heap, table, mid, seen)
    ensures EvmExhausted(heap, table, before, seen)
  {
    assert forall id :: id in seen - before ==> id in seen - mid || id in mid - before;
  }

  lemma LastObjectDone(heap: Heap, table: map<string, Named>, id: nat, before: set<nat>, carried: set<nat>,
                       seen: set<nat>)
    requires id in heap && id !in before && id in seen && carried <= seen
    requires EvmExhausted(heap, table, before + {id}, seen)
    requires forall v :: v in CarriedValues(heap[id]) ==> DoneWith(table, carried, v)
    requires forall v :: v in ObjectValues(heap[id]) ==> DoneWith(table, seen, v)
    ensures EvmExhausted(heap, table, before, seen)
  {
    forall v | EvmStep(heap[id], v)
      ensures DoneWith(table, seen, v)
    {
      assert v in CarriedValues(heap[id]) || v in ObjectValues(heap[id]);
    }
    assert seen - before == seen - (before + {id}) + {id};
  }

  lemma StepsStayInHeap(heap: Heap, id: nat, v: Value)
    requires Closed(heap) && id in heap && EvmStep(heap[id], v)
    ensures RefsIn(heap, v)
  {
  }

  lemma LeafThroughStep(heap: Heap, steps: Steps, table: map<string, Named>, id: nat, v: Value, e: Named)
    requires id in heap && steps(heap[id], v) && LeafReachable(heap, steps, table, v, e)
    ensures LeafReachable(heap, steps, table, Ref(id), e)
  {
    if v.Text? {
      ReachesItself(heap, steps, id);
      assert HasLeaf(heap, steps, table, id, e);
    } else {
      var to :| Reaches(heap, steps, v.id, to) && HasLeaf(heap, steps, table, to, e);
      ReachesFirst(heap, steps, id, v.id, to);
    }
  }

  class EvmWalker {
    const heap: Heap
    const table: map<string, Named>
    var seen: set<nat>

    constructor (heap: Heap, table: map<string, Named>)
      ensures this.heap == heap && this.table == table && seen == {}
    {
      this.heap, this.table := heap, table;
      seen := {};
    }

    method Walk(node: Value) returns (e: Option<Named>)
      requires Closed(heap) && RefsIn(heap, node)
      modifies this
      ensures e.Some? ==> LeafReachable(heap, EvmStep, table, node, e.value)
      ensures e.None? ==> EvmExhausted(heap, table, old(seen), seen) && DoneWith(table, seen, node)
      ensures Trace(e, seen) == Search(heap, EvmValues, DecodedAt(table), old(seen), node)
      decreases heap.Keys - seen, 0
    {
      if node.Text? { return DecodePactError(table, node.s); }
      if !node.Ref? || node.id in seen { return None; }
      ghost var before := seen;
      seen := seen + {node.id};
      var o := heap[node.id];
      SearchConcat(heap, EvmValues, DecodedAt(table), seen, CarriedValues(o), ObjectValues(o));
      e := WalkValues(node.id, CarriedValues(o), before);
      if e.Some? { return; }
      ghost var carried := seen;
      e := WalkValues(node.id, ObjectValues(o), before);
      if e.None? {
        LastObjectDone(heap, table, node.id, before, carried, seen);
      }
    }

    // A loop over some of the values of the object that is being visited.
    method WalkValues(id: nat, values: seq<Value>, ghost before: set<nat>) returns (e: Option<Named>)
      requires Closed(heap) && id in heap && id in seen && id !in before
      requires forall v :: v in values ==> EvmStep(heap[id], v)
      requires EvmExhausted(heap, table, before + {id}, seen)
      modifies this
      ensures e.Some? ==> LeafReachable(heap, EvmStep, table, Ref(id), e.value)
      ensures e.None? ==> old(seen) <= seen && EvmExhausted(heap, table, before + {id}, seen)
      ensures e.None? ==> forall v :: v in values ==> DoneWith(table, seen, v)
      ensures Trace(e, seen) == SearchAll(heap, EvmValues, DecodedAt(table), old(seen), values)
      decreases heap.Keys - seen, 1
    {
      for i := 0 to |values|
        invariant old(seen) <= seen && EvmExhausted(heap, table, before + {id}, seen)
        invariant forall v :: v in values[..i] ==> DoneWith(table, seen, v)
        invariant SearchAll(heap, EvmValues, DecodedAt(table), old(seen), values)
               == SearchAll(heap, EvmValues, DecodedAt(table), seen, values[i..])
      {
        assert values[i..][1..] == values[i + 1..];
        var v := values[i];
        StepsStayInHeap(heap, id, v);
        ghost var mid := seen;
        e := Walk(v);
        if e.Some? {
          LeafThroughStep(heap, EvmStep, table, id, v, e.value);
          return;
        }
        ExhaustedTwice(heap, table, before + {id}, mid, seen);
        forall w | w in values[..i + 1]
          ensures DoneWith(table, seen, w)
        {
          assert w == v || (w in values[..i] && DoneWith(table, mid, w));
        }
      }
      e := None;
    }
  }

  lemma EvmNothingReachable(heap: Heap, table: map<string, Named>, from: nat, seen: set<nat>)
    requires EvmExhausted(heap, table, {}, seen) && from in seen
    ensures forall e :: !LeafReachable(heap, EvmStep, table, Ref(from), e)
  {
    assert seen - {} == seen;
    forall e, id | Reaches(heap, EvmStep, from, id)
      ensures !HasLeaf(heap, EvmStep, table, id, e)
    {
      ClosedHoldsReachable(heap, EvmStep, seen, from, id);
      assert NoLeaf(heap, EvmStep, table, id);
    }
  }

  /**
   tryExtractPactError: it terminates on every graph; it finds an error exactly when a string with a
   known selector can be reached from the thrown value, and returns the error of the first such string,
   as a plain search meets them.
   */
  method TryExtractPactError(heap: Heap, table: map<string, Named>, err: Value) returns (found: Option<Named>)
    requires Closed(heap) && RefsIn(heap, err)
    ensures found.Some? ==> LeafReachable(heap, EvmStep, table, err, found.value)
    ensures found.Some? <==> exists e :: LeafReachable(heap, EvmStep, table, err, e)
    ensures found == First(heap, EvmValues, DecodedAt(table), {}, err)
  {
    SearchIsFirst(heap, EvmValues, DecodedAt(table), err);
    var walker := new EvmWalker(heap, table);
    found := walker.Walk(err);
    if found.None? && err.Ref? {
      EvmNothingReachable(heap, table, err.id, walker.seen);
    }
  }

  ghost function Held(o: Obj, key: string): seq<Value> {
    match Get(o.properties, key)
    case None => []
    case Some(v) => [v]
  }

  lemma CarriedStep(o: Obj, key: string, keys: seq<string>)
    ensures Carried(o.properties, [key] + keys) == Held(o, key) + Carried(o.properties, keys)
  {
    assert ([key] + keys)[1..] == keys;
  }

  lemma CarriedInOrder(o: Obj)
    ensures CarriedValues(o)
         == Held(o, "data") + (Held(o, "cause") + (Held(o, "details")
            + (Held(o, "error") + (Held(o, "raw") + (Held(o, "value") + [])))))
  {
    var none: seq<string> := [];
    CarriedStep(o, "value", none);
    CarriedStep(o, "raw", ["value"] + none);
    CarriedStep(o, "error", ["raw"] + (["value"] + none));
    CarriedStep(o, "details", ["error"] + (["raw"] + (["value"] + none)));
    CarriedStep(o, "cause", ["details"] + (["error"] + (["raw"] + (["value"] + none))));
    CarriedStep(o, "data", ["cause"] + (["details"] + (["error"] + (["raw"] + (["value"] + none)))));
    assert CARRIERS == ["data"] + (["cause"] + (["details"] + (["error"] + (["raw"] + (["value"] + none)))));
  }

  /** The order of the visits: the six names, then the elements of an array, then the enumerable properties. */
  lemma EvmInOrder(o: Obj)
    ensures EvmValues(o)
         == (Held(o, "data") + (Held(o, "cause") + (Held(o, "details")
            + (Held(o, "error") + (Held(o, "raw") + (Held(o, "value") + []))))))
            + ((if o.isArray then o.elements else []) + Shown(o.properties))
  {
    CarriedInOrder(o);
  }

  /** A thrown object whose own data decodes gives that error, whatever else it holds. */
  lemma DataDecides(heap: Heap, table: map<string, Named>, id: nat, data: string)
    requires id in heap && Get(heap[id].properties, "data") == Some(Text(data))
    requires DecodePactError(table, data).Some?
    ensures First(heap, EvmValues, DecodedAt(table), {}, Ref(id)) == DecodePactError(table, data)
  {
    CarriedInOrder(heap[id]);
    assert Held(heap[id], "data") == [Text(data)];
    assert EvmValues(heap[id])[0] == Text(data);
    assert First(heap, EvmValues, DecodedAt(table), {} + {id}, Text(data)) == DecodePactError(table, data);
  }

  /** The error of a reverted call, { data: "0x..." }, is found, be the data a selector alone. */
  lemma RevertDataFound(heap: Heap, table: map<string, Named>, selector: string, payload: string, e: Named)
    requires |selector| == 8
    requires heap == map[0 := Obj(false, [], [Property("data", Text("0x" + selector + payload), true)])]
    ensures var key := T.Lower("0x" + selector);
            Closed(heap) && (LeafReachable(heap, EvmStep, table, Ref(0), e) <==> key in table && e == table[key])
  {
    var data := Text("0x" + selector + payload);
    var p := heap[0].properties[0];
    assert p in heap[0].properties && EvmStep(heap[0], data);
    DecodeMeaning(table, selector, payload);
    ReachesItself(heap, EvmStep, 0);
    forall v | EvmStep(heap[0], v)
      ensures v == data
    {
      assert forall q :: q in heap[0].properties ==> q == p;
    }
    assert ClosedUnder(heap, EvmStep, {0}, {0});
    if DecodePactError(table, data.s) == Some(e) {
      assert HasLeaf(heap, EvmStep, table, 0, e);
    }
    forall id | Reaches(heap, EvmStep, 0, id)
      ensures id == 0
    {
      ClosedHoldsReachable(heap, EvmStep, {0}, 0, id);
    }
  }

  // ---------------------------------------------------------------------------------------------
  // What the named properties add
  // ---------------------------------------------------------------------------------------------

  // None of the named properties is hidden.
  ghost predicate CarriersShown(heap: Heap) {
    forall id, p :: id in heap && p in heap[id].properties && p.key in CARRIERS ==> p.enumerable
  }

  lemma SubStepsLeaf(heap: Heap, few: Steps, many: Steps, table: map<string, Named>, v: Value, e: Named)
    requires SubSteps(heap, few, many)
    requires LeafReachable(heap, few, table, v, e)
    ensures LeafReachable(heap, many, table, v, e)
  {
    if v.Ref? {
      var id :| Reaches(heap, few, v.id, id) && HasLeaf(heap, few, table, id, e);
      SubStepsReach(heap, few, many, v.id, id);
      assert HasLeaf(heap, many, table, id, e);
    }
  }

  lemma ValuesAreSteps(heap: Heap)
    ensures SubSteps(heap, ValuesStep, EvmStep)
  {
  }

  lemma ShownCarrier(heap: Heap, id: nat, key: string, v: Value)
    requires CarriersShown(heap) && id in heap && key in CARRIERS && Get(heap[id].properties, key) == Some(v)
    ensures ValuesStep(heap[id], v)
  {
  }

  lemma ShownAreValues(heap: Heap)
    requires CarriersShown(heap)
    ensures SubSteps(heap, EvmStep, ValuesStep)
  {
    forall id, v | id in heap && EvmStep(heap[id], v)
      ensures ValuesStep(heap[id], v)
    {
      if CarriesValue(heap[id], v) {
        CarriedMeaning(heap[id], v);
        CarriedIff(heap[id].properties, CARRIERS, v);
        var key :| key in CARRIERS && Get(heap[id].properties, key) == Some(v);
        ShownCarrier(heap, id, key, v);
      }
    }
  }

  // The value is a hidden named property of an object that the walk over Object.values reaches.
  ghost predicate HiddenAt(heap: Heap, v: Value, id: nat, w: Value) {
    v.Ref? && Extra(heap, ValuesStep, EvmStep, v.id, id, w)
  }

  lemma LeafSplits(heap: Heap, table: map<string, Named>, v: Value, e: Named)
    requires LeafReachable(heap, EvmStep, table, v, e)
    ensures || LeafReachable(heap, ValuesStep, table, v, e)
            || exists id, w :: HiddenAt(heap, v, id, w) && LeafReachable(heap, EvmStep, table, w, e)
  {
    if v.Ref? {
      var to :| Reaches(heap, EvmStep, v.id, to) && HasLeaf(heap, EvmStep, table, to, e);
      var leaf :| EvmStep(heap[to], leaf) && leaf.Text? && DecodePactError(table, leaf.s) == Some(e);
      ReachSplits(heap, ValuesStep, EvmStep, v.id, to);
      if Reaches(heap, ValuesStep, v.id, to) {
        if ValuesStep(heap[to], leaf) {
          assert HasLeaf(heap, ValuesStep, table, to, e);
        } else {
          assert HiddenAt(heap, v, to, leaf) && LeafReachable(heap, EvmStep, table, leaf, e);
        }
      } else {
        var id, next :| Extra(heap, ValuesStep, EvmStep, v.id, id, Ref(next)) && Reaches(heap, EvmStep, next, to);
        assert HiddenAt(heap, v, id, Ref(next)) && LeafReachable(heap, EvmStep, table, Ref(next), e);
      }
    }
  }

  lemma HiddenLeaf(heap: Heap, table: map<string, Named>, v: Value, id: nat, w: Value, e: Named)
    requires HiddenAt(heap, v, id, w) && LeafReachable(heap, EvmStep, table, w, e)
    ensures LeafReachable(heap, EvmStep, table, v, e)
  {
    ValuesAreSteps(heap);
    SubStepsReach(heap, ValuesStep, EvmStep, v.id, id);
    LeafThroughStep(heap, EvmStep, table, id, w, e);
    var to :| Reaches(heap, EvmStep, id, to) && HasLeaf(heap, EvmStep, table, to, e);
    ReachesThrough(heap, EvmStep, v.id, id, to);
  }

  /**
   Looking at the named properties first never hides an error from the walk over Object.values; and it
   adds one exactly if a hidden named property, of an object that the walk over Object.values reaches,
   leads to it. So it adds none if no named property in the graph is hidden.
   */
  lemma PriorityPass(heap: Heap, table: map<string, Named>, v: Value, e: Named)
    ensures LeafReachable(heap, EvmStep, table, v, e)
       <==> || LeafReachable(heap, ValuesStep, table, v, e)
            || exists id, w :: HiddenAt(heap, v, id, w) && LeafReachable(heap, EvmStep, table, w, e)
    ensures CarriersShown(heap) ==>
              (LeafReachable(heap, EvmStep, table, v, e) <==> LeafReachable(heap, ValuesStep, table, v, e))
  {
    ValuesAreSteps(heap);
    if LeafReachable(heap, EvmStep, table, v, e) {
      LeafSplits(heap, table, v, e);
    }
    if LeafReachable(heap, ValuesStep, table, v, e) {
      SubStepsLeaf(heap, ValuesStep, EvmStep, table, v, e);
    }
    if id, w :| HiddenAt(heap, v, id, w) && LeafReachable(heap, EvmStep, table, w, e) {
      HiddenLeaf(heap, table, v, id, w, e);
    }
    if CarriersShown(heap) && LeafReachable(heap, EvmStep, table, v, e) {
      ShownAreValues(heap);
      SubStepsLeaf(heap, EvmStep, ValuesStep, table, v, e);
    }
  }

  // The walk along the steps finds an error.
  ghost predicate Finds(heap: Heap, steps: Steps, table: map<string, Named>, v: Value) {
    exists e :: LeafReachable(heap, steps, table, v, e)
  }

  ghost predicate FindsAlike(heap: Heap, table: map<string, Named>, v: Value) {
    Finds(heap, EvmStep, table, v) <==> Finds(heap, ValuesStep, table, v)
  }

  ghost predicate StringReachable(heap: Heap, steps: Steps, s: string, v: Value) {
    v == Text(s) || (v.Ref? && exists id :: Reaches(heap, steps, v.id, id) && id in heap && steps(heap[id], Text(s)))
  }

  // A string with the selector can be reached: what a table of this one selector finds.
  ghost predicate SelectorReachable(heap: Heap, steps: Steps, selector: string, v: Value) {
    exists s :: SelectorOf(s) == Some(selector) && StringReachable(heap, steps, s, v)
  }

  lemma LeafString(heap: Heap, steps: Steps, table: map<string, Named>, v: Value, e: Named) returns (s: string)
    requires LeafReachable(heap, steps, table, v, e)
    ensures StringReachable(heap, steps, s, v) && DecodePactError(table, s) == Some(e)
  {
    if v.Text? {
      s := v.s;
    } else {
      var id :| Reaches(heap, steps, v.id, id) && HasLeaf(heap, steps, table, id, e);
      var leaf :| steps(heap[id], leaf) && leaf.Text? && DecodePactError(table, leaf.s) == Some(e);
      s := leaf.s;
    }
  }

  lemma FindsIsSelector(heap: Heap, steps: Steps, table: map<string, Named>, v: Value)
    ensures Finds(heap, steps, table, v)
       <==> exists selector :: selector in table && SelectorReachable(heap, steps, selector, v)
  {
    if e :| LeafReachable(heap, steps, table, v, e) {
      var s := LeafString(heap, steps, table, v, e);
      assert StringReachable(heap, steps, s, v);
      assert SelectorReachable(heap, steps, SelectorOf(s).value, v);
    }
    if selector :| selector in table && SelectorReachable(heap, steps, selector, v) {
      var s :| SelectorOf(s) == Some(selector) && StringReachable(heap, steps, s, v);
      var e := table[selector];
      assert DecodePactError(table, s) == Some(e);
      if v.Ref? {
        var id :| Reaches(heap, steps, v.id, id) && id in heap && steps(heap[id], Text(s));
        assert HasLeaf(heap, steps, table, id, e);
      }
      assert LeafReachable(heap, steps, table, v, e);
    }
  }

  lemma OneSelector(heap: Heap, selector: string, v: Value)
    ensures FindsAlike(heap, map[selector := Named("", "")], v)
       <==> (SelectorReachable(heap, EvmStep, selector, v) <==> SelectorReachable(heap, ValuesStep, selector, v))
  {
    var table := map[selector := Named("", "")];
    FindsIsSelector(heap, EvmStep, table, v);
    FindsIsSelector(heap, ValuesStep, table, v);
  }

  /** Whatever the table: the first pass makes no difference exactly if it leads to no further selector. */
  lemma PriorityPassSelectors(heap: Heap, v: Value)
    ensures (forall table :: FindsAlike(heap, table, v))
       <==> (forall selector :: SelectorReachable(heap, EvmStep, selector, v)
                           <==> SelectorReachable(heap, ValuesStep, selector, v))
  {
    if forall table :: FindsAlike(heap, table, v) {
      forall selector
        ensures SelectorReachable(heap, EvmStep, selector, v) <==> SelectorReachable(heap, ValuesStep, selector, v)
      {
        OneSelector(heap, selector, v);
      }
    }
    if forall selector :: SelectorReachable(heap, EvmStep, selector, v)
                     <==> SelectorReachable(heap, ValuesStep, selector, v) {
      forall table
        ensures FindsAlike(heap, table, v)
      {
        FindsIsSelector(heap, EvmStep, table, v);
        FindsIsSelector(heap, ValuesStep, table, v);
      }
    }
  }

  // With a hidden cause it does add one.
  lemma PriorityPassFindsHiddenCause(heap: Heap, table: map<string, Named>, data: string, e: Named)
    requires heap == map[0 := Obj(false, [], [Property("cause", Text(data), false)])]
    requires DecodePactError(table, data) == Some(e)
    ensures LeafReachable(heap, EvmStep, table, Ref(0), e)
    ensures forall f :: !LeafReachable(heap, ValuesStep, table, Ref(0), f)
  {
    var o := heap[0];
    assert CARRIERS[1] == "cause" && Get(o.properties, "cause") == Some(Text(data));
    assert CarriesValue(o, Text(data));
    ReachesItself(heap, EvmStep, 0);
    assert HasLeaf(heap, EvmStep, table, 0, e);
    assert Shown(o.properties[1..]) == [];
    assert ObjectValues(o) == [];
  }
}
