// Reachability over the shape graph of a service model: a depth-first walk
// with a shared set of visited shapes, over a graph that may have cycles.

module ShapeGraph {
  import opened Wrappers

  // A member of a structure: its name and the shape it refers to.
  datatype MemberRef = MemberRef(name: string, shape: string)

  datatype Shape =
    | Structure(members: seq<MemberRef>, required: set<string>)
    | ListOf(member: string)
    | MapOf(key: string, value: string)
    | Scalar(botocoreType: string)

  type Shapes = map<string, Shape>

  datatype Operation = Operation(name: string, input: Option<string>, output: Option<string>, errors: seq<string>)

  datatype Model = Model(operations: seq<Operation>, shapes: Shapes)

  // The shapes a shape refers to, in the order of the walk.
  function Refs(s: Shape): seq<string> {
    match s
    case Structure(members, _) => seq(|members|, i requires 0 <= i < |members| => members[i].shape)
    case ListOf(member) => [member]
    case MapOf(key, value) => [key, value]
    case Scalar(_) => []
  }

  function Roots(op: Operation): seq<string> {
    (if op.input.Some? then [op.input.value] else [])
    + (if op.output.Some? then [op.output.value] else [])
    + op.errors
  }

  function AllRoots(ops: seq<Operation>): seq<string> {
    if ops == [] then [] else Roots(ops[0]) + AllRoots(ops[1..])
  }

  // ----- reachability -----

  // Each shape of the path but the last is defined and refers to the next.
  predicate IsPath(shapes: Shapes, path: seq<string>) {
    && |path| > 0
    && forall i :: 0 <= i < |path| - 1 ==> path[i] in shapes && path[i + 1] in Refs(shapes[path[i]])
  }

  ghost predicate Reaches(shapes: Shapes, a: string, b: string) {
    exists path :: IsPath(shapes, path) && path[0] == a && path[|path| - 1] == b
  }

  ghost predicate ReachableFrom(shapes: Shapes, roots: seq<string>, b: string) {
    exists a :: a in roots && Reaches(shapes, a, b)
  }

  predicate ClosedIn(shapes: Shapes, s: set<string>, whole: set<string>) {
    forall x :: x in s ==> x in shapes && forall y :: y in Refs(shapes[x]) ==> y in whole
  }

  lemma ReachesSelf(shapes: Shapes, a: string)
    ensures Reaches(shapes, a, a)
  {
    assert IsPath(shapes, [a]) && [a][0] == a;
  }

  lemma ReachesStep(shapes: Shapes, a: string, b: string, c: string)
    requires a in shapes && b in Refs(shapes[a]) && Reaches(shapes, b, c)
    ensures Reaches(shapes, a, c)
  {
    var path :| IsPath(shapes, path) && path[0] == b && path[|path| - 1] == c;
    var longer := [a] + path;
    assert longer[1..] == path;
    forall i | 0 <= i < |longer| - 1
      ensures longer[i] in shapes && longer[i + 1] in Refs(shapes[longer[i]])
    {
      if i > 0 {
        assert path[i - 1] == longer[i] && path[i] == longer[i + 1];
      }
    }
    assert IsPath(shapes, longer) && longer[0] == a && longer[|longer| - 1] == c;
  }

  // ----- what a walk has to find -----

  // The shapes that a shape is made of.
  predicate Within(shape: Shape, s: set<string>) {
    match shape
    case Structure(members, _) => forall m :: m in members ==> m.shape in s
    case ListOf(member) => member in s
    case MapOf(key, value) => key in s && value in s
    case Scalar(_) => true
  }

  ghost predicate Followed(shapes: Shapes, s: set<string>) {
    forall x :: x in s && x in shapes ==> Within(shapes[x], s)
  }

  predicate Chosen(names: Option<seq<string>>, op: Operation) {
    names.None? || op.name in names.value
  }

  // Input, output and errors of every chosen operation.
  predicate HasStarts(model: Model, names: Option<seq<string>>, s: set<string>) {
    forall op :: op in model.operations && Chosen(names, op) ==>
      && (op.input.Some? ==> op.input.value in s)
      && (op.output.Some? ==> op.output.value in s)
      && forall e :: e in op.errors ==> e in s
  }

  // Nothing is missing from s.
  ghost predicate Complete(model: Model, names: Option<seq<string>>, s: set<string>) {
    HasStarts(model, names, s) && Followed(model.shapes, s)
  }

  // The names that no operation has.
  predicate NoOperation(model: Model, name: string) {
    forall op :: op in model.operations ==> op.name != name
  }

  // The result is the least set that nothing is missing from, and all of it is
  // defined; or some undefined shape is in every such set; or some of the given
  // names, exactly those reported, name no operation.
  ghost predicate Collected(model: Model, names: Option<seq<string>>, r: Result<set<string>, CollectError>) {
    match r
    case Ok(s) =>
      && Complete(model, names, s) && s <= model.shapes.Keys
      && (forall t: set<string> :: Complete(model, names, t) ==> s <= t)
      && (names.Some? ==> forall n :: n in names.value ==> !NoOperation(model, n))
    case Err(UndefinedShape(u)) =>
      && u !in model.shapes
      && (forall t: set<string> :: Complete(model, names, t) ==> u in t)
      && (names.Some? ==> forall n :: n in names.value ==> !NoOperation(model, n))
    case Err(UnknownOperation(ns)) =>
      && names.Some? && ns != {}
      && forall n :: n in ns <==> n in names.value && NoOperation(model, n)
  }

  lemma RefsWithin(shape: Shape, s: set<string>)
    ensures Within(shape, s) <==> forall y :: y in Refs(shape) ==> y in s
  {
    if shape.Structure? {
      var refs := Refs(shape);
      if Within(shape, s) {
        forall y | y in refs
          ensures y in s
        {
          var i :| 0 <= i < |refs| && refs[i] == y;
          assert shape.members[i] in shape.members;
        }
      } else {
        var m :| m in shape.members && m.shape !in s;
        var i :| 0 <= i < |shape.members| && shape.members[i] == m;
        assert refs[i] == m.shape;
      }
    }
  }

  lemma RootsWithin(op: Operation, s: set<string>)
    ensures (forall y :: y in Roots(op) ==> y in s) <==>
      && (op.input.Some? ==> op.input.value in s)
      && (op.output.Some? ==> op.output.value in s)
      && forall e :: e in op.errors ==> e in s
  {
    var roots := Roots(op);
    if op.input.Some? {
      assert roots[0] == op.input.value;
    }
    if op.output.Some? {
      assert roots[if op.input.Some? then 1 else 0] == op.output.value;
    }
    var n := |roots| - |op.errors|;
    assert roots[n..] == op.errors;
    forall e | e in op.errors
      ensures e in roots
    {
      assert e in roots[n..];
    }
  }

  lemma StartsWithin(model: Model, names: Option<seq<string>>, s: set<string>)
    ensures HasStarts(model, names, s) <==> forall a :: a in AllRoots(Selected(model, names)) ==> a in s
  {
    hide Roots;
    var ops := Selected(model, names);
    assert forall op :: op in ops <==> op in model.operations && Chosen(names, op);
    if HasStarts(model, names, s) {
      forall a | a in AllRoots(ops)
        ensures a in s
      {
        AllRootsFrom(ops, a);
        var op :| op in ops && a in Roots(op);
        RootsWithin(op, s);
      }
    }
    if forall a :: a in AllRoots(ops) ==> a in s {
      forall op | op in model.operations && Chosen(names, op)
        ensures && (op.input.Some? ==> op.input.value in s)
                && (op.output.Some? ==> op.output.value in s)
                && forall e :: e in op.errors ==> e in s
      {
        forall y | y in Roots(op)
          ensures y in s
        {
          RootsOfMember(ops, op, y);
        }
        RootsWithin(op, s);
      }
    }
  }

  // Everything reachable is in every set that nothing is missing from.
  lemma ReachableInComplete(model: Model, names: Option<seq<string>>, x: string, t: set<string>)
    requires ReachableFrom(model.shapes, AllRoots(Selected(model, names)), x) && Complete(model, names, t)
    ensures x in t
  {
    hide HasStarts, AllRoots, Selected, Followed;
    StartsWithin(model, names, t);
    var a :| a in AllRoots(Selected(model, names)) && Reaches(model.shapes, a, x);
    var path :| IsPath(model.shapes, path) && path[0] == a && path[|path| - 1] == x;
    PathStaysIn(model.shapes, path, t);
  }

  lemma ClosedFollowed(shapes: Shapes, s: set<string>)
    requires ClosedIn(shapes, s, s)
    ensures Followed(shapes, s) && s <= shapes.Keys
  {
    forall x | x in s
      ensures x in shapes && Within(shapes[x], s)
    {
      RefsWithin(shapes[x], s);
    }
  }

  lemma ReachableCollected(model: Model, names: Option<seq<string>>, s: set<string>)
    requires forall x :: x in s <==> ReachableFrom(model.shapes, AllRoots(Selected(model, names)), x)
    requires forall x :: x in s ==> x in model.shapes
    ensures Complete(model, names, s) && s <= model.shapes.Keys
    ensures forall t: set<string> :: Complete(model, names, t) ==> s <= t
  {
    hide ReachableFrom, AllRoots, Selected, HasStarts, Followed, ClosedIn;
    ReachableIsLeast(model.shapes, AllRoots(Selected(model, names)), s);
    StartsWithin(model, names, s);
    ClosedFollowed(model.shapes, s);
    forall t: set<string>, x | Complete(model, names, t) && x in s
      ensures x in t
    {
      ReachableInComplete(model, names, x, t);
    }
  }

  lemma UnknownIs(model: Model, names: Option<seq<string>>)
    ensures forall n :: n in UnknownNames(model, names) <==> names.Some? && n in names.value && NoOperation(model, n)
  {
    forall n
      ensures n in NamesOf(model.operations) <==> !NoOperation(model, n)
    {
    }
  }

  // A set with the start of a path, and with what its shapes are made of,
  // contains its end.
  lemma {:induction false} PathStaysIn(shapes: Shapes, path: seq<string>, s: set<string>)
    requires IsPath(shapes, path) && path[0] in s && Followed(shapes, s)
    ensures path[|path| - 1] in s
    decreases |path|
  {
    if |path| > 1 {
      assert path[0] in shapes && path[0 + 1] in Refs(shapes[path[0]]);
      var rest := path[1..];
      forall i | 0 <= i < |rest| - 1
        ensures rest[i] in shapes && rest[i + 1] in Refs(shapes[rest[i]])
      {
        assert path[i + 1] in shapes && path[i + 1 + 1] in Refs(shapes[path[i + 1]]);
      }
      RefsWithin(shapes[path[0]], s);
      PathStaysIn(shapes, rest, s);
    }
  }

  // ----- the walk -----

  class Walker {
    const shapes: Shapes
    var reachable: set<string>

    constructor (shapes: Shapes)
      ensures this.shapes == shapes && reachable == {}
    {
      this.shapes, reachable := shapes, {};
    }

    // From the visited set before to the one after, starting at some shapes:
    // everything new is reachable from them and refers only to visited shapes.
    ghost predicate Extended(before: set<string>, starts: seq<string>)
      reads this
    {
      && before <= reachable
      && ClosedIn(shapes, reachable - before, reachable)
      && forall x :: x in reachable - before ==> ReachableFrom(shapes, starts, x)
    }

    // Visits a shape; an error names an undefined shape.
    method Walk(name: string) returns (r: Result<(), string>)
      modifies this
      ensures Extended(old(reachable), [name]) || r.Err?
      ensures r.Ok? ==> name in reachable
      ensures r.Err? ==> r.error !in shapes && Reaches(shapes, name, r.error)
      ensures old(reachable) <= reachable
      decreases shapes.Keys - reachable, 0
    {
      if name in reachable {
        return Ok(());
      }
      ReachesSelf(shapes, name);
      if name !in shapes {
        return Err(name);
      }
      assert name in shapes.Keys - reachable;
      reachable := reachable + {name};
      ghost var marked := reachable;
      r := WalkAll(Refs(shapes[name]));
      forall b, c | b in Refs(shapes[name]) && Reaches(shapes, b, c)
        ensures Reaches(shapes, name, c)
      {
        ReachesStep(shapes, name, b, c);
      }
      if r.Ok? {
        assert reachable - old(reachable) == (reachable - marked) + {name};
      }
    }

    method WalkAll(names: seq<string>) returns (r: Result<(), string>)
      modifies this
      ensures Extended(old(reachable), names) || r.Err?
      ensures r.Ok? ==> forall x :: x in names ==> x in reachable
      ensures r.Err? ==> r.error !in shapes && ReachableFrom(shapes, names, r.error)
      ensures old(reachable) <= reachable
      decreases shapes.Keys - reachable, 1
    {
      var i := 0;
      while i < |names|
        invariant 0 <= i <= |names|
        invariant Extended(old(reachable), names)
        invariant forall k :: 0 <= k < i ==> names[k] in reachable
      {
        ghost var before := reachable;
        assert shapes.Keys - reachable <= shapes.Keys - old(reachable);
        r := Walk(names[i]);
        if r.Err? {
          assert names[i] in names;
          return;
        }
        forall x | x in reachable - before
          ensures ReachableFrom(shapes, names, x)
        {
          assert names[i] in names;
          assert ReachableFrom(shapes, [names[i]], x);
        }
        assert reachable - old(reachable) == (reachable - before) + (before - old(reachable));
        i := i + 1;
      }
      r := Ok(());
    }
  }

  datatype CollectError = UnknownOperation(names: set<string>) | UndefinedShape(name: string)

  function NamesOf(ops: seq<Operation>): set<string> {
    set op | op in ops :: op.name
  }

  function UnknownNames(model: Model, names: Option<seq<string>>): set<string> {
    if names.None? then {} else (set n | n in names.value) - NamesOf(model.operations)
  }

  // The operations selected by name; all of them for None.
  function Selected(model: Model, names: Option<seq<string>>): seq<Operation> {
    match names
    case None => model.operations
    case Some(ns) => Keep(model.operations, ns)
  }

  function Keep(ops: seq<Operation>, names: seq<string>): (r: seq<Operation>)
    ensures forall op :: op in r <==> op in ops && op.name in names
  {
    if ops == [] then []
    else if ops[0].name in names then [ops[0]] + Keep(ops[1..], names)
    else Keep(ops[1..], names)
  }

  lemma {:induction false} RootsOfMember(ops: seq<Operation>, op: Operation, s: string)
    requires op in ops && s in Roots(op)
    ensures s in AllRoots(ops)
  {
    if op != ops[0] {
      RootsOfMember(ops[1..], op, s);
    }
  }

  lemma {:induction false} AllRootsFrom(ops: seq<Operation>, s: string)
    ensures s in AllRoots(ops) ==> exists op :: op in ops && s in Roots(op)
  {
    if ops != [] && s in AllRoots(ops) && s !in Roots(ops[0]) {
      AllRootsFrom(ops[1..], s);
      var op :| op in ops[1..] && s in Roots(op);
      assert op in ops;
    }
  }

  // Exactly the shapes reachable from the inputs, outputs and errors of the
  // selected operations; an undefined shape is reported exactly if one is
  // reachable.
  method CollectReachable(model: Model, names: Option<seq<string>>) returns (r: Result<set<string>, CollectError>)
    ensures var roots := AllRoots(Selected(model, names));
      match r
      case Ok(s) =>
        && (forall x :: x in s <==> ReachableFrom(model.shapes, roots, x))
        && (forall x :: ReachableFrom(model.shapes, roots, x) ==> x in model.shapes)
      case Err(UndefinedShape(u)) => ReachableFrom(model.shapes, roots, u) && u !in model.shapes
      case Err(UnknownOperation(ns)) => ns == UnknownNames(model, names)
    ensures (r.Err? && r.error.UnknownOperation?) <==> UnknownNames(model, names) != {}
    ensures Collected(model, names, r)
  {
    hide ReachableFrom, AllRoots, Selected, Complete, NoOperation, UnknownNames;
    UnknownIs(model, names);
    var unknown := UnknownNames(model, names);
    if unknown != {} {
      return Err(UnknownOperation(unknown));
    }
    var selected := Selected(model, names);
    ghost var roots := AllRoots(selected);
    var walker := new Walker(model.shapes);
    var i := 0;
    while i < |selected|
      invariant 0 <= i <= |selected| && walker.shapes == model.shapes
      invariant walker.Extended({}, roots)
      invariant forall k :: 0 <= k < i ==> forall s :: s in Roots(selected[k]) ==> s in walker.reachable
    {
      ghost var before := walker.reachable;
      var w := walker.WalkAll(Roots(selected[i]));
      if w.Err? {
        MoreRoots(model.shapes, selected, i, w.error);
        forall t: set<string> | Complete(model, names, t)
          ensures w.error in t
        {
          ReachableInComplete(model, names, w.error, t);
        }
        return Err(UndefinedShape(w.error));
      }
      forall x | x in walker.reachable - before
        ensures ReachableFrom(model.shapes, roots, x)
      {
        MoreRoots(model.shapes, selected, i, x);
      }
      assert walker.reachable - {} == (walker.reachable - before) + (before - {});
      i := i + 1;
    }
    assert walker.reachable - {} == walker.reachable;
    ClosedIsAll(model.shapes, selected, walker.reachable);
    ReachableCollected(model, names, walker.reachable);
    return Ok(walker.reachable);
  }

  // A closed set with the roots of every operation has everything reachable.
  lemma ClosedIsAll(shapes: Shapes, ops: seq<Operation>, s: set<string>)
    requires ClosedIn(shapes, s, s)
    requires forall k :: 0 <= k < |ops| ==> forall a :: a in Roots(ops[k]) ==> a in s
    ensures forall x :: ReachableFrom(shapes, AllRoots(ops), x) ==> x in s && x in shapes
  {
    forall x | ReachableFrom(shapes, AllRoots(ops), x)
      ensures x in s
    {
      var a :| a in AllRoots(ops) && Reaches(shapes, a, x);
      AllRootsFrom(ops, a);
      var op :| op in ops && a in Roots(op);
      var path :| IsPath(shapes, path) && path[0] == a && path[|path| - 1] == x;
      ClosedFollowed(shapes, s);
      PathStaysIn(shapes, path, s);
    }
  }

  lemma MoreRoots(shapes: Shapes, ops: seq<Operation>, i: nat, x: string)
    requires i < |ops| && ReachableFrom(shapes, Roots(ops[i]), x)
    ensures ReachableFrom(shapes, AllRoots(ops), x)
  {
    var a :| a in Roots(ops[i]) && Reaches(shapes, a, x);
    RootsOfMember(ops, ops[i], a);
  }

  // The reachable shapes form the least set that contains the roots and is
  // closed under references.
  lemma ReachableIsLeast(shapes: Shapes, roots: seq<string>, s: set<string>)
    requires forall x :: x in s <==> ReachableFrom(shapes, roots, x)
    requires forall x :: x in s ==> x in shapes
    ensures (forall a :: a in roots ==> a in s) && ClosedIn(shapes, s, s)
    ensures forall t :: (forall a :: a in roots ==> a in t) && ClosedIn(shapes, t, t) ==> s <= t
  {
    forall a | a in roots
      ensures a in s
    {
      ReachesSelf(shapes, a);
    }
    forall x, y | x in s && y in Refs(shapes[x])
      ensures y in s
    {
      var a :| a in roots && Reaches(shapes, a, x);
      ReachesSnoc(shapes, a, x, y);
    }
    forall t | (forall a :: a in roots ==> a in t) && ClosedIn(shapes, t, t)
      ensures s <= t
    {
      forall x | x in s
        ensures x in t
      {
        var a :| a in roots && Reaches(shapes, a, x);
        var path :| IsPath(shapes, path) && path[0] == a && path[|path| - 1] == x;
        ClosedFollowed(shapes, t);
        PathStaysIn(shapes, path, t);
      }
    }
  }

  lemma ReachesSnoc(shapes: Shapes, a: string, b: string, c: string)
    requires Reaches(shapes, a, b) && b in shapes && c in Refs(shapes[b])
    ensures Reaches(shapes, a, c)
  {
    var path :| IsPath(shapes, path) && path[0] == a && path[|path| - 1] == b;
    var longer := path + [c];
    forall i | 0 <= i < |longer| - 1
      ensures longer[i] in shapes && longer[i + 1] in Refs(shapes[longer[i]])
    {
      if i < |path| - 1 {
        assert path[i + 1] in Refs(shapes[path[i]]);
      }
    }
    assert IsPath(shapes, longer) && longer[0] == a && longer[|longer| - 1] == c;
  }
}
