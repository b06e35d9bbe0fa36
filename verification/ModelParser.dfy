// From a service model to class definitions: which shapes are emitted, which
// members they keep, and that the result is closed.

module ModelParser {
  import opened Wrappers
  import opened Ordering
  import opened ShapeGraph

  datatype ParseError =
    | NotCollected(why: CollectError)
    | NotFound(shape: string)
    | Unsupported(shape: string)
    | UnknownType(shape: string)

  datatype MemberOut = MemberOut(pieType: string, required: bool)

  datatype Entry = ClassEntry(members: map<string, MemberOut>, required: set<string>) | ScalarEntry(pieType: string)

  datatype Parsed = Parsed(operations: seq<Operation>, shapes: map<string, Entry>)

  // ----- types -----

  function ScalarPie(botocoreType: string): Option<string> {
    if botocoreType == "string" || botocoreType == "blob" then Some("str")
    else if botocoreType == "integer" || botocoreType == "long" || botocoreType == "boolean"
            || botocoreType == "timestamp" then Some("int")
    else None
  }

  // The type token of a field that refers to the shape.
  function ResolvePieType(name: string, shapes: Shapes): (r: Result<string, ParseError>)
    ensures r.Err? ==> !r.error.NotCollected?
  {
    if name !in shapes then Err(NotFound(name))
    else
      match shapes[name]
      case Structure(_, _) => Ok(name)
      case ListOf(_) => Err(Unsupported(name))
      case MapOf(_, _) => Err(Unsupported(name))
      case Scalar(t) => if ScalarPie(t).Some? then Ok(ScalarPie(t).value) else Err(UnknownType(name))
  }

  // The first n members of a structure.  Lists and maps may be skipped; an
  // unknown scalar type is an error even then.
  function MembersOut(shapes: Shapes, members: seq<MemberRef>, required: set<string>, skip: bool)
    : (r: Result<map<string, MemberOut>, ParseError>)
    ensures r.Err? ==> !r.error.NotCollected?
  {
    if members == [] then Ok(map[])
    else
      var n := |members| - 1;
      var before :- MembersOut(shapes, members[..n], required, skip);
      var t := ResolvePieType(members[n].shape, shapes);
      if t.Ok? then Ok(before[members[n].name := MemberOut(t.value, members[n].name in required)])
      else if t.error.Unsupported? && skip then Ok(before)
      else Err(t.error)
  }

  function StructureEntry(shapes: Shapes, s: Shape, skip: bool): (r: Result<Entry, ParseError>)
    requires s.Structure?
    ensures r.Err? ==> !r.error.NotCollected?
  {
    var members :- MembersOut(shapes, s.members, s.required, skip);
    Ok(ClassEntry(members, s.required * members.Keys))
  }

  // The entry of a shape, None if it is skipped.
  function ShapeEntry(name: string, shapes: Shapes, skip: bool): (r: Result<Option<Entry>, ParseError>)
    requires name in shapes
    ensures r.Err? ==> !r.error.NotCollected?
  {
    match shapes[name]
    case Structure(_, _) =>
      var e :- StructureEntry(shapes, shapes[name], skip);
      Ok(Some(e))
    case ListOf(_) => if skip then Ok(None) else Err(Unsupported(name))
    case MapOf(_, _) => if skip then Ok(None) else Err(Unsupported(name))
    case Scalar(t) =>
      if ScalarPie(t).Some? then Ok(Some(ScalarEntry(ScalarPie(t).value)))
      else if skip then Ok(None)
      else Err(UnknownType(name))
  }

  // ----- the parser -----

  class Parser {
    const model: Model
    const names: Option<seq<string>>
    const skipUnsupported: bool

    constructor (model: Model, names: Option<seq<string>>, skipUnsupported: bool)
      ensures this.model == model && this.names == names && this.skipUnsupported == skipUnsupported
    {
      this.model, this.names, this.skipUnsupported := model, names, skipUnsupported;
    }

    method ParseStructureShape(s: Shape) returns (r: Result<Entry, ParseError>)
      requires s.Structure?
      ensures r == StructureEntry(model.shapes, s, skipUnsupported)
    {
      var out: map<string, MemberOut> := map[];
      var i := 0;
      while i < |s.members|
        invariant 0 <= i <= |s.members|
        invariant MembersOut(model.shapes, s.members[..i], s.required, skipUnsupported) == Ok(out)
      {
        var m := s.members[i];
        assert s.members[..i + 1][..i] == s.members[..i];
        var t := ResolvePieType(m.shape, model.shapes);
        if t.Ok? {
          out := out[m.name := MemberOut(t.value, m.name in s.required)];
        } else if !(t.error.Unsupported? && skipUnsupported) {
          FirstError(model.shapes, s.members, s.required, skipUnsupported, i + 1);
          return Err(t.error);
        }
        i := i + 1;
      }
      assert s.members[..i] == s.members;
      return Ok(ClassEntry(out, s.required * out.Keys));
    }

    method ParseShapes(order: seq<string>) returns (r: Result<map<string, Entry>, ParseError>)
      requires forall x :: x in order ==> x in model.shapes
      ensures r.Ok? ==> forall x :: x in r.value ==> x in order
      ensures r.Ok? ==> forall x :: x in order ==>
        match ShapeEntry(x, model.shapes, skipUnsupported)
        case Ok(None) => x !in r.value
        case Ok(Some(e)) => x in r.value && r.value[x] == e
        case Err(_) => false
      ensures r.Err? ==> exists x :: x in order && ShapeEntry(x, model.shapes, skipUnsupported) == Err(r.error)
    {
      var result: map<string, Entry> := map[];
      var i := 0;
      while i < |order|
        invariant 0 <= i <= |order|
        invariant forall x :: x in result ==> x in order[..i]
        invariant forall x :: x in order[..i] ==>
          match ShapeEntry(x, model.shapes, skipUnsupported)
          case Ok(None) => x !in result
          case Ok(Some(e)) => x in result && result[x] == e
          case Err(_) => false
      {
        var name := order[i];
        assert name in order && order[..i + 1] == order[..i] + [name];
        var entry: Option<Entry> := None;
        match model.shapes[name] {
          case Structure(_, _) =>
            var e := ParseStructureShape(model.shapes[name]);
            if e.Err? {
              return Err(e.error);
            }
            entry := Some(e.value);
          case Scalar(t) =>
            var pie := ScalarPie(t);
            if pie.Some? {
              entry := Some(ScalarEntry(pie.value));
            } else if !skipUnsupported {
              return Err(UnknownType(name));
            }
          case _ =>
            if !skipUnsupported {
              return Err(Unsupported(name));
            }
        }
        if entry.Some? {
          result := result[name := entry.value];
        }
        i := i + 1;
      }
      assert order[..i] == order;
      return Ok(result);
    }

    // By name.
    method ParseOperations() returns (ops: seq<Operation>)
      ensures multiset(ops) == multiset(Listed(model, names)) && SortedByName(ops)
    {
      var selected := model.operations;
      if names.Some? && names.value != [] {
        selected := Keep(model.operations, names.value);
      }
      ops := [];
      var i := 0;
      while i < |selected|
        invariant 0 <= i <= |selected|
        invariant multiset(ops) == multiset(selected[..i]) && SortedByName(ops)
      {
        assert selected[..i + 1] == selected[..i] + [selected[i]];
        ops := InsertByName(ops, selected[i]);
        i := i + 1;
      }
      assert selected[..i] == selected;
    }

    // Success: the shapes are those reachable from the selected operations
    // that have an entry, closed under class types and required members; and
    // the operations listed find their structures exactly if the list of names
    // was not empty or no operation has one.  Failure: the error is that of an
    // unknown operation or of a reachable shape.
    method Parse() returns (r: Result<Parsed, ParseError>)
      ensures var roots := AllRoots(Selected(model, names));
        match r
        case Ok(p) =>
          && (forall x :: ReachableFrom(model.shapes, roots, x) ==> x in model.shapes)
          && EntriesOf(model.shapes, roots, skipUnsupported, p.shapes)
          && multiset(p.operations) == multiset(Listed(model, names)) && SortedByName(p.operations)
          && TypesClosed(p.shapes) && RequiredEmitted(p.shapes)
          && (OperationsClosed(model.shapes, p) <==> names != Some([]) || NoStructures(model))
        case Err(NotCollected(UnknownOperation(ns))) => ns == UnknownNames(model, names) != {}
        case Err(NotCollected(UndefinedShape(u))) => ReachableFrom(model.shapes, roots, u) && u !in model.shapes
        case Err(e) => exists x :: (
          && ReachableFrom(model.shapes, roots, x) && x in model.shapes
          && ShapeEntry(x, model.shapes, skipUnsupported) == Err(e))
      ensures ParsesTo(model, names, skipUnsupported, r)
    {
      hide AllRoots, Selected, ReachableFrom, ShapeEntry, Complete, ShapesAre, Refused;
      ListedSays(model, names);
      var reachable := CollectReachable(model, names);
      if reachable.Err? {
        return Err(NotCollected(reachable.error));
      }
      var operations := ParseOperations();
      var order := SortNames(reachable.value);
      var shapes := ParseShapes(order);
      if shapes.Err? {
        RefusedBecause(model, names, skipUnsupported, reachable.value, order, shapes.error);
        return Err(shapes.error);
      }
      assert forall op :: op in operations <==> op in multiset(operations);
      Closure(model, names, skipUnsupported, reachable.value, operations, shapes.value);
      ShapesSay(model, names, skipUnsupported, reachable.value, shapes.value);
      return Ok(Parsed(operations, shapes.value));
    }
  }

  // The operations that are listed.  An empty list of names counts as no list
  // here, though not for reachability.
  function Listed(model: Model, names: Option<seq<string>>): seq<Operation> {
    if names == None || names == Some([]) then model.operations else Keep(model.operations, names.value)
  }

  predicate SortedByName(ops: seq<Operation>) {
    forall i, j :: 0 <= i < j < |ops| ==> !Before(ops[j].name, ops[i].name)
  }

  method InsertByName(ops: seq<Operation>, op: Operation) returns (more: seq<Operation>)
    requires SortedByName(ops)
    ensures multiset(more) == multiset(ops) + multiset{op} && SortedByName(more)
  {
    hide Before;
    var i := 0;
    while i < |ops| && !Before(op.name, ops[i].name)
      invariant 0 <= i <= |ops|
      invariant forall k :: 0 <= k < i ==> !Before(op.name, ops[k].name)
    {
      i := i + 1;
    }
    more := ops[..i] + [op] + ops[i..];
    assert ops == ops[..i] + ops[i..];
    forall k | i <= k < |ops|
      ensures !Before(ops[k].name, op.name)
    {
      BeforeTotal(ops[i].name, ops[i].name);
      BeforeUpTo(op.name, ops[i].name, ops[k].name);
    }
    InsertedSorted(ops, op, i);
  }

  lemma BeforeUpTo(a: string, b: string, c: string)
    requires Before(a, b) && !Before(c, b)
    ensures !Before(c, a)
  {
    BeforeTotal(b, c);
    if Before(b, c) {
      BeforeTrans(a, b, c);
    }
    BeforeTotal(a, c);
  }

  lemma InsertedSorted(ops: seq<Operation>, op: Operation, i: nat)
    requires SortedByName(ops) && i <= |ops|
    requires forall k :: 0 <= k < i ==> !Before(op.name, ops[k].name)
    requires forall k :: i <= k < |ops| ==> !Before(ops[k].name, op.name)
    ensures SortedByName(ops[..i] + [op] + ops[i..])
  {
    hide Before;
    BeforeTotal(op.name, op.name);
  }

  // The output holds the entry of every reachable shape, and nothing else.
  ghost predicate EntriesOf(shapes: Shapes, roots: seq<string>, skip: bool, out: map<string, Entry>) {
    && (forall x :: x in out ==> ReachableFrom(shapes, roots, x))
    && forall x :: ReachableFrom(shapes, roots, x) && x in shapes ==>
         match ShapeEntry(x, shapes, skip)
         case Ok(None) => x !in out
         case Ok(Some(e)) => x in out && out[x] == e
         case Err(_) => false
  }

  lemma {:induction false} FirstError(shapes: Shapes, members: seq<MemberRef>, required: set<string>, skip: bool,
                                      k: nat)
    requires k <= |members| && MembersOut(shapes, members[..k], required, skip).Err?
    ensures MembersOut(shapes, members, required, skip) == MembersOut(shapes, members[..k], required, skip)
  {
    var n := |members| - 1;
    if k <= n {
      assert members[..n][..k] == members[..k];
      FirstError(shapes, members[..n], required, skip, k);
    } else {
      assert members[..k] == members;
    }
  }

  // ----- what the output says of the model -----

  // A field that refers to the shape has this type: the class of a structure,
  // or the primitive of a known scalar.
  predicate Typed(shapes: Shapes, name: string, pie: string) {
    && name in shapes
    && match shapes[name]
       case Structure(_, _) => pie == name
       case Scalar(t) =>
         (pie == "str" && (t == "string" || t == "blob")) ||
         (pie == "int" && (t == "integer" || t == "long" || t == "boolean" || t == "timestamp"))
       case _ => false
  }

  predicate Compound(shapes: Shapes, name: string) {
    name in shapes && (shapes[name].ListOf? || shapes[name].MapOf?)
  }

  // A scalar of another type.
  predicate Odd(shapes: Shapes, name: string) {
    && name in shapes && shapes[name].Scalar?
    && shapes[name].botocoreType !in {"string", "blob", "integer", "long", "boolean", "timestamp"}
  }

  predicate DistinctNames(members: seq<MemberRef>) {
    forall i, j :: 0 <= i < j < |members| ==> members[i].name != members[j].name
  }

  // The members kept are those with a type, with that type, and are required
  // if their structure says so.
  ghost predicate MembersAre(shapes: Shapes, members: seq<MemberRef>, required: set<string>,
                             out: map<string, MemberOut>) {
    && (forall n :: n in out ==> (out[n].required <==> n in required) && Kept(shapes, members, n, out[n].pieType))
    && (forall m, pie :: m in members && Typed(shapes, m.shape, pie) ==>
          m.name in out && (DistinctNames(members) ==> out[m.name].pieType == pie))
  }

  predicate Kept(shapes: Shapes, members: seq<MemberRef>, n: string, pie: string) {
    exists m :: m in members && m.name == n && Typed(shapes, m.shape, pie)
  }

  // What a shape is turned into: a class with exactly the required members it
  // keeps, a primitive, or nothing.
  ghost predicate EntryIs(shapes: Shapes, name: string, entry: Option<Entry>)
    requires name in shapes
  {
    match shapes[name]
    case Structure(members, required) =>
      && entry.Some? && entry.value.ClassEntry?
      && MembersAre(shapes, members, required, entry.value.members)
      && forall n :: n in entry.value.required <==> n in required && n in entry.value.members
    case Scalar(_) =>
      if entry.None? then Odd(shapes, name) else entry.value.ScalarEntry? && Typed(shapes, name, entry.value.pieType)
    case _ => entry.None?
  }

  // The shapes that an error is about: lists and maps, unless they are skipped;
  // and odd scalars, unless they are skipped and no field has them.
  predicate Refused(shapes: Shapes, s: set<string>, skip: bool, e: ParseError) {
    match e
    case Unsupported(y) => y in s && Compound(shapes, y) && !skip
    case UnknownType(y) =>
      && y in s && Odd(shapes, y)
      && (!skip ||
          exists x, m :: x in s && x in shapes && shapes[x].Structure? && m in shapes[x].members && m.shape == y)
    case _ => false
  }

  predicate IsListed(names: Option<seq<string>>, op: Operation) {
    names == None || names == Some([]) || op.name in names.value
  }

  // A parse says of each shape that its operations need what it is, or fails
  // because of one of them; and lists the operations asked for.
  ghost predicate ParsesTo(model: Model, names: Option<seq<string>>, skip: bool, r: Result<Parsed, ParseError>) {
    match r
    case Err(NotCollected(why)) => Collected(model, names, Err(why))
    case Err(e) => exists s :: Collected(model, names, Ok(s)) && Refused(model.shapes, s, skip, e)
    case Ok(p) =>
      && (exists s :: Collected(model, names, Ok(s)) && ShapesAre(model.shapes, s, skip, p.shapes))
      && forall op :: multiset(p.operations)[op] == if IsListed(names, op) then multiset(model.operations)[op] else 0
  }

  ghost predicate ShapesAre(shapes: Shapes, s: set<string>, skip: bool, out: map<string, Entry>) {
    && (forall e :: !Refused(shapes, s, skip, e))
    && out.Keys <= s
    && forall x :: x in s && x in shapes ==> EntryIs(shapes, x, if x in out then Some(out[x]) else None)
  }

  lemma TypedIs(name: string, shapes: Shapes)
    ensures match ResolvePieType(name, shapes)
      case Ok(t) => forall pie :: Typed(shapes, name, pie) <==> pie == t
      case Err(e) =>
        && (forall pie :: !Typed(shapes, name, pie))
        && (name in shapes ==> e == (if Compound(shapes, name) then Unsupported(name) else UnknownType(name)))
        && (name in shapes ==> Compound(shapes, name) || Odd(shapes, name))
  {
    TypesDistinct();
  }

  lemma TypesDistinct()
    ensures "string" != "integer" && "string" != "long" && "string" != "boolean" && "string" != "timestamp"
    ensures "blob" != "integer" && "blob" != "long" && "blob" != "boolean" && "blob" != "timestamp"
  {
    assert "blob"[0] == 'b' && "boolean"[1] == 'o' && "blob"[1] == 'l';
    assert "string"[0] == 's' && "integer"[0] == 'i' && "long"[0] == 'l' && "boolean"[0] == 'b';
    assert "timestamp"[0] == 't';
  }

  // A member that an error is about.
  predicate Blamed(shapes: Shapes, m: MemberRef, skip: bool, e: ParseError) {
    match e
    case Unsupported(y) => y == m.shape && Compound(shapes, y) && !skip
    case UnknownType(y) => y == m.shape && Odd(shapes, y)
    case _ => false
  }

  lemma {:induction false} MembersSay(shapes: Shapes, members: seq<MemberRef>, required: set<string>, skip: bool)
    requires forall m :: m in members ==> m.shape in shapes
    ensures match MembersOut(shapes, members, required, skip)
      case Ok(out) =>
        && MembersAre(shapes, members, required, out)
        && forall m :: m in members ==> !Odd(shapes, m.shape) && (Compound(shapes, m.shape) ==> skip)
      case Err(e) => exists m :: m in members && Blamed(shapes, m, skip, e)
  {
    hide ResolvePieType, Typed, Odd, Compound, MembersAre;
    if members == [] {
      NoMembers(shapes, required);
    } else {
      var n := |members| - 1;
      var init, last := members[..n], members[n];
      assert members == init + [last];
      MembersSay(shapes, init, required, skip);
      OneSaid(shapes, last, skip);
      var before, t := MembersOut(shapes, init, required, skip), ResolvePieType(last.shape, shapes);
      if before.Ok? && t.Ok? {
        AddKept(shapes, init, last, required, before.value, t.value);
      } else if before.Ok? {
        AddSkipped(shapes, init, last, required, before.value);
      }
    }
  }

  lemma NoMembers(shapes: Shapes, required: set<string>)
    ensures MembersAre(shapes, [], required, map[])
  {
  }

  lemma OneSaid(shapes: Shapes, m: MemberRef, skip: bool)
    requires m.shape in shapes
    ensures match ResolvePieType(m.shape, shapes)
      case Ok(t) =>
        && !Odd(shapes, m.shape) && !Compound(shapes, m.shape)
        && forall pie :: Typed(shapes, m.shape, pie) <==> pie == t
      case Err(e) =>
        && (forall pie :: !Typed(shapes, m.shape, pie)) && (e.Unsupported? <==> !Odd(shapes, m.shape))
        && (Blamed(shapes, m, skip, e) || (e.Unsupported? && skip))
  {
    TypedIs(m.shape, shapes);
    TypesDistinct();
  }

  lemma KeptSnoc(shapes: Shapes, init: seq<MemberRef>, last: MemberRef, n: string, pie: string)
    requires Kept(shapes, init, n, pie) || (last.name == n && Typed(shapes, last.shape, pie))
    ensures Kept(shapes, init + [last], n, pie)
  {
    hide Typed;
    if Kept(shapes, init, n, pie) {
      var m :| m in init && m.name == n && Typed(shapes, m.shape, pie);
      assert m in init + [last];
    } else {
      assert last in init + [last];
    }
  }

  lemma DistinctSnoc(init: seq<MemberRef>, last: MemberRef)
    ensures DistinctNames(init + [last]) ==> DistinctNames(init) && forall m :: m in init ==> m.name != last.name
  {
    var all := init + [last];
    if DistinctNames(all) {
      forall i, j | 0 <= i < j < |init|
        ensures init[i].name != init[j].name
      {
        assert all[i].name != all[j].name;
      }
      forall i | 0 <= i < |init|
        ensures init[i].name != last.name
      {
        assert all[i].name != all[|init|].name;
      }
    }
  }

  lemma AddKept(shapes: Shapes, init: seq<MemberRef>, last: MemberRef, required: set<string>,
                before: map<string, MemberOut>, t: string)
    requires MembersAre(shapes, init, required, before)
    requires forall pie :: Typed(shapes, last.shape, pie) <==> pie == t
    ensures MembersAre(shapes, init + [last], required, before[last.name := MemberOut(t, last.name in required)])
  {
    hide Typed, DistinctNames, Kept;
    var out := before[last.name := MemberOut(t, last.name in required)];
    DistinctSnoc(init, last);
    forall n | n in out
      ensures (out[n].required <==> n in required) && Kept(shapes, init + [last], n, out[n].pieType)
    {
      KeptSnoc(shapes, init, last, n, out[n].pieType);
    }
    forall m, pie | m in init + [last] && Typed(shapes, m.shape, pie)
      ensures m.name in out && (DistinctNames(init + [last]) ==> out[m.name].pieType == pie)
    {
      assert m in init || m == last;
    }
  }

  lemma AddSkipped(shapes: Shapes, init: seq<MemberRef>, last: MemberRef, required: set<string>,
                   before: map<string, MemberOut>)
    requires MembersAre(shapes, init, required, before)
    requires forall pie :: !Typed(shapes, last.shape, pie)
    ensures MembersAre(shapes, init + [last], required, before)
  {
    hide Typed, DistinctNames, Kept;
    DistinctSnoc(init, last);
    forall n | n in before
      ensures (before[n].required <==> n in required) && Kept(shapes, init + [last], n, before[n].pieType)
    {
      KeptSnoc(shapes, init, last, n, before[n].pieType);
    }
    forall m, pie | m in init + [last] && Typed(shapes, m.shape, pie)
      ensures m.name in before && (DistinctNames(init + [last]) ==> before[m.name].pieType == pie)
    {
      assert m in init || m == last;
    }
  }

  lemma EntrySays(shapes: Shapes, s: set<string>, skip: bool, x: string)
    requires x in s && x in shapes && Followed(shapes, s) && s <= shapes.Keys
    ensures match ShapeEntry(x, shapes, skip)
      case Ok(entry) => EntryIs(shapes, x, entry)
      case Err(e) => Refused(shapes, s, skip, e)
    ensures ShapeEntry(x, shapes, skip).Ok? ==>
      && (!skip ==> !Compound(shapes, x) && !Odd(shapes, x))
      && (shapes[x].Structure? ==> forall m :: m in shapes[x].members ==> !Odd(shapes, m.shape))
  {
    hide MembersOut, MembersAre, Odd, Compound, Typed;
    if shapes[x].Structure? {
      assert Within(shapes[x], s);
      MembersSay(shapes, shapes[x].members, shapes[x].required, skip);
      StructureSays(shapes, s, skip, x);
    } else {
      TypedIs(x, shapes);
      ScalarsOnly(shapes, x);
    }
  }

  lemma ScalarsOnly(shapes: Shapes, x: string)
    requires x in shapes && !shapes[x].Structure?
    ensures Compound(shapes, x) <==> !shapes[x].Scalar?
    ensures Odd(shapes, x) <==> shapes[x].Scalar? && ScalarPie(shapes[x].botocoreType).None?
  {
  }

  lemma StructureSays(shapes: Shapes, s: set<string>, skip: bool, x: string)
    requires x in s && x in shapes && shapes[x].Structure? && Within(shapes[x], s)
    ensures !Compound(shapes, x) && !Odd(shapes, x)
    ensures forall m, e :: m in shapes[x].members && Blamed(shapes, m, skip, e) ==> Refused(shapes, s, skip, e)
  {
    hide Compound, Odd;
    NotOdd(shapes, x);
  }

  lemma NotOdd(shapes: Shapes, x: string)
    requires x in shapes && shapes[x].Structure?
    ensures !Compound(shapes, x) && !Odd(shapes, x)
  {
  }

  lemma ShapesSay(model: Model, names: Option<seq<string>>, skip: bool, s: set<string>, out: map<string, Entry>)
    requires Collected(model, names, Ok(s)) && Emitted(model.shapes, s, skip, out)
    ensures ShapesAre(model.shapes, s, skip, out)
  {
    hide ShapeEntry, EntryIs, Odd, Compound;
    forall x | x in s
      ensures EntryIs(model.shapes, x, if x in out then Some(out[x]) else None)
      ensures !skip ==> !Compound(model.shapes, x) && !Odd(model.shapes, x)
      ensures model.shapes[x].Structure? ==> forall m :: m in model.shapes[x].members ==> !Odd(model.shapes, m.shape)
    {
      EntrySays(model.shapes, s, skip, x);
    }
  }

  lemma RefusedBecause(model: Model, names: Option<seq<string>>, skip: bool, s: set<string>, order: seq<string>,
                       e: ParseError)
    requires Collected(model, names, Ok(s)) && forall x :: x in order ==> x in s
    requires exists x :: x in order && x in model.shapes && ShapeEntry(x, model.shapes, skip) == Err(e)
    ensures Refused(model.shapes, s, skip, e)
  {
    hide ShapeEntry, Refused;
    var x :| x in order && x in model.shapes && ShapeEntry(x, model.shapes, skip) == Err(e);
    EntrySays(model.shapes, s, skip, x);
  }

  lemma {:induction false} KeepCounts(ops: seq<Operation>, names: seq<string>, op: Operation)
    ensures multiset(Keep(ops, names))[op] == if op.name in names then multiset(ops)[op] else 0
  {
    if ops != [] {
      KeepCounts(ops[1..], names, op);
      assert ops == [ops[0]] + ops[1..];
    }
  }

  lemma ListedSays(model: Model, names: Option<seq<string>>)
    ensures forall op :: (
      multiset(Listed(model, names))[op] == if IsListed(names, op) then multiset(model.operations)[op] else 0)
  {
    forall op
      ensures multiset(Listed(model, names))[op] == if IsListed(names, op) then multiset(model.operations)[op] else 0
    {
      if names.Some? {
        KeepCounts(model.operations, names.value, op);
      }
    }
  }

  // ----- closure -----

  // Every type token of a member is a primitive or names an emitted class.
  predicate TypesClosed(shapes: map<string, Entry>) {
    forall s :: s in shapes && shapes[s].ClassEntry? ==>
      forall n :: n in shapes[s].members ==> TypeKnown(shapes, shapes[s].members[n].pieType)
  }

  predicate TypeKnown(shapes: map<string, Entry>, t: string) {
    t == "str" || t == "int" || (t in shapes && shapes[t].ClassEntry?)
  }

  predicate RequiredEmitted(shapes: map<string, Entry>) {
    forall s :: s in shapes && shapes[s].ClassEntry? ==> shapes[s].required <= shapes[s].members.Keys
  }

  // Every structure that an operation names has its class.
  predicate OperationsClosed(shapes: Shapes, parsed: Parsed) {
    forall op :: op in parsed.operations ==>
      forall s :: s in Roots(op) && s in shapes && shapes[s].Structure? ==>
        s in parsed.shapes && parsed.shapes[s].ClassEntry?
  }

  predicate NoStructures(model: Model) {
    forall op :: op in model.operations ==>
      forall s :: s in Roots(op) ==> s !in model.shapes || !model.shapes[s].Structure?
  }

  // A kept member refers to a structure or a known scalar.
  lemma {:induction false} MemberOrigin(shapes: Shapes, members: seq<MemberRef>, required: set<string>, skip: bool,
                                        n: string)
    requires MembersOut(shapes, members, required, skip).Ok?
    requires n in MembersOut(shapes, members, required, skip).value
    ensures exists m :: (
      && m in members && m.name == n
      && ResolvePieType(m.shape, shapes) == Ok(MembersOut(shapes, members, required, skip).value[n].pieType))
  {
    var k := |members| - 1;
    var last := members[k];
    var before := MembersOut(shapes, members[..k], required, skip).value;
    var t := ResolvePieType(last.shape, shapes);
    if t.Ok? && last.name == n {
      assert last in members;
    } else {
      MemberOrigin(shapes, members[..k], required, skip, n);
      var m :| m in members[..k] && m.name == n && ResolvePieType(m.shape, shapes) == Ok(before[n].pieType);
      assert m in members;
    }
  }

  // What ParseShapes has made of the reachable shapes.
  ghost predicate Emitted(shapes: Shapes, reachable: set<string>, skip: bool, out: map<string, Entry>) {
    && (forall x :: x in reachable ==> x in shapes)
    && (forall x :: x in out ==> x in reachable)
    && forall x :: x in reachable && x in shapes ==>
         match ShapeEntry(x, shapes, skip)
         case Ok(None) => x !in out
         case Ok(Some(e)) => x in out && out[x] == e
         case Err(_) => false
  }

  // Structures are never skipped.
  lemma StructureEmitted(shapes: Shapes, reachable: set<string>, skip: bool, out: map<string, Entry>, x: string)
    requires Emitted(shapes, reachable, skip, out) && x in reachable && shapes[x].Structure?
    ensures x in out && out[x].ClassEntry? && Ok(out[x]) == StructureEntry(shapes, shapes[x], skip)
    ensures MembersOut(shapes, shapes[x].members, shapes[x].required, skip) == Ok(out[x].members)
    ensures out[x].required <= out[x].members.Keys
  {
  }

  lemma ClassFromStructure(shapes: Shapes, reachable: set<string>, skip: bool, out: map<string, Entry>, x: string)
    requires Emitted(shapes, reachable, skip, out) && x in out && out[x].ClassEntry?
    ensures x in reachable && x in shapes && shapes[x].Structure?
  {
    var e := ShapeEntry(x, shapes, skip);
    assert e == Ok(Some(out[x]));
  }

  lemma MemberTypeKnown(shapes: Shapes, reachable: set<string>, skip: bool, out: map<string, Entry>,
                        x: string, n: string)
    requires Emitted(shapes, reachable, skip, out) && ClosedIn(shapes, reachable, reachable)
    requires x in reachable && shapes[x].Structure? && x in out && out[x].ClassEntry? && n in out[x].members
    ensures TypeKnown(out, out[x].members[n].pieType)
  {
    hide MembersOut, StructureEntry, ShapeEntry;
    StructureEmitted(shapes, reachable, skip, out, x);
    var s := shapes[x];
    MemberOrigin(shapes, s.members, s.required, skip, n);
    var m :| m in s.members && m.name == n && ResolvePieType(m.shape, shapes) == Ok(out[x].members[n].pieType);
    var k :| 0 <= k < |s.members| && s.members[k] == m;
    assert Refs(s)[k] == m.shape;
    assert m.shape in reachable;
    if shapes[m.shape].Structure? {
      StructureEmitted(shapes, reachable, skip, out, m.shape);
    }
  }

  lemma Closure(model: Model, names: Option<seq<string>>, skip: bool, reachable: set<string>,
                operations: seq<Operation>, out: map<string, Entry>)
    requires Emitted(model.shapes, reachable, skip, out)
    requires var roots := AllRoots(Selected(model, names));
      forall x :: x in reachable <==> ReachableFrom(model.shapes, roots, x)
    requires forall op :: op in operations <==> op in Listed(model, names)
    ensures TypesClosed(out) && RequiredEmitted(out)
    ensures OperationsClosed(model.shapes, Parsed(operations, out)) <==> names != Some([]) || NoStructures(model)
  {
    hide MembersOut, StructureEntry, ReachableFrom, AllRoots, Emitted, Keep, ShapeEntry;
    var roots := AllRoots(Selected(model, names));
    assert forall x :: x in reachable ==> x in model.shapes by {
      assert Emitted(model.shapes, reachable, skip, out);
      ReachableDefined(model.shapes, reachable, skip, out);
    }
    ReachableIsLeast(model.shapes, roots, reachable);
    forall s | s in out && out[s].ClassEntry?
      ensures out[s].required <= out[s].members.Keys
      ensures forall n :: n in out[s].members ==> TypeKnown(out, out[s].members[n].pieType)
    {
      ClassFromStructure(model.shapes, reachable, skip, out, s);
      StructureEmitted(model.shapes, reachable, skip, out, s);
      forall n | n in out[s].members
        ensures TypeKnown(out, out[s].members[n].pieType)
      {
        MemberTypeKnown(model.shapes, reachable, skip, out, s, n);
      }
    }
    if names != Some([]) {
      OperationsFound(model, names, skip, reachable, operations, out);
    } else {
      NothingSelected(model, reachable, skip, operations, out);
    }
  }

  lemma ReachableDefined(shapes: Shapes, reachable: set<string>, skip: bool, out: map<string, Entry>)
    requires Emitted(shapes, reachable, skip, out)
    ensures forall x :: x in reachable ==> x in shapes
  {
  }

  lemma OperationsFound(model: Model, names: Option<seq<string>>, skip: bool, reachable: set<string>,
                        operations: seq<Operation>, out: map<string, Entry>)
    requires Emitted(model.shapes, reachable, skip, out) && names != Some([])
    requires forall op :: op in operations <==> op in Selected(model, names)
    requires forall a :: a in AllRoots(Selected(model, names)) ==> a in reachable
    ensures OperationsClosed(model.shapes, Parsed(operations, out))
  {
    hide Emitted, AllRoots, Selected, StructureEntry, MembersOut, Roots;
    forall op, s | op in operations && s in Roots(op) && s in model.shapes && model.shapes[s].Structure?
      ensures s in out && out[s].ClassEntry?
    {
      RootsOfMember(Selected(model, names), op, s);
      StructureEmitted(model.shapes, reachable, skip, out, s);
    }
  }

  // With an empty list of names nothing is reachable, yet all operations are
  // listed.
  lemma NothingSelected(model: Model, reachable: set<string>, skip: bool, operations: seq<Operation>,
                        out: map<string, Entry>)
    requires Emitted(model.shapes, reachable, skip, out)
    requires forall op :: op in operations <==> op in model.operations
    requires forall x :: x in reachable <==> ReachableFrom(model.shapes, AllRoots(Selected(model, Some([]))), x)
    ensures OperationsClosed(model.shapes, Parsed(operations, out)) <==> NoStructures(model)
  {
    assert Keep(model.operations, []) == [] by {
      KeepNone(model.operations);
    }
    assert reachable == {};
    assert out == map[];
  }

  lemma {:induction false} KeepNone(ops: seq<Operation>)
    ensures Keep(ops, []) == []
  {
    if ops != [] {
      KeepNone(ops[1..]);
    }
  }
}
