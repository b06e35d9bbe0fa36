// The generated stub module: class definitions in alphabetical order, fields
// with the required ones first, and one stub per operation; and whether the
// compiler, which registers classes one after the other, knows their types.

module PieGenerator {
  import opened Wrappers
  import opened Ordering
  import opened ShapeGraph
  import opened ModelParser

  type Fields = seq<(string, string)>

  datatype ClassDef = ClassDef(name: string, fields: Fields)

  datatype Stub = Stub(name: string, params: Fields, result: string)

  function Classes(parsed: Parsed): set<string> {
    set s | s in parsed.shapes && parsed.shapes[s].ClassEntry?
  }

  // ----- fields -----

  // Required members first, each group in alphabetical order.
  ghost predicate InFieldOrder(members: map<string, MemberOut>, required: set<string>, names: seq<string>) {
    exists r, o :: names == r + o && Sorting(r, members.Keys * required) && Sorting(o, members.Keys - required)
  }

  function WithTypes(members: map<string, MemberOut>, names: seq<string>): Fields
    requires forall n :: n in names ==> n in members
  {
    seq(|names|, i requires 0 <= i < |names| => (names[i], members[names[i]].pieType))
  }

  ghost predicate FieldsOf(e: Entry, fields: Fields)
    requires e.ClassEntry?
  {
    exists names :: (
      && InFieldOrder(e.members, e.required, names) && (forall n :: n in names ==> n in e.members)
      && fields == WithTypes(e.members, names))
  }

  // The order is determined, so that any two listings of the fields agree.
  lemma FieldsUnique(e: Entry, a: Fields, b: Fields)
    requires e.ClassEntry? && FieldsOf(e, a) && FieldsOf(e, b)
    ensures a == b
  {
    hide Sorting;
    var s :| InFieldOrder(e.members, e.required, s) && (forall n :: n in s ==> n in e.members)
             && a == WithTypes(e.members, s);
    var t :| InFieldOrder(e.members, e.required, t) && (forall n :: n in t ==> n in e.members)
             && b == WithTypes(e.members, t);
    var r, o :| s == r + o && Sorting(r, e.members.Keys * e.required) && Sorting(o, e.members.Keys - e.required);
    var r2, o2 :| t == r2 + o2 && Sorting(r2, e.members.Keys * e.required) && Sorting(o2, e.members.Keys - e.required);
    SortingUnique(r, r2, e.members.Keys * e.required);
    SortingUnique(o, o2, e.members.Keys - e.required);
  }

  method FieldList(e: Entry) returns (fields: Fields)
    requires e.ClassEntry?
    ensures FieldsOf(e, fields)
  {
    var r := SortNames(e.members.Keys * e.required);
    var o := SortNames(e.members.Keys - e.required);
    var names := r + o;
    assert InFieldOrder(e.members, e.required, names);
    fields := WithTypes(e.members, names);
  }

  // ----- the module -----

  // The parameters of a stub: the fields of its input class, or a single
  // request for another input.
  ghost predicate ParamsOf(parsed: Parsed, op: Operation, params: Fields) {
    |params| > 0 && params[0] == ("endpoint", "str") &&
    match op.input
    case None => |params| == 1
    case Some(s) =>
      if s in Classes(parsed) then FieldsOf(parsed.shapes[s], params[1..])
      else params[1..] == [("request", if s in parsed.shapes then parsed.shapes[s].pieType else "str")]
  }

  function ReturnOf(parsed: Parsed, op: Operation): string {
    match op.output
    case None => "int"
    case Some(s) =>
      if s !in parsed.shapes then "int"
      else if parsed.shapes[s].ClassEntry? then s
      else parsed.shapes[s].pieType
  }

  function NamesIn(classes: seq<ClassDef>): seq<string> {
    seq(|classes|, i requires 0 <= i < |classes| => classes[i].name)
  }

  ghost predicate ClassOf(parsed: Parsed, c: ClassDef) {
    c.name in Classes(parsed) && FieldsOf(parsed.shapes[c.name], c.fields)
  }

  ghost predicate StubOf(parsed: Parsed, op: Operation, s: Stub) {
    s.name == op.name && ParamsOf(parsed, op, s.params) && s.result == ReturnOf(parsed, op)
  }

  // One class per class entry, in alphabetical order, and one stub per
  // operation, in the order of the operations.
  method GeneratePie(parsed: Parsed) returns (classes: seq<ClassDef>, stubs: seq<Stub>)
    ensures Sorting(NamesIn(classes), Classes(parsed))
    ensures forall i :: 0 <= i < |classes| ==> ClassOf(parsed, classes[i])
    ensures |stubs| == |parsed.operations|
    ensures forall i :: 0 <= i < |stubs| ==> StubOf(parsed, parsed.operations[i], stubs[i])
  {
    hide Sorting, FieldsOf;
    var order := SortNames(Classes(parsed));
    Members(order, Classes(parsed));
    classes, stubs := [], [];
    var i := 0;
    while i < |order|
      invariant 0 <= i <= |order| == |order| && |classes| == i
      invariant forall k :: 0 <= k < i ==> classes[k].name == order[k] && ClassOf(parsed, classes[k])
    {
      assert order[i] in order;
      var fields := FieldList(parsed.shapes[order[i]]);
      classes := classes + [ClassDef(order[i], fields)];
      i := i + 1;
    }
    assert NamesIn(classes) == order;
    i := 0;
    while i < |parsed.operations|
      invariant 0 <= i <= |parsed.operations| && |stubs| == i
      invariant forall k :: 0 <= k < i ==> StubOf(parsed, parsed.operations[k], stubs[k])
    {
      var op := parsed.operations[i];
      var params := [("endpoint", "str")];
      if op.input.Some? {
        var s := op.input.value;
        if s in Classes(parsed) {
          var fields := FieldList(parsed.shapes[s]);
          params := params + fields;
          assert params[1..] == fields;
        } else {
          params := params + [("request", if s in parsed.shapes then parsed.shapes[s].pieType else "str")];
        }
      }
      stubs := stubs + [Stub(op.name, params, ReturnOf(parsed, op))];
      i := i + 1;
    }
  }

  // A stub lists the fields of its input class in the order of the class.
  lemma StubFollowsClass(parsed: Parsed, c: ClassDef, op: Operation, s: Stub)
    requires ClassOf(parsed, c) && StubOf(parsed, op, s) && op.input == Some(c.name)
    ensures s.params == [("endpoint", "str")] + c.fields
  {
    hide FieldsOf;
    FieldsUnique(parsed.shapes[c.name], c.fields, s.params[1..]);
    assert s.params == [s.params[0]] + s.params[1..];
  }

  // ----- what the module says of the model -----

  // Required fields come first, and otherwise the alphabet decides.
  predicate Precedes(required: set<string>, a: string, b: string) {
    if a in required <==> b in required then Before(a, b) else a in required
  }

  predicate HasField(fields: Fields, n: string) {
    exists i :: 0 <= i < |fields| && fields[i].0 == n
  }

  lemma FieldsInOrder(e: Entry, fields: Fields)
    requires e.ClassEntry? && FieldsOf(e, fields)
    ensures forall i :: 0 <= i < |fields| ==>
      fields[i].0 in e.members && fields[i].1 == e.members[fields[i].0].pieType
    ensures forall n :: n in e.members ==> HasField(fields, n)
    ensures forall i, j :: 0 <= i < j < |fields| ==> Precedes(e.required, fields[i].0, fields[j].0)
  {
    hide Before;
    var names :| InFieldOrder(e.members, e.required, names) && (forall n :: n in names ==> n in e.members)
                 && fields == WithTypes(e.members, names);
    var r, o :| names == r + o && Sorting(r, e.members.Keys * e.required) && Sorting(o, e.members.Keys - e.required);
    forall n | n in e.members
      ensures HasField(fields, n)
    {
      assert n in r || n in o;
      assert n in names;
      var i :| 0 <= i < |names| && names[i] == n;
      assert fields[i].0 == n;
    }
    forall i, j | 0 <= i < j < |fields|
      ensures Precedes(e.required, fields[i].0, fields[j].0)
    {
      assert forall k :: 0 <= k < |r| ==> r[k] in r;
      assert forall k :: 0 <= k < |o| ==> o[k] in o;
      assert names[i] == fields[i].0 && names[j] == fields[j].0;
    }
  }

  // The fields of a structure: its members with a type, the required ones first.
  ghost predicate FieldsSay(shapes: Shapes, members: seq<MemberRef>, required: set<string>, fields: Fields) {
    && (forall i :: 0 <= i < |fields| ==> Kept(shapes, members, fields[i].0, fields[i].1))
    && (forall m, t :: m in members && Typed(shapes, m.shape, t) ==> HasField(fields, m.name))
    && (forall i, j :: 0 <= i < j < |fields| ==> Precedes(required, fields[i].0, fields[j].0))
  }

  // A shape that is collected, as a structure.
  predicate IsClass(shapes: Shapes, s: set<string>, name: string) {
    name in s && name in shapes && shapes[name].Structure?
  }

  // The parameters: the endpoint, and the fields of the input structure, or a
  // request with the type of the input's scalar, or else a string.
  ghost predicate ParamsSay(shapes: Shapes, s: set<string>, input: Option<string>, params: Fields) {
    && |params| > 0 && params[0] == ("endpoint", "str")
    && match input
       case None => |params| == 1
       case Some(x) =>
         if IsClass(shapes, s, x) then FieldsSay(shapes, shapes[x].members, shapes[x].required, params[1..])
         else |params| == 2 && params[1].0 == "request" && TypeOr(shapes, s, x, "str", params[1].1)
  }

  // The type of a collected shape; the default if it has none.
  ghost predicate TypeOr(shapes: Shapes, s: set<string>, x: string, default: string, t: string) {
    if x in s && Typed(shapes, x, t) then true
    else t == default && (x in s ==> forall u :: !Typed(shapes, x, u))
  }

  // What the generated module says, of a model and the shapes its operations
  // need: a class for every structure, and a stub for every operation.
  ghost predicate ModuleSays(shapes: Shapes, s: set<string>, operations: seq<Operation>, classes: seq<ClassDef>,
                             stubs: seq<Stub>) {
    && (forall x :: x in NamesIn(classes) <==> IsClass(shapes, s, x))
    && (forall i, j :: 0 <= i < j < |classes| ==> Before(classes[i].name, classes[j].name))
    && (forall c :: c in classes && IsClass(shapes, s, c.name) ==>
          FieldsSay(shapes, shapes[c.name].members, shapes[c.name].required, c.fields))
    && |stubs| == |operations|
    && (forall i :: 0 <= i < |stubs| ==>
          && stubs[i].name == operations[i].name
          && ParamsSay(shapes, s, operations[i].input, stubs[i].params)
          && match operations[i].output
             case None => stubs[i].result == "int"
             case Some(x) => TypeOr(shapes, s, x, "int", stubs[i].result))
  }

  lemma ClassFields(shapes: Shapes, s: set<string>, skip: bool, out: map<string, Entry>, x: string, fields: Fields)
    requires ShapesAre(shapes, s, skip, out) && IsClass(shapes, s, x)
    requires x in out && out[x].ClassEntry? && FieldsOf(out[x], fields)
    ensures FieldsSay(shapes, shapes[x].members, shapes[x].required, fields)
  {
    hide FieldsOf, Typed, Kept, HasField, Before, Refused, EntryIs;
    FieldsInOrder(out[x], fields);
    assert EntryIs(shapes, x, Some(out[x]));
    StructureIs(shapes, x, out[x]);
  }

  lemma StructureIs(shapes: Shapes, x: string, e: Entry)
    requires x in shapes && shapes[x].Structure? && EntryIs(shapes, x, Some(e))
    ensures e.ClassEntry? && MembersAre(shapes, shapes[x].members, shapes[x].required, e.members)
    ensures forall n :: n in e.required <==> n in shapes[x].required && n in e.members
  {
  }

  // What the entry of a shape, or that it has none, says of its type.
  lemma EntryType(shapes: Shapes, s: set<string>, skip: bool, out: map<string, Entry>, x: string)
    requires ShapesAre(shapes, s, skip, out) && s <= shapes.Keys
    ensures (x in out && out[x].ClassEntry?) <==> IsClass(shapes, s, x)
    ensures IsClass(shapes, s, x) ==> Typed(shapes, x, x)
    ensures x in out && out[x].ScalarEntry? ==> x in s && Typed(shapes, x, out[x].pieType)
    ensures x in s && x !in out ==> forall t :: !Typed(shapes, x, t)
  {
    hide MembersAre, Refused;
    TypesDistinct();
    if x in s {
      assert EntryIs(shapes, x, if x in out then Some(out[x]) else None);
      TypedIs(x, shapes);
    }
  }

  // For every model: what the parser and the generator make of it, from the
  // model alone.
  lemma GeneratedSays(model: Model, names: Option<seq<string>>, skip: bool, parsed: Parsed, classes: seq<ClassDef>,
                      stubs: seq<Stub>)
    requires ParsesTo(model, names, skip, Ok(parsed))
    requires Sorting(NamesIn(classes), Classes(parsed)) && |stubs| == |parsed.operations|
    requires forall i :: 0 <= i < |classes| ==> ClassOf(parsed, classes[i])
    requires forall i :: 0 <= i < |stubs| ==> StubOf(parsed, parsed.operations[i], stubs[i])
    ensures exists s :: Collected(model, names, Ok(s)) && ModuleSays(model.shapes, s, parsed.operations, classes, stubs)
  {
    hide Typed, FieldsOf, Complete, ShapesAre, FieldsSay, Before, NoOperation;
    var s :| Collected(model, names, Ok(s)) && ShapesAre(model.shapes, s, skip, parsed.shapes);
    forall x
      ensures x in Classes(parsed) <==> IsClass(model.shapes, s, x)
    {
      EntryType(model.shapes, s, skip, parsed.shapes, x);
    }
    forall c | c in classes && IsClass(model.shapes, s, c.name)
      ensures FieldsSay(model.shapes, model.shapes[c.name].members, model.shapes[c.name].required, c.fields)
    {
      ClassFields(model.shapes, s, skip, parsed.shapes, c.name, c.fields);
    }
    forall i | 0 <= i < |stubs|
      ensures ParamsSay(model.shapes, s, parsed.operations[i].input, stubs[i].params)
      ensures match parsed.operations[i].output
        case None => stubs[i].result == "int"
        case Some(x) => TypeOr(model.shapes, s, x, "int", stubs[i].result)
    {
      StubSays(model.shapes, s, skip, parsed, parsed.operations[i], stubs[i]);
    }
    ClassesSorted(parsed, classes);
    assert ModuleSays(model.shapes, s, parsed.operations, classes, stubs);
  }

  lemma ClassesSorted(parsed: Parsed, classes: seq<ClassDef>)
    requires Sorting(NamesIn(classes), Classes(parsed))
    ensures forall i, j :: 0 <= i < j < |classes| ==> Before(classes[i].name, classes[j].name)
  {
    hide Before;
    forall i, j | 0 <= i < j < |classes|
      ensures Before(classes[i].name, classes[j].name)
    {
      assert Before(NamesIn(classes)[i], NamesIn(classes)[j]);
    }
  }

  lemma StubSays(shapes: Shapes, s: set<string>, skip: bool, parsed: Parsed, op: Operation, stub: Stub)
    requires ShapesAre(shapes, s, skip, parsed.shapes) && s <= shapes.Keys && StubOf(parsed, op, stub)
    ensures ParamsSay(shapes, s, op.input, stub.params)
    ensures match op.output
      case None => stub.result == "int"
      case Some(x) => TypeOr(shapes, s, x, "int", stub.result)
  {
    hide Typed, FieldsOf, ShapesAre, FieldsSay;
    if op.input.Some? {
      var x := op.input.value;
      EntryType(shapes, s, skip, parsed.shapes, x);
      if x in Classes(parsed) {
        ClassFields(shapes, s, skip, parsed.shapes, x, stub.params[1..]);
      } else {
        assert stub.params[1..][0] == stub.params[1];
        ScalarOut(shapes, s, skip, parsed.shapes, x);
      }
    }
    if op.output.Some? {
      EntryType(shapes, s, skip, parsed.shapes, op.output.value);
      ScalarOut(shapes, s, skip, parsed.shapes, op.output.value);
    }
  }

  lemma ScalarOut(shapes: Shapes, s: set<string>, skip: bool, out: map<string, Entry>, x: string)
    requires ShapesAre(shapes, s, skip, out)
    ensures x in out ==> x in s
  {
  }

  // ----- compiling the classes -----

  // The compiler registers a class only after it has looked up the types of
  // its fields, and it raises on an unknown one.
  predicate Registers(classes: seq<ClassDef>, known: set<string>) {
    classes == [] ||
    (&& (forall f :: f in classes[0].fields ==> f.1 in known)
     && Registers(classes[1..], known + {classes[0].name}))
  }

  lemma {:induction false} RegistersInOrder(classes: seq<ClassDef>, known: set<string>)
    ensures Registers(classes, known) <==> AllLookedUp(classes, known)
  {
    if classes != [] {
      var rest, more := classes[1..], known + {classes[0].name};
      RegistersInOrder(rest, more);
      assert NamesIn(classes[..0]) == [];
      forall i, t | 0 < i < |classes|
        ensures LookedUp(classes, known, i, t) <==> LookedUp(rest, more, i - 1, t)
      {
        assert NamesIn(classes[..i]) == [classes[0].name] + NamesIn(rest[..i - 1]);
      }
      if Registers(classes, known) {
        forall i, f | 0 <= i < |classes| && f in classes[i].fields
          ensures LookedUp(classes, known, i, f.1)
        {
          if i > 0 {
            assert f in rest[i - 1].fields && LookedUp(rest, more, i - 1, f.1);
          }
        }
      }
      if AllLookedUp(classes, known) {
        forall f | f in classes[0].fields
          ensures f.1 in known
        {
          assert LookedUp(classes, known, 0, f.1);
        }
        forall i, f | 0 <= i < |rest| && f in rest[i].fields
          ensures LookedUp(rest, more, i, f.1)
        {
          assert f in classes[i + 1].fields && LookedUp(classes, known, i + 1, f.1);
        }
      }
    }
  }

  // The type is known when the i-th class is compiled.
  predicate LookedUp(classes: seq<ClassDef>, known: set<string>, i: nat, t: string)
    requires i < |classes|
  {
    t in known || t in NamesIn(classes[..i])
  }

  predicate AllLookedUp(classes: seq<ClassDef>, known: set<string>) {
    forall i, f :: 0 <= i < |classes| && f in classes[i].fields ==> LookedUp(classes, known, i, f.1)
  }

  // The classes generated for a closed model compile if and only if every
  // member of class type refers to a class that comes before its own in the
  // alphabet: a model with a recursive structure never compiles.
  lemma GeneratedCompilesIff(parsed: Parsed, classes: seq<ClassDef>, builtins: set<string>)
    requires TypesClosed(parsed.shapes) && {"str", "int"} <= builtins
    requires Sorting(NamesIn(classes), Classes(parsed))
    requires forall i :: 0 <= i < |classes| ==> ClassOf(parsed, classes[i])
    ensures Registers(classes, builtins) <==>
      forall s, n :: s in Classes(parsed) && n in parsed.shapes[s].members ==>
        TypeEarlier(parsed.shapes[s].members[n].pieType, s, builtins)
  {
    hide FieldsOf, Registers;
    RegistersInOrder(classes, builtins);
    if forall s, n :: s in Classes(parsed) && n in parsed.shapes[s].members ==>
         TypeEarlier(parsed.shapes[s].members[n].pieType, s, builtins)
    {
      forall i, f | 0 <= i < |classes| && f in classes[i].fields
        ensures LookedUp(classes, builtins, i, f.1)
      {
        var s := classes[i].name;
        FieldIsMember(parsed.shapes[s], classes[i].fields, f);
        EarlierIs(parsed, classes, i, f.1);
      }
    }
    if Registers(classes, builtins) {
      forall s, n | s in Classes(parsed) && n in parsed.shapes[s].members
        ensures TypeEarlier(parsed.shapes[s].members[n].pieType, s, builtins)
      {
        assert s in NamesIn(classes);
        var i :| 0 <= i < |classes| && NamesIn(classes)[i] == s;
        var f := MemberIsField(parsed.shapes[s], classes[i].fields, n);
        assert LookedUp(classes, builtins, i, f.1);
        EarlierIs(parsed, classes, i, f.1);
      }
    }
  }

  predicate TypeEarlier(t: string, s: string, builtins: set<string>) {
    t in builtins || Before(t, s)
  }

  // Among the sorted classes, those before the i-th are those with an earlier
  // name.
  lemma EarlierIs(parsed: Parsed, classes: seq<ClassDef>, i: nat, t: string)
    requires Sorting(NamesIn(classes), Classes(parsed)) && i < |classes|
    ensures t in NamesIn(classes[..i]) <==> t in Classes(parsed) && Before(t, classes[i].name)
  {
    var names := NamesIn(classes);
    assert NamesIn(classes[..i]) == names[..i];
    if t in Classes(parsed) && Before(t, names[i]) {
      var j :| 0 <= j < |names| && names[j] == t;
      BeforeTotal(names[i], names[j]);
      assert j < i && names[..i][j] == t;
    }
  }

  lemma FieldIsMember(e: Entry, fields: Fields, f: (string, string))
    requires e.ClassEntry? && FieldsOf(e, fields) && f in fields
    ensures f.0 in e.members && f.1 == e.members[f.0].pieType
  {
  }

  lemma MemberIsField(e: Entry, fields: Fields, n: string) returns (f: (string, string))
    requires e.ClassEntry? && FieldsOf(e, fields) && n in e.members
    ensures f in fields && f == (n, e.members[n].pieType)
  {
    var names :| InFieldOrder(e.members, e.required, names) && (forall n :: n in names ==> n in e.members)
                 && fields == WithTypes(e.members, names);
    assert n in names;
    var i :| 0 <= i < |names| && names[i] == n;
    f := fields[i];
  }
}
