/**
 * The PATCH interpreter on the heap (scim/routes.ts): attributes hold references to
 * mutable arrays, and the arrays that operations extend are always fresh copies.
 */
module ScimApply {
  import opened Prelude
  import opened CanonicalJson
  import opened JsonReader
  import opened AuditChain
  import opened ScimPatch

  class JsArray {
    var items: seq<Json>

    constructor (items: seq<Json>)
      ensures this.items == items
    {
      this.items := items;
    }

    method Push(item: Json)
      modifies this
      ensures items == old(items) + [item]
    {
      items := items + [item];
    }
  }

  /** A value that is neither an array nor an object. */
  type Scalar = v: Json | !v.Arr? && !v.Obj? witness Null

  /** What an attribute or an operation refers to. */
  datatype Ref = Plain(v: Scalar) | List(a: JsArray) | Fields(fields: seq<RefField>)

  datatype RefField = RefField(key: string, value: Ref)

  type HeapObject = map<string, Ref>

  datatype HeapOp = HeapOp(op: string, path: string, value: Ref)

  function ArraysOf(r: Ref): set<JsArray> {
    match r
    case Plain(_) => {}
    case List(a) => {a}
    case Fields(fields) => ArraysOfFields(fields)
  }

  function ArraysOfFields(fields: seq<RefField>): set<JsArray> {
    if fields == [] then {} else ArraysOf(fields[0].value) + ArraysOfFields(fields[1..])
  }

  function ArraysIn(o: HeapObject): set<JsArray> {
    set k, a | k in o && a in ArraysOf(o[k]) :: a
  }

  function ArraysOfOps(ops: seq<HeapOp>): set<JsArray> {
    if ops == [] then {} else ArraysOf(ops[0].value) + ArraysOfOps(ops[1..])
  }

  /** The value that a reference stands for at the moment. */
  function View(r: Ref): Json
    reads ArraysOf(r)
  {
    match r
    case Plain(v) => v
    case List(a) => Arr(a.items)
    case Fields(fields) => Obj(ViewFields(fields))
  }

  function ViewFields(fields: seq<RefField>): (r: seq<Field>)
    reads ArraysOfFields(fields)
    ensures |r| == |fields|
  {
    if fields == [] then [] else [Field(fields[0].key, View(fields[0].value))] + ViewFields(fields[1..])
  }

  function ViewObject(o: HeapObject): Object
    reads ArraysIn(o)
  {
    map k | k in o :: View(o[k])
  }

  function ViewOps(ops: seq<HeapOp>): (r: seq<PatchOp>)
    reads ArraysOfOps(ops)
    ensures |r| == |ops|
  {
    if ops == [] then []
    else [PatchOp(ops[0].op, ops[0].path, View(ops[0].value))] + ViewOps(ops[1..])
  }

  /** Whatever can be reached exists already, so nothing new is among it. */
  lemma {:induction false} AllocatedRef(r: Ref)
    ensures forall a :: a in ArraysOf(r) ==> allocated(a)
  {
    match r
    case Fields(fields) => AllocatedFields(fields);
    case _ =>
  }

  lemma {:induction false} AllocatedFields(fields: seq<RefField>)
    ensures forall a :: a in ArraysOfFields(fields) ==> allocated(a)
  {
    if fields != [] {
      AllocatedRef(fields[0].value);
      AllocatedFields(fields[1..]);
    }
  }

  lemma AllocatedObject(o: HeapObject)
    ensures forall a :: a in ArraysIn(o) ==> allocated(a)
  {
    forall k | k in o ensures forall a :: a in ArraysOf(o[k]) ==> allocated(a) {
      AllocatedRef(o[k]);
    }
  }

  lemma {:induction false} AllocatedOps(ops: seq<HeapOp>)
    ensures forall a :: a in ArraysOfOps(ops) ==> allocated(a)
  {
    if ops != [] {
      AllocatedRef(ops[0].value);
      AllocatedOps(ops[1..]);
    }
  }

  lemma ViewPut(o: HeapObject, key: string, r: Ref)
    ensures ViewObject(o[key := r]) == ViewObject(o)[key := View(r)]
  {
  }

  lemma ArraysPut(o: HeapObject, key: string, r: Ref)
    ensures ArraysIn(o[key := r]) <= ArraysIn(o) + ArraysOf(r)
  {
  }

  /** The working reference: what an earlier operation wrote, else the current resource's. */
  function ReadRef(cur: HeapObject, out: HeapObject, attr: string): Ref {
    if attr in out then out[attr] else if attr in cur then cur[attr] else Plain(Undefined)
  }

  lemma ViewOfRead(cur: HeapObject, out: HeapObject, attr: string)
    ensures View(ReadRef(cur, out, attr)) == ReadAttr(ViewObject(cur), ViewObject(out), attr)
  {
  }

  /** Always a fresh array, never the caller's. */
  method CopyAsArray(r: Ref) returns (copy: JsArray)
    ensures fresh(copy) && copy.items == AsArray(View(r))
  {
    match r {
      case List(a) =>
        copy := new JsArray(a.items);
      case Plain(v) =>
        copy := new JsArray(if v == Undefined || v == Null then [] else [v]);
      case Fields(fields) =>
        AllocatedRef(r);
        copy := new JsArray([View(r)]);
    }
  }

  method AppendNew(host: Host, existing: JsArray, items: JsArray)
    requires existing != items
    modifies existing
    ensures existing.items == AddItems(host, old(existing.items), items.items)
  {
    hide ElemKey;
    ghost var start := existing.items;
    var seen := set i | 0 <= i < |existing.items| :: ElemKey(host, existing.items[i]);
    for i := 0 to |items.items|
      invariant items.items == old(items.items)
      invariant AddItems(host, existing.items, items.items[i..]) == AddItems(host, start, items.items)
      invariant forall k :: k in seen <==> HasKey(host, existing.items, k)
    {
      var item := items.items[i];
      ghost var before := existing.items;
      if ElemKey(host, item) !in seen {
        existing.Push(item);
        seen := seen + {ElemKey(host, item)};
        HasKeySnoc(host, before, item);
      }
    }
  }

  method AddOne(host: Host, cur: HeapObject, start: HeapObject, attr: string, value: Ref) returns (out: HeapObject)
    ensures ViewObject(out) == AddAttr(host, ViewObject(cur), ViewObject(start), attr, View(value))
    ensures forall a :: a in ArraysIn(out) ==> fresh(a) || a in ArraysIn(start) || a in ArraysOf(value)
  {
    hide AddItems, AsArray, View, ReadAttr;
    if attr in ARRAY_ATTRS {
      ghost var list, added := View(ReadRef(cur, start, attr)), View(value);
      ghost var curView, startView := ViewObject(cur), ViewObject(start);
      ViewOfRead(cur, start, attr);
      AllocatedObject(cur);
      AllocatedObject(start);
      AllocatedRef(value);
      AllocatedRef(ReadRef(cur, start, attr));
      var existing := CopyAsArray(ReadRef(cur, start, attr));
      var items := CopyAsArray(value);
      assert existing.items == AsArray(list) && items.items == AsArray(added);
      AppendNew(host, existing, items);
      assert ViewObject(start) == startView && ViewObject(cur) == curView && View(value) == added;
      out := start[attr := List(existing)];
      ViewPut(start, attr, List(existing));
      ViewOfList(existing);
      ArraysPut(start, attr, List(existing));
    } else {
      out := start[attr := value];
      ViewPut(start, attr, value);
      ArraysPut(start, attr, value);
    }
  }

  lemma ViewOfList(a: JsArray)
    ensures View(List(a)) == Arr(a.items)
  {
  }

  lemma {:induction false} ViewFieldAt(fields: seq<RefField>, i: nat)
    requires i < |fields|
    ensures ViewFields(fields)[i] == Field(fields[i].key, View(fields[i].value))
    ensures ArraysOf(fields[i].value) <= ArraysOfFields(fields)
  {
    if i > 0 {
      ViewFieldAt(fields[1..], i - 1);
    }
  }

  lemma {:induction false} ViewOpAt(ops: seq<HeapOp>, i: nat)
    requires i < |ops|
    ensures ViewOps(ops)[i] == PatchOp(ops[i].op, ops[i].path, View(ops[i].value))
    ensures ArraysOf(ops[i].value) <= ArraysOfOps(ops)
  {
    if i > 0 {
      ViewOpAt(ops[1..], i - 1);
    }
  }

  lemma ReplaceStep(out: Object, fields: seq<Field>, i: nat)
    requires i < |fields|
    ensures var next := if fields[i].key in ALLOWED then out[fields[i].key := fields[i].value] else out;
            ReplaceFields(out, fields[i..]) == ReplaceFields(next, fields[i + 1..])
  {
    assert fields[i..][1..] == fields[i + 1..];
  }

  lemma AddStep(host: Host, cur: Object, out: Object, fields: seq<Field>, i: nat)
    requires i < |fields|
    ensures var next := if fields[i].key in ALLOWED then AddAttr(host, cur, out, fields[i].key, fields[i].value) else out;
            AddFields(host, cur, out, fields[i..]) == AddFields(host, cur, next, fields[i + 1..])
  {
    hide AddAttr;
    assert fields[i..][1..] == fields[i + 1..];
  }

  lemma NoFields(host: Host, cur: Object, out: Object, fields: seq<Field>)
    ensures ReplaceFields(out, fields[|fields|..]) == out == AddFields(host, cur, out, fields[|fields|..])
  {
  }

  method ReplaceLoop(host: Host, start: HeapObject, fields: seq<RefField>) returns (out: HeapObject)
    ensures ViewObject(out) == ReplaceFields(ViewObject(start), ViewFields(fields))
    ensures forall a :: a in ArraysIn(out) ==> a in ArraysIn(start) || a in ArraysOfFields(fields)
  {
    hide ReplaceFields, View, ViewFields, ArraysOf, ArraysOfFields, ArraysIn, ViewObject;
    ghost var views, goal := ViewFields(fields), ReplaceFields(ViewObject(start), ViewFields(fields));
    AllocatedObject(start);
    AllocatedFields(fields);
    out := start;
    assert views[0..] == views;
    for i := 0 to |fields|
      invariant ViewFields(fields) == views
      invariant ReplaceFields(ViewObject(out), views[i..]) == goal
      invariant forall a :: a in ArraysIn(out) ==> a in ArraysIn(start) || a in ArraysOfFields(fields)
    {
      ViewFieldAt(fields, i);
      ReplaceStep(ViewObject(out), views, i);
      if fields[i].key in ALLOWED {
        ViewPut(out, fields[i].key, fields[i].value);
        ArraysPut(out, fields[i].key, fields[i].value);
        out := out[fields[i].key := fields[i].value];
      }
    }
    NoFields(host, ViewObject(out), ViewObject(out), views);
  }

  method AddLoop(host: Host, cur: HeapObject, start: HeapObject, fields: seq<RefField>) returns (out: HeapObject)
    ensures ViewObject(out) == AddFields(host, ViewObject(cur), ViewObject(start), ViewFields(fields))
    ensures forall a :: a in ArraysIn(out) ==> fresh(a) || a in ArraysIn(start) || a in ArraysOfFields(fields)
  {
    hide AddFields, AddAttr, View, ViewFields, ArraysOf, ArraysOfFields, ArraysIn, ViewObject;
    ghost var views, curView, goal := ViewFields(fields), ViewObject(cur),
      AddFields(host, ViewObject(cur), ViewObject(start), ViewFields(fields));
    AllocatedObject(cur);
    AllocatedObject(start);
    AllocatedFields(fields);
    out := start;
    assert views[0..] == views;
    for i := 0 to |fields|
      invariant ViewFields(fields) == views && ViewObject(cur) == curView
      invariant AddFields(host, curView, ViewObject(out), views[i..]) == goal
      invariant forall a :: a in ArraysIn(out) ==> fresh(a) || a in ArraysIn(start) || a in ArraysOfFields(fields)
    {
      ViewFieldAt(fields, i);
      AddStep(host, curView, ViewObject(out), views, i);
      if fields[i].key in ALLOWED {
        AllocatedObject(out);
        ghost var before, value := ViewObject(out), View(fields[i].value);
        AllocatedRef(fields[i].value);
        out := AddOne(host, cur, out, fields[i].key, fields[i].value);
        assert ViewObject(out) == AddAttr(host, curView, before, fields[i].key, value);
      }
    }
    NoFields(host, curView, ViewObject(out), views);
  }

  method RemoveOne(host: Host, cur: HeapObject, start: HeapObject, p: PatchPath) returns (out: HeapObject)
    ensures ViewObject(out) == RemoveAt(host, ViewObject(cur), ViewObject(start), p)
    ensures forall a :: a in ArraysIn(out) ==> fresh(a) || a in ArraysIn(start)
  {
    hide Staying, AsArray, ReadAttr;
    ghost var startView, list := ViewObject(start), AsArray(ReadAttr(ViewObject(cur), ViewObject(start), p.attr));
    ghost var curView := ViewObject(cur);
    AllocatedObject(start);
    AllocatedObject(cur);
    if p.attr in ARRAY_ATTRS {
      ViewOfRead(cur, start, p.attr);
      AllocatedRef(ReadRef(cur, start, p.attr));
      var left: JsArray;
      if p.filter.Some? {
        var existing := CopyAsArray(ReadRef(cur, start, p.attr));
        assert existing.items == list;
        left := new JsArray(Staying(host, p.filter.value, existing.items));
      } else {
        left := new JsArray([]);
      }
      assert ViewObject(start) == startView && ViewObject(cur) == curView;
      ViewPut(start, p.attr, List(left));
      ArraysPut(start, p.attr, List(left));
      out := start[p.attr := List(left)];
    } else {
      ViewPut(start, p.attr, Plain(Undefined));
      ArraysPut(start, p.attr, Plain(Undefined));
      out := start[p.attr := Plain(Undefined)];
    }
  }

  method ApplyOne(host: Host, cur: HeapObject, start: HeapObject, op: HeapOp) returns (out: HeapObject)
    ensures ViewObject(out)
         == Step(host, ViewObject(cur), ViewObject(start), PatchOp(op.op, op.path, View(op.value)))
    ensures forall a :: a in ArraysIn(out) ==> fresh(a) || a in ArraysIn(start) || a in ArraysOf(op.value)
  {
    hide ViewObject, ArraysIn, AddFields, ReplaceFields, AddAttr, RemoveAt, ParsePatchPath, ViewFields, ArraysOfFields;
    out := start;
    var verb := host.lower(op.op);
    var parsed := ParsePatchPath(op.path);
    if verb == "replace" {
      if op.path == "" {
        if op.value.Fields? {
          out := ReplaceLoop(host, start, op.value.fields);
        }
      } else if parsed.Some? && parsed.value.filter.None? {
        ViewPut(start, parsed.value.attr, op.value);
        ArraysPut(start, parsed.value.attr, op.value);
        out := start[parsed.value.attr := op.value];
      }
    } else if verb == "add" {
      if op.path == "" {
        if op.value.Fields? {
          out := AddLoop(host, cur, start, op.value.fields);
        }
      } else if parsed.Some? && parsed.value.filter.None? {
        out := AddOne(host, cur, start, parsed.value.attr, op.value);
      }
    } else if verb == "remove" {
      if op.path != "" && parsed.Some? {
        out := RemoveOne(host, cur, start, parsed.value);
      }
    }
  }

  /**
   * Applies the operations to a partial resource, which is None when the target does not
   * exist. No array that was there before is changed, and the result refers to none of the
   * current resource's arrays: they are fresh, or the operations' own.
   */
  method ApplyPatch(host: Host, current: Option<HeapObject>, ops: seq<HeapOp>) returns (r: Option<HeapObject>)
    ensures r.None? <==> current.None?
    ensures current.Some? ==>
              && ViewObject(r.value) == ApplyPatchOps(host, ViewObject(current.value), ViewOps(ops))
              && ViewObject(current.value) == old(ViewObject(current.value)) && ViewOps(ops) == old(ViewOps(ops))
              && forall a :: a in ArraysIn(r.value) ==> fresh(a) || a in ArraysOfOps(ops)
  {
    hide View, ViewOps, ArraysOf, ArraysOfOps, ArraysIn, ViewObject, ApplyFrom, Step;
    if current.None? {
      return None;
    }
    var cur := current.value;
    var out: HeapObject := map[];
    ghost var curView, views := ViewObject(cur), ViewOps(ops);
    AllocatedObject(cur);
    AllocatedOps(ops);
    NothingIn();
    assert views[0..] == views;
    for i := 0 to |ops|
      invariant ViewObject(cur) == curView && ViewOps(ops) == views
      invariant ApplyFrom(host, curView, ViewObject(out), views[i..]) == ApplyFrom(host, curView, map[], views)
      invariant forall a :: a in ArraysIn(out) ==> fresh(a) || a in ArraysOfOps(ops)
    {
      ViewOpAt(ops, i);
      AllocatedObject(out);
      AllocatedRef(ops[i].value);
      ApplyStep(host, curView, ViewObject(out), views, i);
      ghost var before := ViewObject(out);
      out := ApplyOne(host, cur, out, ops[i]);
      assert ViewObject(out) == Step(host, curView, before, views[i]);
    }
    NoOps(host, curView, ViewObject(out), views);
    return Some(out);
  }

  lemma NothingIn()
    ensures ViewObject(map[]) == map[] && ArraysIn(map[]) == {}
  {
  }

  lemma ApplyStep(host: Host, cur: Object, out: Object, ops: seq<PatchOp>, i: nat)
    requires i < |ops|
    ensures ApplyFrom(host, cur, out, ops[i..]) == ApplyFrom(host, cur, Step(host, cur, out, ops[i]), ops[i + 1..])
  {
    hide Step;
    assert ops[i..][1..] == ops[i + 1..];
  }

  lemma NoOps(host: Host, cur: Object, out: Object, ops: seq<PatchOp>)
    ensures ApplyFrom(host, cur, out, ops[|ops|..]) == out
  {
  }
}
