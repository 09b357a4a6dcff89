/**
 * What one PATCH operation does to a resource, told by the attributes of the merged
 * result (section 3.5.2 of RFC 7644), and what an append adds.
 */
module ScimLaws {
  import opened Prelude
  import opened CanonicalJson
  import opened JsonReader
  import opened AuditChain
  import opened ScimPatch

  // ----- Appending to a list -----

  /** Some element of the list has this key. */
  predicate Listed(host: Host, items: seq<Json>, key: Option<string>) {
    exists i :: 0 <= i < |items| && ElemKey(host, items[i]) == key
  }

  /** The item is the first of its key among the items, and the list does not have the key yet. */
  predicate FirstNew(host: Host, existing: seq<Json>, items: seq<Json>, k: nat)
    requires k < |items|
  {
    var key := ElemKey(host, items[k]);
    !Listed(host, existing, key) && forall j :: 0 <= j < k ==> ElemKey(host, items[j]) != key
  }

  lemma AddItemsFirst(host: Host, existing: seq<Json>, items: seq<Json>)
    requires items != []
    ensures AddItems(host, existing, items)
         == AddItems(host, if Listed(host, existing, ElemKey(host, items[0])) then existing else existing + [items[0]], items[1..])
    ensures AddItems(host, existing, []) == existing
  {
    hide ElemKey;
  }

  /** The last item comes last. */
  lemma {:induction false} AddItemsStep(host: Host, existing: seq<Json>, items: seq<Json>)
    requires items != []
    ensures var n := |items| - 1;
            var before := AddItems(host, existing, items[..n]);
            AddItems(host, existing, items)
            == if Listed(host, before, ElemKey(host, items[n])) then before else before + [items[n]]
    decreases |items|
  {
    hide ElemKey, AddItems, Listed;
    var n := |items| - 1;
    var next := if Listed(host, existing, ElemKey(host, items[0])) then existing else existing + [items[0]];
    AddItemsFirst(host, existing, items);
    if n == 0 {
      assert items[..0] == [] && items[1..] == [];
      AddItemsFirst(host, next, items);
    } else {
      AddItemsStep(host, next, items[1..]);
      AddItemsFirst(host, existing, items[..n]);
      assert items[1..][..n - 1] == items[..n][1..];
    }
  }

  /** The places of the first items of each missing key, in order. */
  ghost predicate NewPlaces(host: Host, existing: seq<Json>, items: seq<Json>, places: seq<nat>) {
    && (forall i, j :: 0 <= i < j < |places| ==> places[i] < places[j])
    && (forall k: nat :: k in places <==> k < |items| && FirstNew(host, existing, items, k))
  }

  ghost predicate AllListed(host: Host, items: seq<Json>, all: seq<Json>) {
    forall k :: 0 <= k < |items| ==> Listed(host, all, ElemKey(host, items[k]))
  }

  /**
   * The result begins with the old elements and has every item's key. Behind them stand
   * exactly the first items of each key that was missing, in order and once each.
   */
  lemma {:induction false} AddItemsExact(host: Host, existing: seq<Json>, items: seq<Json>)
    returns (places: seq<nat>, added: seq<Json>)
    ensures AddItems(host, existing, items) == existing + added
    ensures NewPlaces(host, existing, items, places) && PickedAt(items, places, added)
    ensures AllListed(host, items, existing + added)
    decreases |items|
  {
    hide *;
    if items == [] {
      places, added := [], [];
      AddNothing(host, existing, items);
    } else {
      var n := |items| - 1;
      places, added := AddItemsExact(host, existing, items[..n]);
      AddItemsStep(host, existing, items);
      ListedInAll(host, existing, items[..n], places, added, ElemKey(host, items[n]));
      LastIsNew(host, existing, items);
      PlacesGrow(host, existing, items, places);
      AllListedGrows(host, items, existing + added);
      PickedLast(items, places, added);
      if FirstNew(host, existing, items, n) {
        assert (existing + added) + [items[n]] == existing + (added + [items[n]]);
        places, added := places + [n], added + [items[n]];
      }
    }
  }

  lemma AddNothing(host: Host, existing: seq<Json>, items: seq<Json>)
    requires items == []
    ensures AddItems(host, existing, items) == existing + []
    ensures NewPlaces(host, existing, items, []) && PickedAt(items, [], []) && AllListed(host, items, existing + [])
  {
    assert existing + [] == existing;
  }

  lemma LastIsNew(host: Host, existing: seq<Json>, items: seq<Json>)
    requires items != []
    ensures var n := |items| - 1;
            FirstNew(host, existing, items, n) <==>
              !Listed(host, existing, ElemKey(host, items[n])) && !Listed(host, items[..n], ElemKey(host, items[n]))
  {
    hide ElemKey;
  }

  lemma PlacesGrow(host: Host, existing: seq<Json>, items: seq<Json>, places: seq<nat>)
    requires items != [] && NewPlaces(host, existing, items[..|items| - 1], places)
    ensures var n := |items| - 1;
            NewPlaces(host, existing, items, if FirstNew(host, existing, items, n) then places + [n] else places)
  {
    hide FirstNew;
    var n := |items| - 1;
    assert forall i :: 0 <= i < |places| ==> places[i] in places;
    forall k: nat | k < n ensures FirstNew(host, existing, items, k) <==> FirstNew(host, existing, items[..n], k) {
      NewInFront(host, existing, items, n, k);
    }
  }

  lemma NewInFront(host: Host, existing: seq<Json>, items: seq<Json>, n: nat, k: nat)
    requires k < n <= |items|
    ensures FirstNew(host, existing, items, k) <==> FirstNew(host, existing, items[..n], k)
  {
    hide ElemKey, Listed;
    assert forall j :: 0 <= j <= k ==> items[..n][j] == items[j];
  }

  lemma AllListedGrows(host: Host, items: seq<Json>, all: seq<Json>)
    requires items != [] && AllListed(host, items[..|items| - 1], all)
    ensures AllListed(host, items, all + [items[|items| - 1]])
    ensures Listed(host, all, ElemKey(host, items[|items| - 1])) ==> AllListed(host, items, all)
  {
    hide ElemKey, Listed;
    var n := |items| - 1;
    ListedMore(host, all, items[n]);
    assert forall k :: 0 <= k < n ==> items[..n][k] == items[k];
  }

  /** A key is in the result when the list or one of the items has it. */
  lemma ListedInAll(
      host: Host, existing: seq<Json>, items: seq<Json>, places: seq<nat>, added: seq<Json>, key: Option<string>)
    requires PickedAt(items, places, added) && AllListed(host, items, existing + added)
    ensures Listed(host, existing + added, key) <==> Listed(host, existing, key) || Listed(host, items, key)
  {
    hide ElemKey;
    var all := existing + added;
    if i :| 0 <= i < |all| && ElemKey(host, all[i]) == key {
      if i < |existing| {
        assert existing[i] == all[i];
      } else {
        assert items[places[i - |existing|]] == all[i];
      }
    }
    if i :| 0 <= i < |existing| && ElemKey(host, existing[i]) == key {
      assert all[i] == existing[i];
    }
  }

  lemma ListedMore(host: Host, items: seq<Json>, item: Json)
    ensures Listed(host, items + [item], ElemKey(host, item))
    ensures forall key :: Listed(host, items, key) ==> Listed(host, items + [item], key)
  {
    hide ElemKey;
    var all := items + [item];
    assert all[|items|] == item;
    forall key | Listed(host, items, key) ensures Listed(host, all, key) {
      var i :| 0 <= i < |items| && ElemKey(host, items[i]) == key;
      assert all[i] == items[i];
    }
  }

  /** Adding the same items twice is adding them once. */
  lemma AddTwiceIsOnce(host: Host, existing: seq<Json>, items: seq<Json>)
    ensures var once := AddItems(host, existing, items);
            AddItems(host, once, items) == once
  {
    hide ElemKey, AddItems, Listed;
    var places, added := AddItemsExact(host, existing, items);
    var places', added' := AddItemsExact(host, existing + added, items);
    NoneNew(host, existing + added, items, places');
    assert existing + added + added' == existing + added;
  }

  lemma NoneNew(host: Host, existing: seq<Json>, items: seq<Json>, places: seq<nat>)
    requires AllListed(host, items, existing) && NewPlaces(host, existing, items, places)
    ensures places == []
  {
    hide ElemKey, Listed;
    NoPlaces(places);
  }

  lemma NoPlaces(places: seq<nat>)
    ensures places == [] || exists k :: k in places
  {
    assert places != [] ==> places[0] in places;
  }

  // ----- One operation -----

  /** The resource after one operation. */
  function Patched(host: Host, cur: Object, op: PatchOp): Object {
    cur + ApplyPatchOps(host, cur, [op])
  }

  lemma ReplaceAttribute(host: Host, cur: Object, op: PatchOp)
    requires host.lower(op.op) == "replace" && op.path in ALLOWED
    ensures Patched(host, cur, op) == cur[op.path := op.value]
  {
    hide ParsePatchPath, ApplyPatchOps;
    OneStep(host, cur, op);
    PlainPath(op.path);
  }

  /** A single-valued attribute is set; a list is extended. */
  lemma AddToAttribute(host: Host, cur: Object, op: PatchOp)
    requires host.lower(op.op) == "add" && op.path in ALLOWED
    ensures op.path !in ARRAY_ATTRS ==> Patched(host, cur, op) == cur[op.path := op.value]
    ensures op.path in ARRAY_ATTRS ==>
              var list := AddItems(host, AsArray(Property(cur, op.path)), AsArray(op.value));
              Patched(host, cur, op) == cur[op.path := Arr(list)]
  {
    hide ParsePatchPath, ApplyPatchOps, AddItems, AsArray;
    OneStep(host, cur, op);
    PlainPath(op.path);
  }

  /** What stands for a list: an array, nothing, or a single value. */
  lemma ListOf(v: Json)
    ensures v.Arr? ==> AsArray(v) == v.items
    ensures v == Undefined || v == Null ==> AsArray(v) == []
    ensures !v.Arr? && v != Undefined && v != Null ==> AsArray(v) == [v]
  {
  }

  /** Elements with a `value` are told apart by its text, all others by theirs. */
  lemma KeyOfElement(host: Host, e: Json, i: nat)
    ensures e.Obj? && i < |e.fields| && e.fields[i].key == "value" && DistinctKeys(e.fields) ==>
              ElemKey(host, e) == Some(host.text(e.fields[i].value))
    ensures (e.Obj? ==> forall j :: 0 <= j < |e.fields| ==> e.fields[j].key != "value") ==>
              ElemKey(host, e) == host.stringify(e)
  {
    hide Get;
    if e.Obj? && i < |e.fields| && DistinctKeys(e.fields) {
      GetFromField(e.fields, i);
    }
  }

  /** A list is emptied; a single-valued attribute loses its value. */
  lemma RemoveAttribute(host: Host, cur: Object, op: PatchOp)
    requires host.lower(op.op) == "remove" && op.path in ALLOWED
    ensures Patched(host, cur, op) == cur[op.path := if op.path in ARRAY_ATTRS then Arr([]) else Undefined]
  {
    hide ParsePatchPath, ApplyPatchOps, Staying;
    OneStep(host, cur, op);
    PlainPath(op.path);
    assert op.path != "";
  }

  /** So does a single-valued attribute under a filter. */
  lemma RemoveFiltered(host: Host, cur: Object, op: PatchOp, attr: string, f: ScimPatch.Filter)
    requires host.lower(op.op) == "remove" && ParsePatchPath(op.path) == Some(PatchPath(attr, Some(f)))
    requires attr !in ARRAY_ATTRS
    ensures Patched(host, cur, op) == cur[attr := Undefined]
  {
    hide ParsePatchPath, ApplyPatchOps, Staying;
    OneStep(host, cur, op);
    EmptyPath();
  }

  lemma EmptyPath()
    ensures ParsePatchPath("").None?
  {
    hide ParseFilter;
  }

  /** The text of a sub-attribute of an element, as the filter compares it. */
  function SubText(host: Host, e: Json, sub: string): string {
    host.text(if e.Obj? then Get(e.fields, sub) else Undefined)
  }

  /** A filter removes exactly the elements whose sub-attribute reads as its value; the others keep their order. */
  lemma RemoveMatching(host: Host, cur: Object, op: PatchOp, attr: string, sub: string, val: string)
    returns (places: seq<nat>, kept: seq<Json>)
    requires host.lower(op.op) == "remove" && op.path == attr + "[" + sub + " eq \"" + val + "\"]"
    requires attr in ARRAY_ATTRS && Identifier(attr) && Identifier(sub) && '"' !in val
    ensures Patched(host, cur, op) == cur[attr := Arr(kept)]
    ensures var before := AsArray(Property(cur, attr));
            && PickedAt(before, places, kept)
            && (forall i, j :: 0 <= i < j < |places| ==> places[i] < places[j])
            && (forall k: nat :: k in places <==> k < |before| && SubText(host, before[k], sub) != val)
  {
    var f := ScimPatch.Filter(sub, val);
    var before := AsArray(Property(cur, attr));
    RemoveStep(host, cur, op, attr, sub, val);
    kept := Staying(host, f, before);
    hide Patched, AsArray, Get, PickedAt, Prelude.Filter;
    places := FilterPlaces(StaysWith(host, f), before);
  }

  lemma RemoveStep(host: Host, cur: Object, op: PatchOp, attr: string, sub: string, val: string)
    requires host.lower(op.op) == "remove" && op.path == attr + "[" + sub + " eq \"" + val + "\"]"
    requires attr in ARRAY_ATTRS && Identifier(attr) && Identifier(sub) && '"' !in val
    ensures Patched(host, cur, op)
         == cur[attr := Arr(Staying(host, ScimPatch.Filter(sub, val), AsArray(Property(cur, attr))))]
  {
    hide ParsePatchPath, ApplyPatchOps, Staying, AsArray, Identifier;
    OneStep(host, cur, op);
    ArrayAttrsAllowed(attr);
    FilterPathRoundTrip(attr, sub, val);
    assert op.path != "";
  }

  /** The field with the key, when there is one. */
  function FieldOf(fields: seq<Field>, key: string): Option<Json> {
    if fields == [] then None else if fields[0].key == key then Some(fields[0].value) else FieldOf(fields[1..], key)
  }

  /** Without a path the allow-listed fields of the value are set. */
  lemma ReplaceResource(host: Host, cur: Object, op: PatchOp, key: string)
    requires host.lower(op.op) == "replace" && op.path == "" && op.value.Obj? && DistinctKeys(op.value.fields)
    ensures var v := FieldOf(op.value.fields, key);
            Property(Patched(host, cur, op), key)
            == if key in ALLOWED && v.Some? then v.value else Property(cur, key)
  {
    hide ApplyPatchOps, ReplaceFields;
    OneStep(host, cur, op);
    ReplaceFieldsReads(map[], op.value.fields, key);
  }

  lemma {:induction false} ReplaceFieldsReads(out: Object, fields: seq<Field>, key: string)
    requires DistinctKeys(fields)
    ensures var v, r := FieldOf(fields, key), ReplaceFields(out, fields);
            if key in ALLOWED && v.Some? then key in r && r[key] == v.value
            else (key in r <==> key in out) && (key in r ==> r[key] == out[key])
    decreases fields
  {
    if fields != [] {
      ReplaceFieldsReads(if fields[0].key in ALLOWED then out[fields[0].key := fields[0].value] else out, fields[1..], key);
      NoSecond(fields);
    }
  }

  lemma NoSecond(fields: seq<Field>)
    requires fields != [] && DistinctKeys(fields)
    ensures DistinctKeys(fields[1..]) && FieldOf(fields[1..], fields[0].key).None?
  {
    NotThere(fields[1..], fields[0].key);
  }

  lemma {:induction false} NotThere(fields: seq<Field>, key: string)
    requires forall i :: 0 <= i < |fields| ==> fields[i].key != key
    ensures FieldOf(fields, key).None?
  {
    if fields != [] {
      NotThere(fields[1..], key);
    }
  }

  /** Adding without a path extends the lists among them. */
  lemma AddToResource(host: Host, cur: Object, op: PatchOp, key: string)
    requires host.lower(op.op) == "add" && op.path == "" && op.value.Obj? && DistinctKeys(op.value.fields)
    ensures var v := FieldOf(op.value.fields, key);
            Property(Patched(host, cur, op), key)
            == if key !in ALLOWED || v.None? then Property(cur, key)
               else if key in ARRAY_ATTRS then Arr(AddItems(host, AsArray(Property(cur, key)), AsArray(v.value)))
               else v.value
  {
    hide ApplyPatchOps, AddFields, AddItems, AsArray;
    OneStep(host, cur, op);
    AddFieldsReads(host, cur, map[], op.value.fields, key);
  }

  lemma {:induction false} AddFieldsReads(host: Host, cur: Object, out: Object, fields: seq<Field>, key: string)
    requires DistinctKeys(fields) && forall i :: 0 <= i < |fields| ==> fields[i].key !in out
    ensures var v, r := FieldOf(fields, key), AddFields(host, cur, out, fields);
            if key in ALLOWED && v.Some? then
              key in r && r[key] == if key in ARRAY_ATTRS then Arr(AddItems(host, AsArray(Property(cur, key)), AsArray(v.value)))
                                    else v.value
            else (key in r <==> key in out) && (key in r ==> r[key] == out[key])
    decreases fields
  {
    hide AddItems, AsArray;
    if fields != [] {
      var f := fields[0];
      AddFieldsReads(host, cur, if f.key in ALLOWED then AddAttr(host, cur, out, f.key, f.value) else out, fields[1..], key);
      NoSecond(fields);
    }
  }

  /** Everything else changes nothing. */
  lemma OtherOperations(host: Host, cur: Object, op: PatchOp)
    requires var verb, p := host.lower(op.op), ParsePatchPath(op.path);
             || verb !in {"replace", "add", "remove"}
             || (op.path == "" && (verb == "remove" || !op.value.Obj?))
             || (op.path != "" && (p.None? || (p.value.filter.Some? && verb != "remove")))
    ensures Patched(host, cur, op) == cur
  {
    hide ParsePatchPath, ApplyPatchOps;
    OneStep(host, cur, op);
  }
}
