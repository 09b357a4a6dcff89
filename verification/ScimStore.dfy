/**
 * The file-backed SCIM store (scim/store.ts): updates merge a patch into a stored
 * resource, and deleting a user also removes it from every group.
 */
module ScimStores {
  import opened Prelude
  import opened CanonicalJson
  import opened JsonReader
  import opened AuditChain
  import opened ScimPatch

  const USER_SCHEMAS: Json := Arr([Str("urn:ietf:params:scim:schemas:core:2.0:User")])
  const GROUP_SCHEMAS: Json := Arr([Str("urn:ietf:params:scim:schemas:core:2.0:Group")])

  /** The object with one field set, in its place or at the end. */
  function Put(fields: seq<Field>, key: string, value: Json): seq<Field> {
    if fields == [] then [Field(key, value)]
    else if fields[0].key == key then [Field(key, value)] + fields[1..]
    else [fields[0]] + Put(fields[1..], key, value)
  }

  function Touched(meta: Json, now: string): Json {
    Obj(Put(if meta.Obj? then meta.fields else [], "lastModified", Str(now)))
  }

  /** The current resource overlaid with the patch, then with fixed schemas and id and a touched meta. */
  function Updated(current: Object, patch: Object, schemas: Json, id: string, now: string): Object {
    current + patch + map["schemas" := schemas, "id" := Str(id), "meta" := Touched(Property(current, "meta"), now)]
  }

  function FindById(list: seq<Object>, id: string): (i: nat)
    ensures i <= |list|
    ensures i < |list| ==> Property(list[i], "id") == Str(id)
    ensures forall j :: 0 <= j < i ==> Property(list[j], "id") != Str(id)
  {
    if list == [] || Property(list[0], "id") == Str(id) then 0 else 1 + FindById(list[1..], id)
  }

  function OtherThan(id: string): Object -> bool {
    (u: Object) => Property(u, "id") != Str(id)
  }

  function Others(list: seq<Object>, id: string): seq<Object> {
    Prelude.Filter(OtherThan(id), list)
  }

  /** The members of a group, none when the attribute is absent. */
  function Members(g: Object): seq<Json> {
    var m := Property(g, "members");
    if m.Arr? then m.items else []
  }

  predicate IsMember(m: Json, id: string) {
    m.Obj? && Get(m.fields, "value") == Str(id)
  }

  function NotMember(id: string): Json -> bool {
    m => !IsMember(m, id)
  }

  function WithoutMember(members: seq<Json>, id: string): seq<Json> {
    Prelude.Filter(NotMember(id), members)
  }

  function Scrubbed(groups: seq<Object>, id: string): (r: seq<Object>)
    ensures |r| == |groups|
    ensures forall i :: 0 <= i < |r| ==> r[i] == groups[i]["members" := Arr(WithoutMember(Members(groups[i]), id))]
  {
    if groups == [] then []
    else [groups[0]["members" := Arr(WithoutMember(Members(groups[0]), id))]] + Scrubbed(groups[1..], id)
  }

  class ScimStore {
    var users: seq<Object>
    var groups: seq<Object>

    constructor ()
      ensures users == [] && groups == []
    {
      users, groups := [], [];
    }

    /** None when there is no such user. */
    method UpdateUser(id: string, patch: Object, now: string) returns (r: Option<Object>)
      modifies this`users
      ensures r.None? <==> FindById(old(users), id) == |old(users)|
      ensures r.None? ==> users == old(users)
      ensures r.Some? ==>
        var i := FindById(old(users), id);
        r.value == Updated(old(users)[i], patch, USER_SCHEMAS, id, now) && users == old(users)[i := r.value]
    {
      var i := 0;
      while i < |users| && Property(users[i], "id") != Str(id)
        invariant i <= |users| && i + FindById(users[i..], id) == FindById(users, id)
      {
        i := i + 1;
      }
      if i == |users| {
        return None;
      }
      var next := Updated(users[i], patch, USER_SCHEMAS, id, now);
      users := users[i := next];
      return Some(next);
    }

    method UpdateGroup(id: string, patch: Object, now: string) returns (r: Option<Object>)
      modifies this`groups
      ensures r.None? <==> FindById(old(groups), id) == |old(groups)|
      ensures r.None? ==> groups == old(groups)
      ensures r.Some? ==>
        var i := FindById(old(groups), id);
        r.value == Updated(old(groups)[i], patch, GROUP_SCHEMAS, id, now) && groups == old(groups)[i := r.value]
    {
      var i := 0;
      while i < |groups| && Property(groups[i], "id") != Str(id)
        invariant i <= |groups| && i + FindById(groups[i..], id) == FindById(groups, id)
      {
        i := i + 1;
      }
      if i == |groups| {
        return None;
      }
      var next := Updated(groups[i], patch, GROUP_SCHEMAS, id, now);
      groups := groups[i := next];
      return Some(next);
    }

    /** An unknown user changes nothing, not even the groups. */
    method DeleteUser(id: string) returns (deleted: bool)
      modifies this
      ensures deleted <==> FindById(old(users), id) < |old(users)|
      ensures users == Others(old(users), id)
      ensures groups == if deleted then Scrubbed(old(groups), id) else old(groups)
    {
      hide Scrubbed, Others, FindById, WithoutMember, Members, Property;
      var before := |users|;
      OthersShrinks(users, id);
      users := Others(users, id);
      if |users| == before {
        return false;
      }
      var i := 0;
      ghost var was := groups;
      while i < |groups|
        invariant 0 <= i <= |groups| == |was|
        invariant groups == Scrubbed(was, id)[..i] + was[i..]
        invariant users == Others(old(users), id)
      {
        ScrubStep(was, id, i);
        groups := groups[i := groups[i]["members" := Arr(WithoutMember(Members(groups[i]), id))]];
        i := i + 1;
      }
      return true;
    }
  }

  /** Groups before `i` are done, the others as they were. */
  lemma ScrubStep(was: seq<Object>, id: string, i: nat)
    requires i < |was|
    ensures var part := Scrubbed(was, id)[..i] + was[i..];
            part[i] == was[i]
            && part[i := was[i]["members" := Arr(WithoutMember(Members(was[i]), id))]]
               == Scrubbed(was, id)[..i + 1] + was[i + 1..]
  {
    hide Scrubbed, WithoutMember, Members;
  }

  lemma {:induction false} OthersShrinks(list: seq<Object>, id: string)
    ensures |Others(list, id)| <= |list|
    ensures |Others(list, id)| == |list| <==> FindById(list, id) == |list|
    ensures |Others(list, id)| == |list| ==> Others(list, id) == list
  {
    if list != [] {
      OthersShrinks(list[1..], id);
    }
  }

  // ----- Patches through the store -----

  lemma {:induction false} PutTwice(fields: seq<Field>, key: string, a: Json, b: Json)
    ensures Put(Put(fields, key, a), key, b) == Put(fields, key, b)
  {
    if fields != [] && fields[0].key != key {
      PutTwice(fields[1..], key, a, b);
    }
  }

  lemma TouchedTwice(meta: Json, t: string, now: string)
    ensures Touched(Touched(meta, t), now) == Touched(meta, now)
  {
    PutTwice(if meta.Obj? then meta.fields else [], "lastModified", Str(t), Str(now));
  }

  /** Patching reads nothing outside the allow list. */
  lemma {:induction false} PatchReadsAllowed(host: Host, a: Object, b: Object, out: Object, ops: seq<PatchOp>)
    requires forall k :: k in ALLOWED ==> Property(a, k) == Property(b, k)
    ensures ApplyFrom(host, a, out, ops) == ApplyFrom(host, b, out, ops)
    decreases ops
  {
    hide Step;
    if ops != [] {
      StepReadsAllowed(host, a, b, out, ops[0]);
      PatchReadsAllowed(host, a, b, Step(host, a, out, ops[0]), ops[1..]);
    }
  }

  lemma {:induction false} FieldsReadAllowed(host: Host, a: Object, b: Object, out: Object, fields: seq<Field>)
    requires forall k :: k in ALLOWED ==> Property(a, k) == Property(b, k)
    ensures AddFields(host, a, out, fields) == AddFields(host, b, out, fields)
    decreases fields
  {
    hide AddItems, AsArray;
    if fields != [] {
      var f := fields[0];
      FieldsReadAllowed(host, a, b, if f.key in ALLOWED then AddAttr(host, a, out, f.key, f.value) else out, fields[1..]);
    }
  }

  lemma StepReadsAllowed(host: Host, a: Object, b: Object, out: Object, op: PatchOp)
    requires forall k :: k in ALLOWED ==> Property(a, k) == Property(b, k)
    ensures Step(host, a, out, op) == Step(host, b, out, op)
  {
    hide AddItems, AsArray, Staying, AddFields, ReplaceFields, ParsePatchPath;
    if op.value.Obj? {
      FieldsReadAllowed(host, a, b, out, op.value.fields);
    }
    var p := ParsePatchPath(op.path);
    if p.Some? {
      ArrayAttrsAllowed(p.value.attr);
    }
  }

  /**
   * Two PATCH requests one after the other store the same resource as one request with
   * all operations, up to the time stamp of the last one.
   */
  lemma StoredPatchComposes(
      host: Host, u: Object, a: seq<PatchOp>, b: seq<PatchOp>, schemas: Json, id: string, t: string, now: string)
    ensures var once := Updated(u, ApplyPatchOps(host, u, a), schemas, id, t);
            var twice := Updated(once, ApplyPatchOps(host, once, b), schemas, id, now);
            twice == Updated(u, ApplyPatchOps(host, u, a + b), schemas, id, now)
  {
    hide ApplyFrom, Touched;
    var pa := ApplyPatchOps(host, u, a);
    var once := Updated(u, pa, schemas, id, t);
    var merged := u + pa;
    OnlyAllowedKeys(host, u, map[], a);
    assert once.Keys >= merged.Keys;
    forall k | k in ALLOWED ensures Property(once, k) == Property(merged, k) {
    }
    PatchReadsAllowed(host, once, merged, map[], b);
    var pb := ApplyPatchOps(host, merged, b);
    OnlyAllowedKeys(host, merged, map[], b);
    OnlyAllowedKeys(host, u, map[], a + b);
    PatchComposes(host, u, a, b);
    TouchedTwice(Property(u, "meta"), t, now);
    assert Property(once, "meta") == Touched(Property(u, "meta"), t);
    SameStored(u, pa, pb, ApplyPatchOps(host, u, a + b), once, schemas, id, now);
  }

  lemma SameStored(u: Object, pa: Object, pb: Object, pab: Object, once: Object, schemas: Json, id: string, now: string)
    requires u + pab == (u + pa) + pb
    requires forall k :: k in once <==> k in u + pa || k in {"schemas", "id", "meta"}
    requires forall k :: k in u + pa && k !in {"schemas", "id", "meta"} ==> once[k] == (u + pa)[k]
    requires Touched(Property(once, "meta"), now) == Touched(Property(u, "meta"), now)
    ensures Updated(once, pb, schemas, id, now) == Updated(u, pab, schemas, id, now)
  {
    hide Touched;
    var l, r := Updated(once, pb, schemas, id, now), Updated(u, pab, schemas, id, now);
    assert l.Keys == r.Keys;
    forall k | k in l ensures l[k] == r[k] {
      if k !in {"schemas", "id", "meta"} {
        assert r[k] == (u + pab)[k] == ((u + pa) + pb)[k];
      }
    }
  }

  // ----- The stored resource -----

  lemma {:induction false} GetOfPut(fields: seq<Field>, key: string, value: Json, k: string)
    ensures Get(Put(fields, key, value), k) == if k == key then value else Get(fields, k)
  {
    if fields != [] && fields[0].key != key {
      GetOfPut(fields[1..], key, value, k);
    }
  }

  /**
   * Whatever the patch says, schemas and id are fixed and the metadata keeps all but its
   * time stamp; every other attribute is the one of the patch, if it has it, else the current one.
   */
  lemma UpdatedReads(current: Object, patch: Object, schemas: Json, id: string, now: string, key: string)
    ensures var r, meta := Updated(current, patch, schemas, id, now), Property(current, "meta");
            && Property(r, "schemas") == schemas && Property(r, "id") == Str(id) && Property(r, "meta").Obj?
            && Get(Property(r, "meta").fields, key)
               == (if key == "lastModified" then Str(now) else if meta.Obj? then Get(meta.fields, key) else Undefined)
            && (key !in {"schemas", "id", "meta"} ==>
                  Property(r, key) == if key in patch then patch[key] else Property(current, key))
  {
    hide Get, Put;
    var meta := Property(current, "meta");
    GetOfPut(if meta.Obj? then meta.fields else [], "lastModified", Str(now), key);
    NothingThere(key);
  }

  lemma NothingThere(key: string)
    ensures Get([], key) == Undefined
  {
  }

  // ----- Deleting a user -----

  /** Exactly the members with another id stay, in order and as often as they were listed. */
  lemma WithoutMemberExact(members: seq<Json>, id: string) returns (places: seq<nat>)
    ensures forall i, j :: 0 <= i < j < |places| ==> places[i] < places[j]
    ensures forall k: nat :: k in places <==> k < |members| && !(members[k].Obj? && Get(members[k].fields, "value") == Str(id))
    ensures PickedAt(members, places, WithoutMember(members, id))
  {
    hide Get, Prelude.Filter, PickedAt;
    places := FilterPlaces(NotMember(id), members);
  }

  /** Exactly the users with another id stay, in order and as often as they were listed. */
  lemma OthersExact(users: seq<Object>, id: string) returns (places: seq<nat>)
    ensures forall i, j :: 0 <= i < j < |places| ==> places[i] < places[j]
    ensures forall k: nat :: k in places <==> k < |users| && Property(users[k], "id") != Str(id)
    ensures PickedAt(users, places, Others(users, id))
  {
    hide Prelude.Filter, PickedAt;
    places := FilterPlaces(OtherThan(id), users);
  }

  /**
   * After a deletion the list holds no user with the id and every other user, and no group
   * lists the user while every other member and attribute stays.
   */
  lemma DeletedUserIsNowhere(users: seq<Object>, groups: seq<Object>, id: string, u: Object, i: nat, m: Json)
    requires i < |groups|
    ensures FindById(Others(users, id), id) == |Others(users, id)|
    ensures u in Others(users, id) <==> u in users && Property(u, "id") != Str(id)
    ensures var g := Scrubbed(groups, id)[i];
            && (m in Members(g) <==> m in Members(groups[i]) && !(m.Obj? && Get(m.fields, "value") == Str(id)))
            && g - {"members"} == groups[i] - {"members"}
  {
    hide *;
    NoUserLeft(users, id);
    UserStays(users, id, u);
    GroupScrubbed(groups, id, i, m);
  }

  lemma UserStays(users: seq<Object>, id: string, u: Object)
    ensures u in Others(users, id) <==> u in users && Property(u, "id") != Str(id)
  {
    FilterMembers(OtherThan(id), users, u);
  }

  lemma NoUserLeft(users: seq<Object>, id: string)
    ensures FindById(Others(users, id), id) == |Others(users, id)|
  {
    hide FindById, Others;
    var rest := Others(users, id);
    var k := FindById(rest, id);
    if k < |rest| {
      UserStays(users, id, rest[k]);
    }
  }

  lemma GroupScrubbed(groups: seq<Object>, id: string, i: nat, m: Json)
    requires i < |groups|
    ensures var g := Scrubbed(groups, id)[i];
            && (m in Members(g) <==> m in Members(groups[i]) && !(m.Obj? && Get(m.fields, "value") == Str(id)))
            && g - {"members"} == groups[i] - {"members"}
  {
    hide Get, Prelude.Filter;
    FilterMembers(NotMember(id), Members(groups[i]), m);
  }
}
