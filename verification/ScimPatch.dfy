/**
 * SCIM PATCH: translating a list of operations into a partial resource (scim/routes.ts)
 * and merging it into the stored one (scim/store.ts). Resources are values.
 */
module ScimPatch {
  import opened Prelude
  import opened Text
  import opened CanonicalJson
  import opened JsonReader
  import opened AuditChain

  /** `String(v)`, `JSON.stringify(v)` (None for undefined) and `toLowerCase` of the host language. */
  datatype Host = Host(text: Json -> string, stringify: Json -> Option<string>, lower: string -> string)

  /** A plain object: its own properties. */
  type Object = map<string, Json>

  const ALLOWED: set<string> :=
    {"userName", "active", "displayName", "name", "emails", "externalId", "members", "groups"}

  const ARRAY_ATTRS: set<string> := {"members", "emails", "groups"}

  // ----- Paths -----

  datatype Filter = Filter(sub: string, val: string)

  datatype PatchPath = PatchPath(attr: string, filter: Option<Filter>)

  predicate IsAlpha(c: char) {
    'a' <= c <= 'z' || 'A' <= c <= 'Z'
  }

  predicate IsWord(c: char) {
    IsAlpha(c) || '0' <= c <= '9' || c == '_'
  }

  /** The longest run of word characters at the front. */
  function TakeWord(s: string): (w: string)
    ensures w <= s
  {
    if s == "" || !IsWord(s[0]) then "" else [s[0]] + TakeWord(s[1..])
  }

  predicate Identifier(s: string) {
    s != "" && IsAlpha(s[0]) && forall i :: 0 <= i < |s| ==> IsWord(s[i])
  }

  function IndexOf(s: string, c: char): (i: nat)
    ensures i <= |s| && (i < |s| ==> s[i] == c)
  {
    if s == "" || s[0] == c then 0 else 1 + IndexOf(s[1..], c)
  }

  /** White space, then the rest, when there is any white space. */
  function AfterSpaces(s: string): Option<string> {
    if s != "" && IsSpace(s[0]) then Some(TrimStart(s)) else None
  }

  /** A value between quotes, up to the closing bracket. */
  function ParseQuoted(s: string): Option<string> {
    if s == "" || s[0] != '"' then None
    else
      var q := IndexOf(s[1..], '"');
      if q == |s| - 1 || TrimStart(s[1..][q + 1..]) != "]" then None else Some(s[1..][..q])
  }

  /** The comparison and what follows it. */
  function ParseEq(s: string): Option<string> {
    if |s| < 2 || s[..2] != "eq" then None
    else
      var rest := AfterSpaces(s[2..]);
      if rest.None? then None else ParseQuoted(rest.value)
  }

  /** The sub-attribute, white space and the comparison, to the end of the text. */
  function ParseFilter(s: string): Option<Filter> {
    var s1 := TrimStart(s);
    var sub := TakeWord(s1);
    var s2 := AfterSpaces(s1[|sub|..]);
    if sub == "" || !IsAlpha(sub[0]) || s2.None? then None
    else
      var val := ParseEq(s2.value);
      if val.None? then None else Some(Filter(sub, val.value))
  }

  function ParsePatchPath(path: string): Option<PatchPath> {
    var attr := TakeWord(path);
    var rest := path[|attr|..];
    var filter := if Identifier(attr) && rest != "" && rest[0] == '[' then ParseFilter(rest[1..]) else None;
    if filter.Some? then (if attr in ALLOWED then Some(PatchPath(attr, filter)) else None)
    else if path in ALLOWED then Some(PatchPath(path, None))
    else None
  }

  lemma {:induction false} TakeWordOf(w: string, rest: string)
    requires (forall i :: 0 <= i < |w| ==> IsWord(w[i])) && (rest == "" || !IsWord(rest[0]))
    ensures TakeWord(w + rest) == w
  {
    if w == "" {
      assert w + rest == rest;
    } else {
      assert (w + rest)[1..] == w[1..] + rest;
      TakeWordOf(w[1..], rest);
      assert [w[0]] + w[1..] == w;
    }
  }

  lemma {:induction false} IndexOfAt(a: string, c: char, rest: string)
    requires c !in a
    ensures IndexOf(a + [c] + rest, c) == |a|
  {
    var s := a + [c] + rest;
    if a != "" {
      assert s[1..] == a[1..] + [c] + rest && s[0] == a[0];
      IndexOfAt(a[1..], c, rest);
    }
  }

  lemma {:induction false} TakeWordEnds(s: string)
    ensures var w := TakeWord(s);
            && (forall i :: 0 <= i < |w| ==> IsWord(w[i])) && s == w + s[|w|..]
            && (|w| < |s| ==> !IsWord(s[|w|]))
  {
    hide IsWord;
    if s != "" && IsWord(s[0]) {
      TakeWordEnds(s[1..]);
    }
  }

  lemma {:induction false} IndexOfFirst(s: string, c: char)
    ensures c !in s[..IndexOf(s, c)]
  {
    if s != "" && s[0] != c {
      IndexOfFirst(s[1..], c);
      assert s[..IndexOf(s, c)] == [s[0]] + s[1..][..IndexOf(s[1..], c)];
    }
  }

  /** The characters of a word by their code points: digits, Latin letters and the underscore. */
  lemma WordCharacters(c: char)
    ensures var n := c as int;
            && (IsAlpha(c) <==> 0x41 <= n <= 0x5A || 0x61 <= n <= 0x7A)
            && (IsWord(c) <==> IsAlpha(c) || 0x30 <= n <= 0x39 || n == 0x5F)
  {
  }

  lemma NoSpaces()
    ensures !IsSpace('e') && !IsSpace('"') && !IsSpace(']') && forall c :: IsWord(c) ==> !IsSpace(c)
    ensures IsSpace(' ') && AllSpace("") && AllSpace(" ") && !IsWord('[') && forall c :: IsSpace(c) ==> !IsWord(c)
  {
  }

  /** White space in front of a text that does not begin with any. */
  lemma SpacesRead(w: string, t: string)
    requires AllSpace(w) && t != "" && !IsSpace(t[0])
    ensures TrimStart(w + t) == t && (w != "" ==> AfterSpaces(w + t) == Some(t))
  {
    hide IsSpace;
    TrimStartPadded(w, t);
  }

  lemma SpacesGiven(s: string) returns (w: string)
    ensures s == w + TrimStart(s) && AllSpace(w)
    ensures AfterSpaces(s).Some? ==> w != "" && AfterSpaces(s).value == TrimStart(s)
  {
    hide IsSpace;
    w := s[..|s| - |TrimStart(s)|];
  }

  /** A quoted value and the closing bracket. */
  function QuotedText(val: string, w: string): string {
    "\"" + (val + ("\"" + (w + "]")))
  }

  lemma QuotedReads(val: string, w: string)
    requires AllSpace(w) && '"' !in val
    ensures ParseQuoted(QuotedText(val, w)) == Some(val)
  {
    hide IndexOf, TrimStart, IsSpace;
    var tail := w + "]";
    var s := val + ("\"" + tail);
    NoSpaces();
    assert QuotedText(val, w)[1..] == s && s == val + "\"" + tail;
    IndexOfAt(val, '"', tail);
    assert s[|val| + 1..] == tail && s[..|val|] == val;
    SpacesRead(w, "]");
  }

  lemma QuotedGives(s: string) returns (w: string)
    requires ParseQuoted(s).Some?
    ensures AllSpace(w) && '"' !in ParseQuoted(s).value && s == QuotedText(ParseQuoted(s).value, w)
  {
    hide IndexOf, TrimStart, IsSpace, AfterSpaces, QuotedText;
    var t := s[1..];
    var q := IndexOf(t, '"');
    IndexOfFirst(t, '"');
    w := SpacesGiven(t[q + 1..]);
    QuotedOf(s, t, q, w);
  }

  lemma QuotedOf(s: string, t: string, q: nat, w: string)
    requires s != "" && s[0] == '"' && t == s[1..] && q < |t| && t[q] == '"' && t[q + 1..] == w + "]"
    ensures s == QuotedText(t[..q], w)
  {
    CutAt(t, q);
    assert s == [s[0]] + t;
  }

  lemma CutAt(t: string, q: nat)
    requires q < |t|
    ensures t == t[..q] + ([t[q]] + t[q + 1..])
  {
  }

  /** The text behind the sub-attribute of a filter. */
  function EqText(w: string, val: string, w': string): string {
    "eq" + (w + QuotedText(val, w'))
  }

  lemma EqReads(w: string, val: string, w': string)
    requires AllSpace(w) && w != "" && AllSpace(w') && '"' !in val
    ensures ParseEq(EqText(w, val, w')) == Some(val)
  {
    hide ParseQuoted, TrimStart, IsSpace, AfterSpaces;
    var rest := QuotedText(val, w');
    var s := "eq" + (w + rest);
    NoSpaces();
    assert s[..2] == "eq" && s[2..] == w + rest && rest[0] == '"';
    SpacesRead(w, rest);
    QuotedReads(val, w');
  }

  lemma EqGives(s: string) returns (w: string, w': string)
    requires ParseEq(s).Some?
    ensures AllSpace(w) && w != "" && AllSpace(w') && '"' !in ParseEq(s).value && s == EqText(w, ParseEq(s).value, w')
  {
    hide ParseQuoted, TrimStart, IsSpace, AfterSpaces, QuotedText;
    w := SpacesGiven(s[2..]);
    w' := QuotedGives(AfterSpaces(s[2..]).value);
    assert s == "eq" + s[2..];
  }

  /** A filter between its brackets. */
  datatype FilterText = FilterText(w0: string, sub: string, w1: string, w2: string, val: string, w3: string) {
    predicate WellFormed() {
      && AllSpace(w0) && AllSpace(w1) && AllSpace(w2) && AllSpace(w3) && w1 != "" && w2 != ""
      && Identifier(sub) && '"' !in val
    }

    function Spell(): string {
      w0 + (sub + (w1 + EqText(w2, val, w3)))
    }
  }

  lemma FilterReads(t: FilterText)
    requires t.WellFormed()
    ensures ParseFilter(t.Spell()) == Some(Filter(t.sub, t.val))
  {
    hide ParseEq, TrimStart, AfterSpaces, TakeWord, IsWord, IsSpace;
    NoSpaces();
    var s2 := EqText(t.w2, t.val, t.w3);
    var s1 := t.sub + (t.w1 + s2);
    assert IsWord(t.sub[0]) && s1[0] == t.sub[0];
    SpacesRead(t.w0, s1);
    assert (t.w1 + s2)[0] == t.w1[0];
    TakeWordOf(t.sub, t.w1 + s2);
    assert s1[|t.sub|..] == t.w1 + s2;
    SpacesRead(t.w1, s2);
    EqReads(t.w2, t.val, t.w3);
  }

  lemma FilterGives(s: string) returns (t: FilterText)
    requires ParseFilter(s).Some?
    ensures t.WellFormed() && t.Spell() == s && ParseFilter(s).value == Filter(t.sub, t.val)
  {
    hide ParseEq, TrimStart, AfterSpaces, TakeWord, IsWord, IsSpace, EqText;
    var s1 := TrimStart(s);
    var sub := TakeWord(s1);
    TakeWordEnds(s1);
    var w0 := SpacesGiven(s);
    var w1 := SpacesGiven(s1[|sub|..]);
    var s2 := AfterSpaces(s1[|sub|..]).value;
    var w2, w3 := EqGives(s2);
    t := FilterText(w0, sub, w1, w2, ParseEq(s2).value, w3);
  }

  /**
   * A path is read with a filter exactly when it is an allow-listed attribute and, in brackets, a
   * sub-attribute, `eq` and a quoted value without a quote in it, with white space around them
   * where the grammar has it.
   */
  lemma FilterPathExact(path: string, attr: string, f: Filter)
    ensures ParsePatchPath(path) == Some(PatchPath(attr, Some(f))) <==>
            && attr in ALLOWED && Identifier(attr)
            && exists t: FilterText :: t.WellFormed() && t.sub == f.sub && t.val == f.val
                                       && path == attr + ("[" + t.Spell())
  {
    hide ParseFilter, TakeWord, IsWord, FilterText.WellFormed, FilterText.Spell;
    if ParsePatchPath(path) == Some(PatchPath(attr, Some(f))) {
      TakeWordEnds(path);
      var rest := path[|attr|..];
      var t := FilterGives(rest[1..]);
      assert rest == "[" + rest[1..];
      assert path == attr + ("[" + t.Spell());
    }
    if attr in ALLOWED && Identifier(attr) {
      forall t: FilterText | t.WellFormed() && t.sub == f.sub && t.val == f.val
                             && path == attr + ("[" + t.Spell())
        ensures ParsePatchPath(path) == Some(PatchPath(attr, Some(f)))
      {
        NoSpaces();
        TakeWordOf(attr, "[" + t.Spell());
        assert path[|attr|..] == "[" + t.Spell() && ("[" + t.Spell())[1..] == t.Spell();
        FilterReads(t);
      }
    }
  }

  /** And without a filter exactly when it is an allow-listed attribute. */
  lemma BarePathExact(path: string, attr: string)
    ensures ParsePatchPath(path) == Some(PatchPath(attr, None)) <==> path == attr && attr in ALLOWED
  {
    hide ParseFilter;
    if path in ALLOWED {
      PlainPath(path);
    }
  }

  /** A filter path is read back as it was written. */
  lemma FilterPathRoundTrip(attr: string, sub: string, val: string)
    requires attr in ALLOWED && Identifier(attr) && Identifier(sub) && '"' !in val
    ensures ParsePatchPath(attr + "[" + sub + " eq \"" + val + "\"]") == Some(PatchPath(attr, Some(Filter(sub, val))))
  {
    hide ParsePatchPath, Identifier;
    NoSpaces();
    var t := FilterText("", sub, " ", " ", val, "");
    assert t.Spell() == sub + (" " + ("eq" + (" " + ("\"" + (val + ("\"" + "]"))))));
    assert attr + "[" + sub + " eq \"" + val + "\"]" == attr + ("[" + t.Spell());
    FilterPathExact(attr + "[" + sub + " eq \"" + val + "\"]", attr, Filter(sub, val));
  }

  // ----- Operations -----

  datatype PatchOp = PatchOp(op: string, path: string, value: Json)

  function Property(o: Object, key: string): Json {
    if key in o then o[key] else Undefined
  }

  /** The working value: what an earlier operation wrote, else the current resource's. */
  function ReadAttr(cur: Object, out: Object, attr: string): Json {
    if attr in out then out[attr] else Property(cur, attr)
  }

  function AsArray(v: Json): seq<Json> {
    match v
    case Arr(items) => items
    case Undefined => []
    case Null => []
    case _ => [v]
  }

  function ElemKey(host: Host, e: Json): Option<string> {
    if e.Obj? && (exists i :: 0 <= i < |e.fields| && e.fields[i].key == "value") then Some(host.text(Get(e.fields, "value")))
    else host.stringify(e)
  }

  predicate HasKey(host: Host, items: seq<Json>, key: Option<string>) {
    exists i :: 0 <= i < |items| && ElemKey(host, items[i]) == key
  }

  /** Appending each item whose key is not there yet. */
  function AddItems(host: Host, existing: seq<Json>, items: seq<Json>): seq<Json>
    decreases items
  {
    if items == [] then existing
    else
      AddItems(host, if HasKey(host, existing, ElemKey(host, items[0])) then existing else existing + [items[0]], items[1..])
  }

  /** An element stays when its sub-attribute, as text, differs from the filter value. */
  predicate Stays(host: Host, f: Filter, e: Json) {
    host.text(if e.Obj? then Get(e.fields, f.sub) else Undefined) != f.val
  }

  function StaysWith(host: Host, f: Filter): Json -> bool {
    e => Stays(host, f, e)
  }

  function Staying(host: Host, f: Filter, items: seq<Json>): seq<Json> {
    Prelude.Filter(StaysWith(host, f), items)
  }

  function ReplaceFields(out: Object, fields: seq<Field>): Object
    decreases fields
  {
    if fields == [] then out
    else ReplaceFields(if fields[0].key in ALLOWED then out[fields[0].key := fields[0].value] else out, fields[1..])
  }

  function AddAttr(host: Host, cur: Object, out: Object, attr: string, value: Json): Object {
    if attr in ARRAY_ATTRS then out[attr := Arr(AddItems(host, AsArray(ReadAttr(cur, out, attr)), AsArray(value)))]
    else out[attr := value]
  }

  function AddFields(host: Host, cur: Object, out: Object, fields: seq<Field>): Object
    decreases fields
  {
    if fields == [] then out
    else
      var f := fields[0];
      AddFields(host, cur, if f.key in ALLOWED then AddAttr(host, cur, out, f.key, f.value) else out, fields[1..])
  }

  function RemoveAt(host: Host, cur: Object, out: Object, p: PatchPath): Object {
    if p.attr in ARRAY_ATTRS then
      out[p.attr := Arr(if p.filter.Some? then Staying(host, p.filter.value, AsArray(ReadAttr(cur, out, p.attr))) else [])]
    else out[p.attr := Undefined]
  }

  /** One operation on the partial resource. */
  function Step(host: Host, cur: Object, out: Object, op: PatchOp): Object {
    var verb := host.lower(op.op);
    var p := ParsePatchPath(op.path);
    if verb == "replace" then
      if op.path == "" then (if op.value.Obj? then ReplaceFields(out, op.value.fields) else out)
      else if p.Some? && p.value.filter.None? then out[p.value.attr := op.value] else out
    else if verb == "add" then
      if op.path == "" then (if op.value.Obj? then AddFields(host, cur, out, op.value.fields) else out)
      else if p.Some? && p.value.filter.None? then AddAttr(host, cur, out, p.value.attr, op.value) else out
    else if verb == "remove" then
      if op.path == "" || p.None? then out else RemoveAt(host, cur, out, p.value)
    else out
  }

  /** All operations on an existing resource, from a partial result. */
  function ApplyFrom(host: Host, cur: Object, out: Object, ops: seq<PatchOp>): Object
    decreases ops
  {
    if ops == [] then out else ApplyFrom(host, cur, Step(host, cur, out, ops[0]), ops[1..])
  }

  function ApplyPatchOps(host: Host, cur: Object, ops: seq<PatchOp>): Object {
    ApplyFrom(host, cur, map[], ops)
  }

  lemma HasKeySnoc(host: Host, items: seq<Json>, item: Json)
    ensures forall k :: HasKey(host, items + [item], k) <==> HasKey(host, items, k) || k == ElemKey(host, item)
  {
    hide ElemKey;
    var all := items + [item];
    forall k ensures HasKey(host, all, k) <==> HasKey(host, items, k) || k == ElemKey(host, item) {
      if HasKey(host, items, k) {
        var i :| 0 <= i < |items| && ElemKey(host, items[i]) == k;
        assert all[i] == items[i];
      }
      assert all[|items|] == item;
    }
  }

  // ----- Composition -----

  lemma {:induction false} ReplaceOver(base: Object, out: Object, fields: seq<Field>)
    ensures ReplaceFields(base + out, fields) == base + ReplaceFields(out, fields)
    decreases fields
  {
    if fields != [] {
      var f := fields[0];
      if f.key in ALLOWED {
        assert (base + out)[f.key := f.value] == base + out[f.key := f.value];
        ReplaceOver(base, out[f.key := f.value], fields[1..]);
      } else {
        ReplaceOver(base, out, fields[1..]);
      }
    }
  }

  /** Reading through a partial result on top of another is reading on the merged resource. */
  lemma ReadOver(cur: Object, base: Object, out: Object, attr: string)
    ensures ReadAttr(cur, base + out, attr) == ReadAttr(cur + base, out, attr)
  {
  }

  lemma AddAttrOver(host: Host, cur: Object, base: Object, out: Object, attr: string, value: Json)
    ensures AddAttr(host, cur, base + out, attr, value) == base + AddAttr(host, cur + base, out, attr, value)
  {
    hide AddItems, AsArray;
    ReadOver(cur, base, out, attr);
    PutOver(base, out, attr, value);
    PutOver(base, out, attr, Arr(AddItems(host, AsArray(ReadAttr(cur, base + out, attr)), AsArray(value))));
  }

  lemma PutOver(base: Object, out: Object, key: string, v: Json)
    ensures (base + out)[key := v] == base + out[key := v]
  {
  }

  lemma {:induction false} AddFieldsOver(host: Host, cur: Object, base: Object, out: Object, fields: seq<Field>)
    ensures AddFields(host, cur, base + out, fields) == base + AddFields(host, cur + base, out, fields)
    decreases fields
  {
    hide AddAttr;
    if fields != [] {
      var f := fields[0];
      if f.key in ALLOWED {
        AddAttrOver(host, cur, base, out, f.key, f.value);
        AddFieldsOver(host, cur, base, AddAttr(host, cur + base, out, f.key, f.value), fields[1..]);
      } else {
        AddFieldsOver(host, cur, base, out, fields[1..]);
      }
    }
  }

  /** One operation on a partial result equals the same operation after merging that result. */
  lemma StepOver(host: Host, cur: Object, base: Object, out: Object, op: PatchOp)
    ensures Step(host, cur, base + out, op) == base + Step(host, cur + base, out, op)
  {
    hide ParsePatchPath, RemoveAt, AddAttr, AddFields, ReplaceFields;
    var p := ParsePatchPath(op.path);
    if op.value.Obj? {
      ReplaceOver(base, out, op.value.fields);
      AddFieldsOver(host, cur, base, out, op.value.fields);
    }
    if p.Some? {
      AddAttrOver(host, cur, base, out, p.value.attr, op.value);
      PutOver(base, out, p.value.attr, op.value);
      RemoveOver(host, cur, base, out, p.value);
    }
  }

  lemma RemoveOver(host: Host, cur: Object, base: Object, out: Object, p: PatchPath)
    ensures RemoveAt(host, cur, base + out, p) == base + RemoveAt(host, cur + base, out, p)
  {
    hide Staying, AsArray;
    ReadOver(cur, base, out, p.attr);
    PutOver(base, out, p.attr, Undefined);
    PutOver(base, out, p.attr, Arr([]));
    if p.filter.Some? {
      PutOver(base, out, p.attr, Arr(Staying(host, p.filter.value, AsArray(ReadAttr(cur, base + out, p.attr)))));
    }
  }

  lemma {:induction false} ApplyOver(host: Host, cur: Object, base: Object, out: Object, ops: seq<PatchOp>)
    ensures ApplyFrom(host, cur, base + out, ops) == base + ApplyFrom(host, cur + base, out, ops)
    decreases ops
  {
    hide Step;
    if ops != [] {
      StepOver(host, cur, base, out, ops[0]);
      ApplyOver(host, cur, base, Step(host, cur + base, out, ops[0]), ops[1..]);
    }
  }

  lemma {:induction false} ApplyConcat(host: Host, cur: Object, out: Object, a: seq<PatchOp>, b: seq<PatchOp>)
    ensures ApplyFrom(host, cur, out, a + b) == ApplyFrom(host, cur, ApplyFrom(host, cur, out, a), b)
    decreases a
  {
    hide Step;
    if a == [] {
      assert a + b == b;
    } else {
      assert (a + b)[1..] == a[1..] + b;
      ApplyConcat(host, cur, Step(host, cur, out, a[0]), a[1..], b);
    }
  }

  /**
   * Sections of a request compose: one request with all operations and a merge give the
   * same resource as two requests, each merged before the next.
   */
  lemma PatchComposes(host: Host, cur: Object, a: seq<PatchOp>, b: seq<PatchOp>)
    ensures var merged := cur + ApplyPatchOps(host, cur, a);
            cur + ApplyPatchOps(host, cur, a + b) == merged + ApplyPatchOps(host, merged, b)
  {
    hide ApplyFrom;
    var first := ApplyPatchOps(host, cur, a);
    ApplyConcat(host, cur, map[], a, b);
    assert first + map[] == first;
    ApplyOver(host, cur, first, map[], b);
  }

  // ----- Only allow-listed keys -----

  lemma {:induction false} AllowedThroughFields(host: Host, cur: Object, out: Object, fields: seq<Field>)
    requires out.Keys <= ALLOWED
    ensures ReplaceFields(out, fields).Keys <= ALLOWED && AddFields(host, cur, out, fields).Keys <= ALLOWED
    decreases fields
  {
    hide AddItems;
    if fields != [] {
      var f := fields[0];
      AllowedThroughFields(host, cur, if f.key in ALLOWED then AddAttr(host, cur, out, f.key, f.value) else out, fields[1..]);
      AllowedThroughFields(host, cur, if f.key in ALLOWED then out[f.key := f.value] else out, fields[1..]);
    }
  }

  /** A patch never holds a key outside the allow list. */
  lemma {:induction false} OnlyAllowedKeys(host: Host, cur: Object, out: Object, ops: seq<PatchOp>)
    requires out.Keys <= ALLOWED
    ensures ApplyFrom(host, cur, out, ops).Keys <= ALLOWED
    decreases ops
  {
    if ops != [] {
      StepAllowed(host, cur, out, ops[0]);
      OnlyAllowedKeys(host, cur, Step(host, cur, out, ops[0]), ops[1..]);
    }
  }

  lemma StepAllowed(host: Host, cur: Object, out: Object, op: PatchOp)
    requires out.Keys <= ALLOWED
    ensures Step(host, cur, out, op).Keys <= ALLOWED
  {
    hide AddItems, AddFields, ReplaceFields, ParseFilter, TakeWord, Staying;
    if op.value.Obj? {
      AllowedThroughFields(host, cur, out, op.value.fields);
    }
  }

  // ----- Adding an element and removing it by its value -----

  /** The element `{ value: x }`, with whatever other fields. */
  predicate ElementWithValue(e: Json, x: string) {
    e.Obj? && Get(e.fields, "value") == Str(x) && exists i :: 0 <= i < |e.fields| && e.fields[i].key == "value"
  }

  lemma StayingAppend(host: Host, f: Filter, a: seq<Json>, b: seq<Json>)
    ensures Staying(host, f, a + b) == Staying(host, f, a) + Staying(host, f, b)
  {
    FilterAppend(StaysWith(host, f), a, b);
  }

  lemma {:induction false} StayingAll(host: Host, f: Filter, items: seq<Json>)
    ensures Staying(host, f, items) == items <==> forall i :: 0 <= i < |items| ==> Stays(host, f, items[i])
    ensures |Staying(host, f, items)| <= |items|
  {
    hide Stays;
    if items != [] {
      StayingAll(host, f, items[1..]);
      assert items == [items[0]] + items[1..];
      assert forall i :: 0 <= i < |items| - 1 ==> items[1..][i] == items[i + 1];
    }
  }

  /**
   * Adding an element and then removing by its value leaves the elements that never had
   * that value, so it restores the list exactly when none had it before.
   */
  lemma AddThenRemove(host: Host, cur: Object, attr: string, e: Json, x: string)
    requires attr in ARRAY_ATTRS && e.Obj? && ElementWithValue(e, x) && '"' !in x
    requires host.text(Str(x)) == x && host.lower("add") == "add" && host.lower("remove") == "remove"
    ensures var before := AsArray(Property(cur, attr));
            var ops := [PatchOp("add", attr, e), PatchOp("remove", attr + "[value eq \"" + x + "\"]", Undefined)];
            var f := Filter("value", x);
            && ApplyPatchOps(host, cur, ops[..1]) == map[attr := Arr(
                 if exists i :: 0 <= i < |before| && ElemKey(host, before[i]) == Some(x) then before else before + [e])]
            && ApplyPatchOps(host, cur, ops) == map[attr := Arr(Staying(host, f, before))]
            && (Staying(host, f, before) == before <==>
                  forall i :: 0 <= i < |before| ==> Stays(host, f, before[i]))
  {
    hide *;
    var before, f := AsArray(Property(cur, attr)), Filter("value", x);
    var path := attr + "[value eq \"" + x + "\"]";
    ArrayAttrsAllowed(attr);
    PlainPath(attr);
    ValuePath(attr, x);
    StepAdd(host, cur, attr, e);
    var added := AddItems(host, before, [e]);
    StepRemove(host, cur, map[attr := Arr(added)], path, attr, f);
    AsArrayOfArr(added);
    TwoSteps(host, cur, PatchOp("add", attr, e), PatchOp("remove", path, Undefined));
    AddOneItem(host, before, e);
    ValueKey(host, e, x);
    OneStep(host, cur, PatchOp("add", attr, e));
    assert [PatchOp("add", attr, e), PatchOp("remove", path, Undefined)][..1] == [PatchOp("add", attr, e)];
    NewElementGoes(host, f, e, x);
    StayingAppend(host, f, before, [e]);
    StayingAll(host, f, before);
    assert Staying(host, f, before) + [] == Staying(host, f, before);
    assert map[attr := Arr(added)][attr := Arr(Staying(host, f, added))] == map[attr := Arr(Staying(host, f, added))];
  }

  lemma AsArrayOfArr(items: seq<Json>)
    ensures AsArray(Arr(items)) == items
  {
  }

  lemma ValuePath(attr: string, x: string)
    requires attr in ALLOWED && Identifier(attr) && '"' !in x
    ensures var path := attr + "[value eq \"" + x + "\"]";
            path != "" && ParsePatchPath(path) == Some(PatchPath(attr, Some(Filter("value", x))))
  {
    hide ParsePatchPath, IsWord;
    assert Identifier("value") by { WordValue(); }
    FilterPathRoundTrip(attr, "value", x);
    assert attr + "[" + "value" + " eq \"" + x + "\"]" == attr + "[value eq \"" + x + "\"]";
  }

  lemma WordValue()
    ensures Identifier("value")
  {
  }

  lemma ArrayAttrsAllowed(attr: string)
    ensures attr in ARRAY_ATTRS ==> attr in ALLOWED
  {
  }

  lemma PlainPath(attr: string)
    requires attr in ALLOWED
    ensures ParsePatchPath(attr) == Some(PatchPath(attr, None)) && Identifier(attr) && attr in ALLOWED && attr != ""
  {
    assert forall i :: 0 <= i < |attr| ==> IsWord(attr[i]);
    assert attr + "" == attr;
    TakeWordOf(attr, "");
  }

  lemma AddOneItem(host: Host, before: seq<Json>, e: Json)
    ensures AddItems(host, before, [e])
         == if exists i :: 0 <= i < |before| && ElemKey(host, before[i]) == ElemKey(host, e) then before else before + [e]
  {
    assert [e][1..] == [];
  }

  lemma ValueKey(host: Host, e: Json, x: string)
    requires ElementWithValue(e, x) && host.text(Str(x)) == x
    ensures ElemKey(host, e) == Some(x)
  {
  }

  lemma StepAdd(host: Host, cur: Object, attr: string, e: Json)
    requires attr in ARRAY_ATTRS && e.Obj? && host.lower("add") == "add"
    requires ParsePatchPath(attr) == Some(PatchPath(attr, None)) && attr != ""
    ensures Step(host, cur, map[], PatchOp("add", attr, e))
         == map[attr := Arr(AddItems(host, AsArray(Property(cur, attr)), [e]))]
  {
    hide ParsePatchPath, AddItems;
  }

  lemma StepRemove(host: Host, cur: Object, out: Object, path: string, attr: string, f: Filter)
    requires attr in ARRAY_ATTRS && attr in out && path != "" && host.lower("remove") == "remove"
    requires ParsePatchPath(path) == Some(PatchPath(attr, Some(f)))
    ensures Step(host, cur, out, PatchOp("remove", path, Undefined)) == out[attr := Arr(Staying(host, f, AsArray(out[attr])))]
  {
    hide ParsePatchPath, Staying;
  }

  lemma OneStep(host: Host, cur: Object, op: PatchOp)
    ensures ApplyPatchOps(host, cur, [op]) == Step(host, cur, map[], op)
  {
    hide Step;
    assert [op][1..] == [];
    assert ApplyFrom(host, cur, Step(host, cur, map[], op), []) == Step(host, cur, map[], op);
  }

  lemma TwoSteps(host: Host, cur: Object, a: PatchOp, b: PatchOp)
    ensures ApplyPatchOps(host, cur, [a, b]) == Step(host, cur, Step(host, cur, map[], a), b)
  {
    hide Step;
    assert [a, b][1..] == [b] && [b][1..] == [];
    var out := Step(host, cur, map[], a);
    assert ApplyFrom(host, cur, out, [b]) == Step(host, cur, out, b);
  }

  lemma NewElementGoes(host: Host, f: Filter, e: Json, x: string)
    requires f == Filter("value", x) && ElementWithValue(e, x) && host.text(Str(x)) == x
    ensures Staying(host, f, [e]) == []
  {
    assert [e][1..] == [];
  }
}
