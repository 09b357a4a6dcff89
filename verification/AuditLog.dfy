/**
 * The audit log itself (audit/log.ts): recording, the serial write queue, and replaying
 * the file after a restart. Every stretch of code between two awaits is one atomic step,
 * so any interleaving of concurrent calls is some order of these steps.
 */
module AuditLogs {
  import opened Prelude
  import opened CanonicalJson
  import opened JsonReader
  import opened AuditChain
  import opened Text

  /** The in-memory part of the log. */
  datatype LogState = LogState(ring: seq<Json>, lastHash: string, seqNo: int)

  const EMPTY: LogState := LogState([], GENESIS_HASH, 0)

  /** The bounded ring drops its oldest value when it is full; an empty one has none to drop. */
  function Push(cap: nat, ring: seq<Json>, v: Json): seq<Json> {
    if |ring| == cap && ring != [] then ring[1..] + [v] else ring + [v]
  }

  /** A property of a parsed value; values that are no objects have none of these. */
  function PropertyOf(v: Json, key: string): Json {
    if v.Obj? then Get(v.fields, key) else Undefined
  }

  /** A line counts when it is parsed and is not null: reading a property of null throws. */
  predicate Counts(line: Option<Json>) {
    line.Some? && !line.value.Null?
  }

  /** One line of the file; None stands for a blank or malformed line. */
  function Replayed(cap: nat, st: LogState, line: Option<Json>): LogState {
    if !Counts(line) then st
    else
      var v := line.value;
      var n, hash := PropertyOf(v, "seq"), PropertyOf(v, "hash");
      LogState(Push(cap, st.ring, v), if hash.Str? then hash.s else st.lastHash,
               if n.Int? then Max(st.seqNo, n.n) else st.seqNo)
  }

  function ReplayFrom(cap: nat, st: LogState, lines: seq<Option<Json>>): LogState {
    if lines == [] then st
    else Replayed(cap, ReplayFrom(cap, st, lines[..|lines| - 1]), lines[|lines| - 1])
  }

  /** Replaying into a fresh log. */
  function ReplayAll(cap: nat, lines: seq<Option<Json>>): LogState {
    ReplayFrom(cap, EMPTY, lines)
  }

  function Base(st: LogState, ts: string, input: Entry): Entry {
    [Field("ts", Str(ts)), Field("seq", Int(st.seqNo + 1)), Field("prevHash", Str(st.lastHash))] + input
  }

  function NewEntry(h: Digest, st: LogState, ts: string, input: Entry): Entry {
    var base := Base(st, ts, input);
    base + [Field("hash", Str(ChainHash(h, base)))]
  }

  function Recorded(h: Digest, cap: nat, st: LogState, ts: string, input: Entry): LogState {
    var e := NewEntry(h, st, ts, input);
    LogState(Push(cap, st.ring, Obj(e)), ChainHash(h, Base(st, ts, input)), st.seqNo + 1)
  }

  class AuditLog {
    const h: Digest
    const cap: nat
    var ring: seq<Json>
    var lastHash: string
    var seqNo: int
    var writeQueue: seq<Entry>
    var bootstrapped: bool

    constructor (h: Digest, cap: nat)
      ensures this.h == h && this.cap == cap
      ensures State() == EMPTY && writeQueue == [] && !bootstrapped
    {
      this.h := h;
      this.cap := cap;
      ring, lastHash, seqNo := [], GENESIS_HASH, 0;
      writeQueue := [];
      bootstrapped := false;
    }

    function State(): LogState
      reads this
    {
      LogState(ring, lastHash, seqNo)
    }

    /** Replays the file once; later calls do nothing. */
    method Bootstrap(lines: seq<Option<Json>>)
      modifies this
      ensures bootstrapped && writeQueue == old(writeQueue)
      ensures State() == if old(bootstrapped) then old(State()) else ReplayFrom(cap, old(State()), lines)
    {
      if bootstrapped {
        return;
      }
      bootstrapped := true;
      for i := 0 to |lines|
        invariant State() == ReplayFrom(cap, old(State()), lines[..i])
        invariant bootstrapped && writeQueue == old(writeQueue)
      {
        assert lines[..i + 1][..i] == lines[..i];
        if lines[i].Some? && lines[i].value != Null {
          var entry := lines[i].value;
          var n, hash := PropertyOf(entry, "seq"), PropertyOf(entry, "hash");
          if n.Int? {
            seqNo := Max(seqNo, n.n);
          }
          if hash.Str? {
            lastHash := hash.s;
          }
          if |ring| == cap && ring != [] {
            ring := ring[1..];
          }
          ring := ring + [entry];
        }
      }
      assert lines[..|lines|] == lines;
    }

    method Record(ts: string, input: Entry) returns (entry: Entry)
      modifies this
      ensures entry == NewEntry(h, old(State()), ts, input)
      ensures State() == Recorded(h, cap, old(State()), ts, input)
      ensures writeQueue == old(writeQueue) + [entry] && bootstrapped == old(bootstrapped)
    {
      hide ChainHash, Get;
      seqNo := seqNo + 1;
      var base := [Field("ts", Str(ts)), Field("seq", Int(seqNo)), Field("prevHash", Str(lastHash))] + input;
      var hash := ChainHash(h, base);
      entry := base + [Field("hash", Str(hash))];
      lastHash := hash;
      if |ring| == cap && ring != [] {
        ring := ring[1..];
      }
      ring := ring + [Obj(entry)];
      writeQueue := writeQueue + [entry];
    }
  }

  // ----- Writing an entry and reading it back -----

  /** A value written as JSON text and parsed again: fields without a value disappear. */
  function Reread(v: Json): Json {
    match v
    case NonFinite => Null
    case Arr(items) => Arr(RereadItems(items))
    case Obj(fields) => Obj(RereadFields(fields))
    case _ => v
  }

  function RereadItems(items: seq<Json>): seq<Json> {
    if items == [] then []
    else [if items[0].Undefined? then Null else Reread(items[0])] + RereadItems(items[1..])
  }

  function RereadFields(fields: seq<Field>): seq<Field> {
    if fields == [] then []
    else
      (if fields[0].value.Undefined? then [] else [Field(fields[0].key, Reread(fields[0].value))])
      + RereadFields(fields[1..])
  }

  /** The line of a value: `JSON.stringify` prints the fields that have a value in insertion order. */
  function Stringify(v: Json): string {
    match v
    case Undefined => ""
    case NonFinite => "null"
    case Null => "null"
    case Bool(b) => if b then "true" else "false"
    case Int(n) => IntText(n)
    case Frac(t) => t
    case Str(s) => Quote(s)
    case Arr(items) => "[" + Join(StringifyItems(items), ',') + "]"
    case Obj(fields) => "{" + Join(StringifyFields(fields), ',') + "}"
  }

  function StringifyItems(items: seq<Json>): seq<string> {
    if items == [] then []
    else [if items[0].Undefined? then "null" else Stringify(items[0])] + StringifyItems(items[1..])
  }

  function StringifyFields(fields: seq<Field>): seq<string> {
    if fields == [] then []
    else
      (if fields[0].value.Undefined? then [] else [Quote(fields[0].key) + ":" + Stringify(fields[0].value)])
      + StringifyFields(fields[1..])
  }

  lemma {:induction false} StringifyPrints(v: Json)
    requires Valid(v) && !v.Undefined?
    ensures Stringify(v) == Print(Reread(v)) && Printable(Reread(v))
    decreases v, 0
  {
    match v
    case Arr(items) => StringifyItemsPrint(items);
    case Obj(fields) => StringifyFieldsPrint(fields);
    case _ =>
  }

  lemma {:induction false} StringifyItemsPrint(items: seq<Json>)
    requires forall i :: 0 <= i < |items| ==> Valid(items[i])
    ensures var r := RereadItems(items);
            StringifyItems(items) == PrintItems(r) && forall i :: 0 <= i < |r| ==> Printable(r[i])
    decreases items, 1
  {
    if items != [] {
      hide Valid, Reread, Stringify, Print, Printable;
      StringifyItemsPrint(items[1..]);
      NullPrints();
      if !items[0].Undefined? {
        StringifyPrints(items[0]);
      }
      assert RereadItems(items)[1..] == RereadItems(items[1..]);
    }
  }

  lemma NullPrints()
    ensures Print(Null) == "null" && Printable(Null)
  {
  }

  lemma {:induction false} StringifyFieldsPrint(fields: seq<Field>)
    requires forall i :: 0 <= i < |fields| ==> Valid(fields[i].value)
    ensures var r := RereadFields(fields);
            StringifyFields(fields) == PrintFields(r) && forall i :: 0 <= i < |r| ==> Printable(r[i].value)
    decreases fields, 1
  {
    if fields != [] {
      hide Valid, Reread, Stringify, Print, Printable, Quote;
      var rest := RereadFields(fields[1..]);
      StringifyFieldsPrint(fields[1..]);
      if fields[0].value.Undefined? {
        assert RereadFields(fields) == rest;
      } else {
        StringifyPrints(fields[0].value);
        assert RereadFields(fields)[1..] == rest;
      }
    }
  }

  /** Parsing the line of a value yields what a restart finds. */
  lemma LineReadBack(v: Json)
    requires Valid(v) && !v.Undefined?
    ensures ReadJson(Stringify(v)) == Some(Reading(Reread(v), ""))
  {
    hide *;
    StringifyPrints(v);
    StopsAtEnd();
    ReadsBack(Reread(v), "");
    assert Stringify(v) + "" == Stringify(v);
  }

  lemma {:induction false} NormOfReread(v: Json)
    ensures Norm(Reread(v)) == Norm(v) && (Reread(v).Undefined? <==> v.Undefined?)
  {
    match v
    case Arr(items) => NormOfRereadItems(items);
    case Obj(fields) => NormOfRereadFields(fields);
    case _ =>
  }

  lemma {:induction false} NormOfRereadItems(items: seq<Json>)
    ensures NormItems(RereadItems(items)) == NormItems(items)
  {
    if items != [] {
      hide Norm, Reread;
      NormOfReread(items[0]);
      NormOfRereadItems(items[1..]);
      NullItem();
      assert RereadItems(items)[1..] == RereadItems(items[1..]);
    }
  }

  lemma NullItem()
    ensures Norm(Null) == Null
  {
  }

  lemma {:induction false} NormOfRereadFields(fields: seq<Field>)
    ensures NormFields(RereadFields(fields)) == NormFields(fields)
  {
    if fields != [] {
      hide Norm, Reread;
      var f := fields[0];
      var rest := RereadFields(fields[1..]);
      NormOfReread(f.value);
      NormOfRereadFields(fields[1..]);
      if f.value.Undefined? {
        assert RereadFields(fields) == rest;
      } else {
        assert RereadFields(fields)[1..] == rest;
      }
    }
  }

  /** A fresh entry and its round trip through JSON text have the same canonical text. */
  lemma CanonOfReread(v: Json)
    ensures Canon(Reread(v)) == Canon(v)
  {
    hide *;
    NormOfReread(v);
    CanonIsPrintNorm(v);
    CanonIsPrintNorm(Reread(v));
  }

  lemma {:induction false} RereadTwice(v: Json)
    ensures Reread(Reread(v)) == Reread(v) && (Reread(v).Undefined? <==> v.Undefined?)
  {
    match v
    case Arr(items) => RereadItemsTwice(items);
    case Obj(fields) => RereadFieldsTwice(fields);
    case _ =>
  }

  lemma {:induction false} RereadItemsTwice(items: seq<Json>)
    ensures RereadItems(RereadItems(items)) == RereadItems(items)
  {
    if items != [] {
      hide Reread;
      RereadTwice(items[0]);
      RereadItemsTwice(items[1..]);
      RereadNull();
      assert RereadItems(items)[1..] == RereadItems(items[1..]);
    }
  }

  lemma RereadNull()
    ensures Reread(Null) == Null
  {
  }

  lemma {:induction false} RereadFieldsTwice(fields: seq<Field>)
    ensures RereadFields(RereadFields(fields)) == RereadFields(fields)
  {
    if fields != [] {
      hide Reread;
      var rest := RereadFields(fields[1..]);
      RereadTwice(fields[0].value);
      RereadFieldsTwice(fields[1..]);
      if fields[0].value.Undefined? {
        assert RereadFields(fields) == rest;
      } else {
        assert RereadFields(fields)[1..] == rest;
      }
    }
  }

  lemma {:induction false} GetOfReread(e: Entry, key: string)
    requires DistinctKeys(e)
    ensures Get(RereadFields(e), key) == Reread(Get(e, key))
  {
    if e != [] {
      hide Reread;
      var rest := RereadFields(e[1..]);
      GetOfReread(e[1..], key);
      RereadTwice(e[0].value);
      UndefinedStays();
      if e[0].value.Undefined? {
        assert RereadFields(e) == rest;
        if e[0].key == key {
          AbsentKey(e[1..], key);
        }
      } else {
        assert RereadFields(e)[1..] == rest;
      }
    }
  }

  lemma UndefinedStays()
    ensures Reread(Undefined) == Undefined
  {
  }

  lemma {:induction false} AbsentKey(e: Entry, key: string)
    requires forall i :: 0 <= i < |e| ==> e[i].key != key
    ensures Get(e, key) == Undefined && Without(e, key) == e
  {
    if e != [] {
      AbsentKey(e[1..], key);
    }
  }

  lemma WithoutStep(f: Field, s: Entry, key: string)
    ensures Without([f] + s, key) == (if f.key == key then [] else [f]) + Without(s, key)
  {
    assert ([f] + s)[1..] == s;
  }

  lemma RereadStep(f: Field, s: Entry)
    ensures RereadFields([f] + s) == (if f.value.Undefined? then [] else [Field(f.key, Reread(f.value))]) + RereadFields(s)
  {
    assert ([f] + s)[1..] == s;
  }

  lemma {:induction false} WithoutOfReread(e: Entry, key: string)
    ensures Without(RereadFields(e), key) == RereadFields(Without(e, key))
  {
    if e != [] {
      var f, rest := e[0], e[1..];
      assert e == [f] + rest;
      WithoutOfReread(rest, key);
      WithoutOneReread(f, rest, key);
    }
  }

  lemma WithoutOneReread(f: Field, rest: Entry, key: string)
    requires Without(RereadFields(rest), key) == RereadFields(Without(rest, key))
    ensures Without(RereadFields([f] + rest), key) == RereadFields(Without([f] + rest, key))
  {
    hide Reread, Without, RereadFields;
    RereadStep(f, rest);
    WithoutStep(f, rest, key);
    RereadStep(f, Without(rest, key));
    WithoutStep(Field(f.key, Reread(f.value)), RereadFields(rest), key);
    assert [] + RereadFields(rest) == RereadFields(rest) && [] + Without(rest, key) == Without(rest, key);
  }

  /** Removing the one field with the key at the end restores the fields before it. */
  lemma {:induction false} WithoutLast(a: Entry, f: Field)
    requires forall i :: 0 <= i < |a| ==> a[i].key != f.key
    ensures Without(a + [f], f.key) == a
  {
    if a == [] {
      assert a + [f] == [f] && [f][1..] == [];
    } else {
      WithoutLast(a[1..], f);
      WithoutStep(a[0], a[1..] + [f], f.key);
      assert a + [f] == [a[0]] + (a[1..] + [f]) && a == [a[0]] + a[1..];
    }
  }

  lemma {:induction false} GetAppend(a: Entry, b: Entry, key: string)
    requires forall i :: 0 <= i < |a| ==> a[i].key != key
    ensures Get(a + b, key) == Get(b, key)
  {
    if a == [] {
      assert a + b == b;
    } else {
      GetAppend(a[1..], b, key);
      assert (a + b)[1..] == a[1..] + b;
    }
  }

  /** What callers pass to `record`: the chain fields are not among the keys. */
  predicate ProperInput(input: Entry) {
    DistinctKeys(input) && forall i :: 0 <= i < |input| ==> input[i].key !in {"ts", "seq", "prevHash", "hash"}
  }

  lemma BaseFacts(st: LogState, ts: string, input: Entry)
    requires ProperInput(input)
    ensures var base := Base(st, ts, input);
            && DistinctKeys(base) && (forall i :: 0 <= i < |base| ==> base[i].key != "hash")
            && Get(base, "prevHash") == Str(st.lastHash) && Get(base, "seq") == Int(st.seqNo + 1)
  {
    var base := Base(st, ts, input);
    assert base[0].key == "ts" && base[1].key == "seq" && base[2].key == "prevHash";
    assert forall i :: 3 <= i < |base| ==> base[i] == input[i - 3];
    GetFromField(base, 1);
    GetFromField(base, 2);
  }

  /** A new entry links to the last hash, carries the next number, and its digest becomes the last hash. */
  lemma NewEntryLinks(h: Digest, st: LogState, ts: string, input: Entry)
    requires ProperInput(input)
    ensures var e := NewEntry(h, st, ts, input);
            && Links(h, st.lastHash, e) && DistinctKeys(e) && Get(e, "seq") == Int(st.seqNo + 1)
            && HashOf(e) == ChainHash(h, Base(st, ts, input))
  {
    hide ChainHash, Base;
    var base := Base(st, ts, input);
    var last := [Field("hash", Str(ChainHash(h, base)))];
    BaseFacts(st, ts, input);
    GetAppend(base, last, "hash");
    WithoutLast(base, last[0]);
    GetPrefix(base, last, "prevHash");
    GetPrefix(base, last, "seq");
    GetFromField(last, 0);
  }

  /** The new entry holds the time, the next number, the last hash, and every field it was given. */
  lemma NewEntryHolds(h: Digest, st: LogState, ts: string, input: Entry, key: string)
    requires ProperInput(input)
    ensures var e := NewEntry(h, st, ts, input);
            Get(e, key) == (if key == "ts" then Str(ts)
                            else if key == "seq" then Int(st.seqNo + 1)
                            else if key == "prevHash" then Str(st.lastHash)
                            else if key == "hash" then Str(ChainHash(h, Base(st, ts, input)))
                            else Get(input, key))
  {
    hide ChainHash, Get;
    var front := [Field("ts", Str(ts)), Field("seq", Int(st.seqNo + 1)), Field("prevHash", Str(st.lastHash))];
    var last := [Field("hash", Str(ChainHash(h, Base(st, ts, input))))];
    var e := NewEntry(h, st, ts, input);
    assert e == front + (input + last) == (front + input) + last;
    if key == "ts" {
      GetFromField(e, 0);
    } else if key == "seq" {
      GetFromField(e, 1);
    } else if key == "prevHash" {
      GetFromField(e, 2);
    } else if key == "hash" {
      GetAppend(front + input, last, key);
      GetFromField(last, 0);
    } else {
      GetAppend(front, input + last, key);
      GetButLast(input, last[0], key);
    }
  }

  lemma {:induction false} GetButLast(a: Entry, f: Field, key: string)
    requires f.key != key
    ensures Get(a + [f], key) == Get(a, key)
  {
    if a == [] {
      assert a + [f] == [f] && [f][1..] == [];
    } else {
      GetButLast(a[1..], f, key);
      assert (a + [f])[1..] == a[1..] + [f];
    }
  }

  lemma {:induction false} GetPrefix(a: Entry, b: Entry, key: string)
    requires !Get(a, key).Undefined?
    ensures Get(a + b, key) == Get(a, key)
  {
    if a != [] {
      assert (a + b)[1..] == a[1..] + b;
      if a[0].key != key {
        GetPrefix(a[1..], b, key);
      }
    }
  }

  /** Reading an entry back from its line keeps it a link of the chain. */
  lemma LinksReread(h: Digest, p: string, e: Entry)
    requires Links(h, p, e) && DistinctKeys(e)
    ensures Links(h, p, RereadFields(e)) && HashOf(RereadFields(e)) == HashOf(e)
  {
    hide Canon, RereadFields;
    GetOfReread(e, "prevHash");
    GetOfReread(e, "hash");
    WithoutOfReread(e, "hash");
    RereadObject(Without(e, "hash"));
    CanonOfReread(Obj(Without(e, "hash")));
  }

  lemma RereadObject(e: Entry)
    ensures Reread(Obj(e)) == Obj(RereadFields(e))
  {
  }

  // ----- What a replay takes from any file -----

  /** The number a line gives, and the hash. */
  predicate Gives(line: Option<Json>, key: string, v: Json) {
    line.Some? && line.value.Obj? && Get(line.value.fields, key) == v
  }

  /** After any file the number is the highest that a line gives, or zero when there is none above it. */
  lemma {:induction false} ReplayHighest(cap: nat, lines: seq<Option<Json>>)
    ensures var n := ReplayAll(cap, lines).seqNo;
            && n >= 0
            && (forall i, k :: 0 <= i < |lines| && Gives(lines[i], "seq", Int(k)) ==> k <= n)
            && (n > 0 ==> exists i :: 0 <= i < |lines| && Gives(lines[i], "seq", Int(n)))
  {
    if lines != [] {
      hide Get, Push;
      var k := |lines| - 1;
      ReplayHighest(cap, lines[..k]);
      var before, n := ReplayAll(cap, lines[..k]).seqNo, ReplayAll(cap, lines).seqNo;
      if n > 0 {
        if n == before {
          var i :| 0 <= i < k && Gives(lines[..k][i], "seq", Int(n));
          assert Gives(lines[i], "seq", Int(n));
        } else {
          assert Gives(lines[k], "seq", Int(n));
        }
      }
      forall i, m | 0 <= i < |lines| && Gives(lines[i], "seq", Int(m)) ensures m <= n {
        if i < k {
          assert Gives(lines[..k][i], "seq", Int(m));
        }
      }
    }
  }

  lemma NoHashGiven(cap: nat, st: LogState, line: Option<Json>)
    requires forall x :: !Gives(line, "hash", Str(x))
    ensures Replayed(cap, st, line).lastHash == st.lastHash
  {
    hide Get, Push;
    assert line.Some? && line.value.Obj? && Get(line.value.fields, "hash").Str? ==>
        Gives(line, "hash", Str(Get(line.value.fields, "hash").s));
  }

  /** And the hash is that of the last line that gives one. */
  lemma {:induction false} ReplayLastHash(cap: nat, lines: seq<Option<Json>>, i: nat, hash: string)
    requires i < |lines| && Gives(lines[i], "hash", Str(hash))
    requires forall j, x :: i < j < |lines| ==> !Gives(lines[j], "hash", Str(x))
    ensures ReplayAll(cap, lines).lastHash == hash
  {
    hide Get, Push;
    var k := |lines| - 1;
    if i < k {
      forall j, x | i < j < k ensures !Gives(lines[..k][j], "hash", Str(x)) {
        assert !Gives(lines[j], "hash", Str(x));
      }
      assert Gives(lines[..k][i], "hash", Str(hash));
      ReplayLastHash(cap, lines[..k], i, hash);
      NoHashGiven(cap, ReplayAll(cap, lines[..k]), lines[k]);
    }
  }

  // ----- Runs over process restarts -----

  /** One process and the file: what is in memory, what is queued, and the lines on disk. */
  datatype System = System(log: LogState, queue: seq<Entry>, disk: seq<Option<Json>>)

  /**
   * An append either reaches the file or is lost. A restart loses the queue, replays the file
   * and only then lets calls continue.
   */
  datatype Event = Record(ts: string, input: Entry) | Append | Lost | Restart

  const START: System := System(EMPTY, [], [])

  function Step(h: Digest, cap: nat, s: System, ev: Event): System {
    match ev
    case Record(ts, input) =>
      System(Recorded(h, cap, s.log, ts, input), s.queue + [NewEntry(h, s.log, ts, input)], s.disk)
    case Append =>
      if s.queue == [] then s else System(s.log, s.queue[1..], s.disk + [Some(Obj(RereadFields(s.queue[0])))])
    case Lost => if s.queue == [] then s else System(s.log, s.queue[1..], s.disk)
    case Restart => System(ReplayAll(cap, s.disk), [], s.disk)
  }

  function Run(h: Digest, cap: nat, evs: seq<Event>): System {
    if evs == [] then START else Step(h, cap, Run(h, cap, evs[..|evs| - 1]), evs[|evs| - 1])
  }

  predicate ProperEvents(evs: seq<Event>) {
    forall i :: 0 <= i < |evs| && evs[i].Record? ==> ProperInput(evs[i].input)
  }

  function RereadAll(es: seq<Entry>): (r: seq<Entry>)
    ensures |r| == |es| && forall i :: 0 <= i < |r| ==> r[i] == RereadFields(es[i])
  {
    seq(|es|, i requires 0 <= i < |es| => RereadFields(es[i]))
  }

  /** What a ring of capacity `cap` holds of a list; a capacity of zero is no bound. */
  function Kept(es: seq<Entry>, cap: nat): seq<Entry> {
    if cap == 0 || |es| <= cap then es else es[|es| - cap..]
  }

  /** The ring holds exactly these entries, as they read back. */
  ghost predicate RingIs(ring: seq<Json>, es: seq<Entry>) {
    |ring| == |es| && forall i :: 0 <= i < |ring| ==> ring[i].Obj? && RereadFields(ring[i].fields) == es[i]
  }

  /** Every line is an object. */
  predicate Entered(disk: seq<Option<Json>>) {
    forall i :: 0 <= i < |disk| ==> disk[i].Some? && disk[i].value.Obj?
  }

  /** The entries of the file; a line that is no object counts as an empty one. */
  function OnDisk(disk: seq<Option<Json>>): (r: seq<Entry>)
    ensures |r| == |disk|
    ensures forall i :: 0 <= i < |r| ==> disk[i].Some? && disk[i].value.Obj? ==> r[i] == disk[i].value.fields
  {
    seq(|disk|, i requires 0 <= i < |disk| => if disk[i].Some? && disk[i].value.Obj? then disk[i].value.fields else [])
  }

  ghost predicate Numbered(es: seq<Entry>) {
    forall i :: 0 <= i < |es| ==> Get(es[i], "seq") == Int(i + 1) && RereadFields(es[i]) == es[i]
  }

  /** The memory agrees with a chain of numbered entries. */
  ghost predicate Mirrors(h: Digest, cap: nat, st: LogState, es: seq<Entry>) {
    && IsChain(h, es) && Numbered(es)
    && st.lastHash == Tip(es) && st.seqNo == |es|
    && RingIs(st.ring, Kept(es, cap))
  }

  /** The last entries of the longer list. */
  ghost predicate IsSuffix(q: seq<Entry>, m: seq<Entry>) {
    |q| <= |m| && q == m[|m| - |q|..]
  }

  /**
   * The process remembers a numbered chain. The file holds its first entries and the queue its
   * last ones, and nothing is missing between them unless there is a gap.
   */
  ghost predicate Inv(h: Digest, cap: nat, s: System, memory: seq<Entry>, gap: bool) {
    var d, q := OnDisk(s.disk), RereadAll(s.queue);
    && Entered(s.disk) && Mirrors(h, cap, s.log, memory)
    && d <= memory && IsSuffix(q, memory) && |d| + |q| <= |memory| && (gap <==> |d| + |q| < |memory|)
  }

  lemma RingGrows(ring: seq<Json>, es: seq<Entry>, e: Entry)
    requires RingIs(ring, es)
    ensures RingIs(ring + [Obj(e)], es + [RereadFields(e)])
  {
    hide RereadFields;
  }

  lemma RingShifts(ring: seq<Json>, es: seq<Entry>)
    requires RingIs(ring, es) && ring != []
    ensures RingIs(ring[1..], es[1..])
  {
    hide RereadFields;
  }

  /** The ring after a push is what it keeps of the longer list. */
  lemma PushIsKept(cap: nat, ring: seq<Json>, es: seq<Entry>, e: Entry)
    requires RingIs(ring, Kept(es, cap))
    ensures RingIs(Push(cap, ring, Obj(e)), Kept(es + [RereadFields(e)], cap))
  {
    var all, kept := es + [RereadFields(e)], Kept(es, cap);
    assert |ring| == |kept|;
    hide RereadFields, RingIs;
    if cap > 0 && |ring| == cap {
      RingShifts(ring, kept);
      RingGrows(ring[1..], kept[1..], e);
      assert Kept(all, cap) == kept[1..] + [RereadFields(e)];
    } else {
      RingGrows(ring, kept, e);
      assert Kept(all, cap) == kept + [RereadFields(e)];
    }
  }

  lemma MirrorsNext(h: Digest, cap: nat, st: LogState, es: seq<Entry>, e: Entry, st': LogState)
    requires Mirrors(h, cap, st, es)
    requires Links(h, st.lastHash, RereadFields(e)) && Get(RereadFields(e), "seq") == Int(st.seqNo + 1)
    requires st' == LogState(Push(cap, st.ring, Obj(e)), HashOf(RereadFields(e)), st.seqNo + 1)
    ensures Mirrors(h, cap, st', es + [RereadFields(e)])
  {
    hide RereadFields, Links, Get, IsChain, RingIs, Kept, Push, Numbered;
    ChainSnoc(h, es, RereadFields(e));
    PushIsKept(cap, st.ring, es, e);
    NumberedSnoc(es, e);
  }

  lemma NumberedSnoc(es: seq<Entry>, e: Entry)
    requires Numbered(es) && Get(RereadFields(e), "seq") == Int(|es| + 1)
    ensures Numbered(es + [RereadFields(e)])
  {
    hide RereadFields, Get;
    RereadObject(e);
    RereadTwice(Obj(e));
    RereadObject(RereadFields(e));
  }

  /** Replaying a numbered chain restores exactly the memory that mirrors it. */
  lemma {:induction false} ReplayMirrors(h: Digest, cap: nat, disk: seq<Option<Json>>)
    requires Entered(disk)
    requires IsChain(h, OnDisk(disk)) && Numbered(OnDisk(disk))
    ensures Mirrors(h, cap, ReplayAll(cap, disk), OnDisk(disk))
  {
    hide *;
    if disk == [] {
      ReplayNone(h, cap, disk);
    } else {
      var n := |disk| - 1;
      OnDiskSnoc(disk);
      var es, e := OnDisk(disk[..n]), disk[n].value.fields;
      ChainSnoc(h, es, e);
      NumberedSplit(es, e);
      ReplayMirrors(h, cap, disk[..n]);
      ReplayOne(h, cap, ReplayAll(cap, disk[..n]), es, e);
      ReplayLast(cap, disk);
    }
  }

  lemma ReplayNone(h: Digest, cap: nat, disk: seq<Option<Json>>)
    requires disk == []
    ensures Entered(disk) && Mirrors(h, cap, ReplayAll(cap, disk), OnDisk(disk))
  {
    assert OnDisk(disk) == [];
  }

  lemma OnDiskSnoc(disk: seq<Option<Json>>)
    requires disk != [] && Entered(disk)
    ensures var last := disk[|disk| - 1];
            && Entered(disk[..|disk| - 1]) && last.Some? && last.value.Obj?
            && OnDisk(disk) == OnDisk(disk[..|disk| - 1]) + [last.value.fields]
  {
  }

  lemma NumberedSplit(es: seq<Entry>, e: Entry)
    requires Numbered(es + [e])
    ensures Numbered(es) && Get(e, "seq") == Int(|es| + 1) && RereadFields(e) == e
  {
    hide Get, RereadFields;
    var all := es + [e];
    assert all[|es|] == e;
    assert forall i :: 0 <= i < |es| ==> all[i] == es[i];
  }

  lemma ReplayLast(cap: nat, disk: seq<Option<Json>>)
    requires disk != [] && disk[|disk| - 1].Some? && disk[|disk| - 1].value.Obj?
    ensures var last := disk[|disk| - 1].value.fields;
            ReplayAll(cap, disk) == Replayed(cap, ReplayAll(cap, disk[..|disk| - 1]), Some(Obj(last)))
  {
    hide Replayed;
  }

  lemma ReplayOne(h: Digest, cap: nat, st: LogState, es: seq<Entry>, e: Entry)
    requires Mirrors(h, cap, st, es) && Links(h, Tip(es), e)
    requires Get(e, "seq") == Int(|es| + 1) && RereadFields(e) == e
    ensures Mirrors(h, cap, Replayed(cap, st, Some(Obj(e))), es + [e])
  {
    hide Links, RereadFields, Get, Push;
    LinkHash(h, Tip(es), e);
    MirrorsNext(h, cap, st, es, e, Replayed(cap, st, Some(Obj(e))));
  }

  lemma LinkHash(h: Digest, p: string, e: Entry)
    requires Links(h, p, e)
    ensures Get(e, "hash").Str? && Get(e, "hash") == Str(HashOf(e))
  {
  }

  lemma SuffixGrows(q: seq<Entry>, m: seq<Entry>, e: Entry)
    requires IsSuffix(q, m)
    ensures IsSuffix(q + [e], m + [e])
  {
  }

  lemma SuffixShrinks(q: seq<Entry>, m: seq<Entry>)
    requires IsSuffix(q, m) && q != []
    ensures IsSuffix(q[1..], m) && q[0] == m[|m| - |q|]
  {
  }

  lemma RereadTail(queue: seq<Entry>)
    requires queue != []
    ensures RereadAll(queue[1..]) == RereadAll(queue)[1..] && RereadAll(queue)[0] == RereadFields(queue[0])
  {
  }

  lemma Appended(disk: seq<Option<Json>>, e: Entry)
    requires Entered(disk)
    ensures Entered(disk + [Some(Obj(e))]) && OnDisk(disk + [Some(Obj(e))]) == OnDisk(disk) + [e]
  {
  }

  lemma StepRecord(h: Digest, cap: nat, s: System, memory: seq<Entry>, gap: bool, ts: string, input: Entry)
    requires Inv(h, cap, s, memory, gap) && ProperInput(input)
    ensures Inv(h, cap, Step(h, cap, s, Record(ts, input)),
                memory + [RereadFields(NewEntry(h, s.log, ts, input))], gap)
  {
    hide RereadFields, Links, Get, ChainHash, Base, Canon, Mirrors, OnDisk, IsSuffix;
    var e := NewEntry(h, s.log, ts, input);
    var s' := Step(h, cap, s, Record(ts, input));
    NewEntryLinks(h, s.log, ts, input);
    LinksReread(h, s.log.lastHash, e);
    GetOfReread(e, "seq");
    RereadInt(s.log.seqNo + 1);
    NextMirrors(h, cap, s.log, memory, e, s'.log);
    SuffixGrows(RereadAll(s.queue), memory, RereadFields(e));
    assert RereadAll(s'.queue) == RereadAll(s.queue) + [RereadFields(e)];
  }

  lemma NextMirrors(h: Digest, cap: nat, st: LogState, memory: seq<Entry>, e: Entry, st': LogState)
    requires Mirrors(h, cap, st, memory)
    requires Links(h, st.lastHash, RereadFields(e)) && Get(RereadFields(e), "seq") == Int(st.seqNo + 1)
    requires st' == LogState(Push(cap, st.ring, Obj(e)), HashOf(RereadFields(e)), st.seqNo + 1)
    ensures Mirrors(h, cap, st', memory + [RereadFields(e)])
  {
    hide *;
    MirrorsNext(h, cap, st, memory, e, st');
  }

  lemma RereadInt(n: int)
    ensures Reread(Int(n)) == Int(n)
  {
  }

  lemma StepAppend(h: Digest, cap: nat, s: System, memory: seq<Entry>)
    requires Inv(h, cap, s, memory, false)
    ensures Inv(h, cap, Step(h, cap, s, Append), memory, false)
  {
    hide RereadFields, Mirrors, OnDisk, RereadAll, IsSuffix;
    if s.queue != [] {
      RereadTail(s.queue);
      SuffixShrinks(RereadAll(s.queue), memory);
      Appended(s.disk, RereadFields(s.queue[0]));
    }
  }

  /** After a loss the file can only stay a chain by not growing. */
  lemma StepLost(h: Digest, cap: nat, s: System, memory: seq<Entry>, gap: bool)
    requires Inv(h, cap, s, memory, gap)
    ensures Inv(h, cap, Step(h, cap, s, Lost), memory, gap || s.queue != [])
  {
    hide RereadFields, Mirrors, OnDisk, RereadAll, IsSuffix;
    if s.queue != [] {
      RereadTail(s.queue);
      SuffixShrinks(RereadAll(s.queue), memory);
    }
  }

  lemma NumberedPrefix(es: seq<Entry>, k: nat)
    requires Numbered(es) && k <= |es|
    ensures Numbered(es[..k])
  {
    hide RereadFields, Get;
  }

  /** The file itself is a numbered chain, whatever is queued or lost. */
  lemma DiskIsChain(h: Digest, cap: nat, s: System, memory: seq<Entry>, gap: bool)
    requires Inv(h, cap, s, memory, gap)
    ensures IsChain(h, OnDisk(s.disk)) && Numbered(OnDisk(s.disk))
  {
    hide IsChain, Numbered, RingIs, Kept, OnDisk, RereadAll, IsSuffix;
    var d := OnDisk(s.disk);
    PrefixChain(h, memory, |d|);
    NumberedPrefix(memory, |d|);
    assert memory[..|d|] == d;
  }

  lemma StepRestart(h: Digest, cap: nat, s: System, memory: seq<Entry>, gap: bool)
    requires Inv(h, cap, s, memory, gap)
    ensures Inv(h, cap, Step(h, cap, s, Restart), OnDisk(s.disk), false)
  {
    hide Mirrors, OnDisk, IsChain, Numbered;
    DiskIsChain(h, cap, s, memory, gap);
    ReplayMirrors(h, cap, s.disk);
    assert RereadAll([]) == [];
  }

  /** The entries the process remembers: what it found at its start and what it recorded since. */
  ghost function Memory(h: Digest, cap: nat, evs: seq<Event>): seq<Entry> {
    if evs == [] then []
    else
      var n := |evs| - 1;
      var s := Run(h, cap, evs[..n]);
      match evs[n]
      case Record(ts, input) => Memory(h, cap, evs[..n]) + [RereadFields(NewEntry(h, s.log, ts, input))]
      case Restart => OnDisk(s.disk)
      case _ => Memory(h, cap, evs[..n])
  }

  /** An append was lost since the last restart. */
  ghost predicate Gapped(h: Digest, cap: nat, evs: seq<Event>) {
    evs != [] &&
    var n := |evs| - 1;
    if evs[n].Restart? then false
    else Gapped(h, cap, evs[..n]) || (evs[n].Lost? && Run(h, cap, evs[..n]).queue != [])
  }

  /** An append reached the file after one that was lost, without a restart between them. */
  ghost predicate Spoiled(h: Digest, cap: nat, evs: seq<Event>) {
    evs != [] &&
    var n := |evs| - 1;
    Spoiled(h, cap, evs[..n])
    || (evs[n].Append? && Gapped(h, cap, evs[..n]) && Run(h, cap, evs[..n]).queue != [])
  }

  lemma {:induction false} RunInv(h: Digest, cap: nat, evs: seq<Event>)
    requires ProperEvents(evs) && !Spoiled(h, cap, evs)
    ensures Inv(h, cap, Run(h, cap, evs), Memory(h, cap, evs), Gapped(h, cap, evs))
  {
    if evs == [] {
      assert RereadAll([]) == [];
    } else {
      hide Inv, Step, NewEntry;
      var n := |evs| - 1;
      var s, m, gap := Run(h, cap, evs[..n]), Memory(h, cap, evs[..n]), Gapped(h, cap, evs[..n]);
      RunInv(h, cap, evs[..n]);
      match evs[n]
      case Record(ts, input) => StepRecord(h, cap, s, m, gap, ts, input);
      case Append =>
        if gap {
          NothingToAppend(h, cap, s);
        } else {
          StepAppend(h, cap, s, m);
        }
      case Lost => StepLost(h, cap, s, m, gap);
      case Restart => StepRestart(h, cap, s, m, gap);
    }
  }

  lemma NothingToAppend(h: Digest, cap: nat, s: System)
    ensures s.queue == [] ==> Step(h, cap, s, Append) == s
  {
  }

  predicate NoLoss(evs: seq<Event>) {
    forall i :: 0 <= i < |evs| ==> !evs[i].Lost?
  }

  lemma {:induction false} NothingLost(h: Digest, cap: nat, evs: seq<Event>)
    requires NoLoss(evs)
    ensures !Gapped(h, cap, evs) && !Spoiled(h, cap, evs)
  {
    if evs != [] {
      NothingLost(h, cap, evs[..|evs| - 1]);
    }
  }

  lemma DiskAndQueue(h: Digest, cap: nat, s: System, memory: seq<Entry>)
    requires Inv(h, cap, s, memory, false)
    ensures OnDisk(s.disk) + RereadAll(s.queue) == memory
  {
    hide Mirrors, OnDisk, RereadAll;
    var d := OnDisk(s.disk);
    assert memory == memory[..|d|] + memory[|d|..];
  }

  /**
   * When no append fails, any interleaving of concurrent calls, appends and restarts leaves a
   * file without a malformed line that the verifier accepts, numbered one by one from 1, while
   * the ring holds exactly the last `cap` entries written or queued, or all of them when `cap`
   * is 0.
   */
  lemma FileAlwaysVerifies(h: Digest, cap: nat, evs: seq<Event>)
    requires ProperEvents(evs) && NoLoss(evs)
    ensures var s := Run(h, cap, evs);
            && Entered(s.disk)
            && Judges(h, OnDisk(s.disk), Ok)
            && (forall i :: 0 <= i < |s.disk| ==> Get(s.disk[i].value.fields, "seq") == Int(i + 1))
            && RingIs(s.log.ring, Kept(OnDisk(s.disk) + RereadAll(s.queue), cap))
  {
    hide Links, RereadFields, Get, Run, Kept, RingIs, Memory, Spoiled, Gapped, NoLoss;
    NothingLost(h, cap, evs);
    RunInv(h, cap, evs);
    DiskIsChain(h, cap, Run(h, cap, evs), Memory(h, cap, evs), false);
    DiskAndQueue(h, cap, Run(h, cap, evs), Memory(h, cap, evs));
  }

  // ----- Lost appends -----

  /** Every recorded value can be printed. */
  predicate ValidEvents(evs: seq<Event>) {
    forall i :: 0 <= i < |evs| && evs[i].Record? ==> Valid(Obj(evs[i].input))
  }

  lemma {:induction false} RereadValid(v: Json)
    requires Valid(v)
    ensures Valid(Reread(v))
  {
    match v
    case Arr(items) => RereadItemsValid(items);
    case Obj(fields) => RereadFieldsValid(fields);
    case _ =>
  }

  lemma {:induction false} RereadItemsValid(items: seq<Json>)
    requires forall i :: 0 <= i < |items| ==> Valid(items[i])
    ensures forall i :: 0 <= i < |RereadItems(items)| ==> Valid(RereadItems(items)[i])
  {
    if items != [] {
      RereadValid(items[0]);
      RereadItemsValid(items[1..]);
    }
  }

  lemma {:induction false} RereadKeys(fields: seq<Field>, key: string)
    requires forall i :: 0 <= i < |fields| ==> fields[i].key != key
    ensures forall j :: 0 <= j < |RereadFields(fields)| ==> RereadFields(fields)[j].key != key
  {
    if fields != [] {
      hide Reread;
      RereadKeys(fields[1..], key);
    }
  }

  lemma {:induction false} RereadFieldsValid(fields: seq<Field>)
    requires DistinctKeys(fields) && forall i :: 0 <= i < |fields| ==> Valid(fields[i].value)
    ensures var r := RereadFields(fields);
            DistinctKeys(r) && forall i :: 0 <= i < |r| ==> Valid(r[i].value)
  {
    if fields != [] {
      hide Valid, Reread, RereadFields;
      var f, rest := fields[0], fields[1..];
      assert fields == [f] + rest;
      RereadStep(f, rest);
      RereadValid(f.value);
      RereadFieldsValid(rest);
      RereadKeys(rest, f.key);
      MoreValid(Field(f.key, Reread(f.value)), RereadFields(rest));
      assert [] + RereadFields(rest) == RereadFields(rest);
    }
  }

  lemma MoreValid(f: Field, fields: seq<Field>)
    requires DistinctKeys(fields) && forall i :: 0 <= i < |fields| ==> Valid(fields[i].value)
    requires Valid(f.value) && forall i :: 0 <= i < |fields| ==> fields[i].key != f.key
    ensures DistinctKeys([f] + fields) && forall i :: 0 <= i < |[f] + fields| ==> Valid(([f] + fields)[i].value)
  {
    hide Valid;
  }

  lemma NewEntryValid(h: Digest, st: LogState, ts: string, input: Entry)
    requires ProperInput(input) && Valid(Obj(input))
    ensures Valid(Obj(RereadFields(NewEntry(h, st, ts, input))))
  {
    hide ChainHash, Reread, RereadFields;
    var e := NewEntry(h, st, ts, input);
    NewEntryLinks(h, st, ts, input);
    forall i | 0 <= i < |e| ensures Valid(e[i].value) {
      assert 3 <= i < |e| - 1 ==> e[i] == input[i - 3];
    }
    RereadFieldsValid(e);
  }

  lemma {:induction false} MemoryValid(h: Digest, cap: nat, evs: seq<Event>)
    requires ProperEvents(evs) && ValidEvents(evs) && !Spoiled(h, cap, evs)
    ensures Entries(Memory(h, cap, evs))
  {
    if evs != [] {
      hide Entries, Valid, NewEntry, RereadFields, Step, Run, Gapped, Inv;
      var n := |evs| - 1;
      MemoryValid(h, cap, evs[..n]);
      RunInv(h, cap, evs[..n]);
      match evs[n]
      case Record(ts, input) =>
        NewEntryValid(h, Run(h, cap, evs[..n]).log, ts, input);
        EntriesSnoc(Memory(h, cap, evs[..n]), RereadFields(NewEntry(h, Run(h, cap, evs[..n]).log, ts, input)));
      case Restart => DiskEntries(h, cap, evs[..n]);
      case _ =>
    } else {
      assert Memory(h, cap, evs) == [];
    }
  }

  lemma EntriesSnoc(es: seq<Entry>, e: Entry)
    requires Entries(es) && Valid(Obj(e))
    ensures Entries(es + [e])
  {
    hide Valid;
  }

  /** The file holds a prefix of what the process remembers. */
  lemma DiskEntries(h: Digest, cap: nat, evs: seq<Event>)
    requires Entries(Memory(h, cap, evs))
    requires Inv(h, cap, Run(h, cap, evs), Memory(h, cap, evs), Gapped(h, cap, evs))
    ensures Entered(Run(h, cap, evs).disk) && Entries(OnDisk(Run(h, cap, evs).disk))
  {
    hide Run, Memory, Gapped, Valid, OnDisk, Mirrors, IsChain, Numbered, RereadAll, IsSuffix;
    var d, m := OnDisk(Run(h, cap, evs).disk), Memory(h, cap, evs);
    assert forall i :: 0 <= i < |d| ==> d[i] == m[i];
  }

  /** The entry behind a gap does not link to the end of the file. */
  lemma StepSpoils(h: Digest, cap: nat, s: System, memory: seq<Entry>)
    requires Ideal(h) && Entries(memory) && Inv(h, cap, s, memory, true) && s.queue != []
    ensures !IsChain(h, OnDisk(Step(h, cap, s, Append).disk))
  {
    hide RereadFields, OnDisk, RereadAll, IsSuffix, Links, Ideal, Entries, IsChain, Numbered, Tip, Get;
    var d, q := OnDisk(s.disk), RereadAll(s.queue);
    RereadTail(s.queue);
    SuffixShrinks(q, memory);
    Appended(s.disk, RereadFields(s.queue[0]));
    var k := |memory| - |q|;
    assert memory[..|d|] == d;
    if IsChain(h, d + [memory[k]]) {
      LinkOfChain(h, memory, k);
      HashesDistinct(h, memory, |d|, k);
      ChainSnoc(h, d, memory[k]);
      PrevOf(h, Tip(d), memory[k]);
    }
  }

  lemma DiskGrows(h: Digest, cap: nat, s: System, ev: Event)
    ensures OnDisk(s.disk) <= OnDisk(Step(h, cap, s, ev).disk)
    ensures Entered(s.disk) ==> Entered(Step(h, cap, s, ev).disk)
  {
    hide RereadFields, Recorded, NewEntry, ReplayAll;
  }

  lemma BrokenPrefix(h: Digest, es: seq<Entry>, longer: seq<Entry>)
    requires es <= longer && !IsChain(h, es)
    ensures !IsChain(h, longer)
  {
    hide IsChain;
    assert longer[..|es|] == es;
    if IsChain(h, longer) {
      PrefixChain(h, longer, |es|);
    }
  }

  lemma {:induction false} SpoiledForever(h: Digest, cap: nat, evs: seq<Event>)
    requires Ideal(h) && ProperEvents(evs) && ValidEvents(evs)
    ensures Entered(Run(h, cap, evs).disk)
    ensures Spoiled(h, cap, evs) ==> !IsChain(h, OnDisk(Run(h, cap, evs).disk))
  {
    if evs == [] {
    } else {
      hide Step, OnDisk, IsChain, Inv, Memory, Ideal, Entries, Gapped, Spoiled, Entered, Valid;
      var n := |evs| - 1;
      SpoiledForever(h, cap, evs[..n]);
      DiskGrows(h, cap, Run(h, cap, evs[..n]), evs[n]);
      if Spoiled(h, cap, evs[..n]) {
        BrokenPrefix(h, OnDisk(Run(h, cap, evs[..n]).disk), OnDisk(Run(h, cap, evs).disk));
      } else if Spoiled(h, cap, evs) {
        FirstSpoil(h, cap, evs);
      }
    }
  }

  lemma FirstSpoil(h: Digest, cap: nat, evs: seq<Event>)
    requires Ideal(h) && ProperEvents(evs) && ValidEvents(evs)
    requires Spoiled(h, cap, evs) && !Spoiled(h, cap, evs[..|evs| - 1])
    requires Entered(Run(h, cap, evs).disk)
    ensures !IsChain(h, OnDisk(Run(h, cap, evs).disk))
  {
    hide Step, OnDisk, IsChain, Inv, Memory, Ideal, Entries, Gapped, Entered, Valid;
    var before := evs[..|evs| - 1];
    RunInv(h, cap, before);
    MemoryValid(h, cap, before);
    StepSpoils(h, cap, Run(h, cap, before), Memory(h, cap, before));
  }

  /**
   * When appends can fail, the file is accepted exactly as long as no append has reached it
   * after a lost one without a restart between them; until then it is numbered from 1 and the
   * ring holds what it keeps of the remembered entries. A spoiled file is never accepted again.
   */
  lemma FileAcceptedExactly(h: Digest, cap: nat, evs: seq<Event>)
    requires Ideal(h) && ProperEvents(evs) && ValidEvents(evs)
    ensures var s := Run(h, cap, evs);
            && Entered(s.disk)
            && (Judges(h, OnDisk(s.disk), Ok) <==> !Spoiled(h, cap, evs))
            && (!Spoiled(h, cap, evs) ==>
                  && (forall i :: 0 <= i < |s.disk| ==> Get(s.disk[i].value.fields, "seq") == Int(i + 1))
                  && RingIs(s.log.ring, Kept(Memory(h, cap, evs), cap)))
  {
    hide Links, RereadFields, Get, Run, Kept, RingIs, Memory, Spoiled, Gapped, Ideal;
    SpoiledForever(h, cap, evs);
    if !Spoiled(h, cap, evs) {
      RunInv(h, cap, evs);
      DiskIsChain(h, cap, Run(h, cap, evs), Memory(h, cap, evs), Gapped(h, cap, evs));
    }
  }

  function Parsed(lines: seq<Option<Json>>): seq<Json> {
    if lines == [] then []
    else Parsed(lines[..|lines| - 1]) + (if Counts(lines[|lines| - 1]) then [lines[|lines| - 1].value] else [])
  }

  /** With a capacity of zero nothing is ever shifted out, whatever the file holds. */
  lemma {:induction false} ZeroCapKeepsAll(st: LogState, lines: seq<Option<Json>>)
    ensures ReplayFrom(0, st, lines).ring == st.ring + Parsed(lines)
  {
    if lines == [] {
      assert st.ring + [] == st.ring;
    } else {
      ZeroCapKeepsAll(st, lines[..|lines| - 1]);
    }
  }

  /** Nor in any run: the ring grows with the log. */
  lemma ZeroCapNeverShifts(h: Digest, evs: seq<Event>)
    requires ProperEvents(evs) && !Spoiled(h, 0, evs)
    ensures |Run(h, 0, evs).log.ring| == |Memory(h, 0, evs)| == Run(h, 0, evs).log.seqNo
    ensures NoLoss(evs) ==> |Run(h, 0, evs).log.ring| == |Run(h, 0, evs).disk| + |Run(h, 0, evs).queue|
  {
    hide Run, Memory;
    RunInv(h, 0, evs);
    if NoLoss(evs) {
      NothingLost(h, 0, evs);
    }
  }
}
