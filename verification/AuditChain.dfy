/**
 * The hash chain of the audit log and its offline verifier (audit/log.ts). The digest
 * is a parameter: an injective function that never yields the genesis value.
 */
module AuditChain {
  import opened CanonicalJson
  import opened JsonReader

  const GENESIS_HASH: string := "0000000000000000000000000000000000000000000000000000000000000000"

  type Digest = string -> string

  ghost predicate Ideal(h: Digest) {
    (forall a, b :: h(a) == h(b) ==> a == b) && forall a :: h(a) != GENESIS_HASH
  }

  /** The own properties of an entry object. */
  type Entry = seq<Field>

  /** Property access: undefined when no field has the key. */
  function Get(e: Entry, key: string): Json {
    if e == [] then Undefined else if e[0].key == key then e[0].value else Get(e[1..], key)
  }

  /** The entry without a field. */
  function Without(e: Entry, key: string): Entry {
    if e == [] then [] else (if e[0].key == key then [] else [e[0]]) + Without(e[1..], key)
  }

  function ChainHash(h: Digest, fields: Entry): string {
    h(Canon(Obj(fields)))
  }

  /** The entry continues a chain whose last hash is `prev`. */
  predicate Links(h: Digest, prev: string, e: Entry) {
    Get(e, "prevHash") == Str(prev) && Get(e, "hash") == Str(ChainHash(h, Without(e, "hash")))
  }

  function HashOf(e: Entry): string {
    var v := Get(e, "hash");
    if v.Str? then v.s else ""
  }

  function Tip(entries: seq<Entry>): string {
    if entries == [] then GENESIS_HASH else HashOf(entries[|entries| - 1])
  }

  predicate IsChain(h: Digest, entries: seq<Entry>) {
    forall i :: 0 <= i < |entries| ==> Links(h, Tip(entries[..i]), entries[i])
  }

  datatype Reason = PrevMismatch | HashMismatch

  datatype Verdict = Ok | Broken(at: nat, reason: Reason)

  /** The verdict names the first entry that does not continue the chain before it. */
  predicate Judges(h: Digest, entries: seq<Entry>, v: Verdict) {
    match v
    case Ok => IsChain(h, entries)
    case Broken(at, reason) =>
      && at < |entries| && IsChain(h, entries[..at]) && !Links(h, Tip(entries[..at]), entries[at])
      && (reason == PrevMismatch <==> Get(entries[at], "prevHash") != Str(Tip(entries[..at])))
  }

  method VerifyChain(h: Digest, entries: seq<Entry>) returns (v: Verdict)
    ensures Judges(h, entries, v)
    ensures v == Ok <==> IsChain(h, entries)
  {
    hide Links, Get, ChainHash, IsChain, HashOf, Without;
    var prev := GENESIS_HASH;
    NoEntries(h, entries);
    for i := 0 to |entries|
      invariant prev == Tip(entries[..i]) && IsChain(h, entries[..i])
    {
      var e := entries[i];
      LinksExactly(h, prev, e);
      if !Links(h, prev, e) {
        BrokenLink(h, entries, i);
      }
      if Get(e, "prevHash") != Str(prev) {
        return Broken(i, PrevMismatch);
      }
      var expectedHash := ChainHash(h, Without(e, "hash"));
      if Get(e, "hash") != Str(expectedHash) {
        return Broken(i, HashMismatch);
      }
      prev := HashOf(e);
      ChainSnoc(h, entries[..i], e);
      assert entries[..i + 1] == entries[..i] + [e];
    }
    assert entries[..|entries|] == entries;
    return Ok;
  }

  lemma BrokenLink(h: Digest, entries: seq<Entry>, i: nat)
    requires i < |entries| && !Links(h, Tip(entries[..i]), entries[i])
    ensures !IsChain(h, entries)
  {
    hide Links, Tip;
  }

  lemma NoEntries(h: Digest, entries: seq<Entry>)
    ensures IsChain(h, entries[..0]) && Tip(entries[..0]) == GENESIS_HASH
  {
  }

  lemma LinksExactly(h: Digest, prev: string, e: Entry)
    ensures Links(h, prev, e) <==>
            Get(e, "prevHash") == Str(prev) && Get(e, "hash") == Str(ChainHash(h, Without(e, "hash")))
  {
  }

  lemma ChainSnoc(h: Digest, entries: seq<Entry>, e: Entry)
    ensures IsChain(h, entries + [e]) <==> IsChain(h, entries) && Links(h, Tip(entries), e)
  {
    hide Links, Tip;
    var all := entries + [e];
    assert all[..|entries|] == entries && all[|entries|] == e;
    forall i | 0 <= i < |entries| ensures all[..i] == entries[..i] && all[i] == entries[i] {
    }
    if IsChain(h, all) {
      assert Links(h, Tip(all[..|entries|]), all[|entries|]);
      forall i | 0 <= i < |entries| ensures Links(h, Tip(entries[..i]), entries[i]) {
        assert Links(h, Tip(all[..i]), all[i]);
      }
    }
  }

  // ----- Tamper evidence -----

  lemma {:induction false} WithoutKeeps(e: Entry, key: string, other: string)
    requires key != other
    ensures Get(Without(e, key), other) == Get(e, other)
  {
    if e != [] {
      WithoutKeeps(e[1..], key, other);
      var rest := Without(e[1..], key);
      assert [] + rest == rest && ([e[0]] + rest)[1..] == rest;
    }
  }

  lemma {:induction false} GetFromField(e: Entry, i: nat)
    requires i < |e| && DistinctKeys(e)
    ensures Get(e, e[i].key) == e[i].value
  {
    if i > 0 {
      GetFromField(e[1..], i - 1);
    }
  }

  lemma {:induction false} GetIsField(e: Entry, key: string)
    ensures Get(e, key).Undefined? || exists i :: 0 <= i < |e| && e[i].key == key && e[i].value == Get(e, key)
  {
    if e != [] && e[0].key != key {
      GetIsField(e[1..], key);
      if !Get(e, key).Undefined? {
        var i :| 0 <= i < |e| - 1 && e[1..][i].key == key && e[1..][i].value == Get(e[1..], key);
        assert e[i + 1] == e[1..][i];
      }
    }
  }

  /** Equivalent entries agree on every text field. */
  lemma EquivText(a: Entry, b: Entry, key: string, s: string)
    requires DistinctKeys(a) && DistinctKeys(b) && Equiv(Obj(a), Obj(b)) && Get(a, key) == Str(s)
    ensures Get(b, key) == Str(s)
  {
    GetIsField(a, key);
    var i :| 0 <= i < |a| && a[i].key == key && a[i].value == Str(s);
    assert Has(b, a[i].key);
    var j :| 0 <= j < |b| && b[j].key == key && !b[j].value.Undefined?;
    assert Equiv(a[i].value, b[j].value);
    GetFromField(b, j);
  }

  /** Entries as they come from JSON text: distinct keys, numbers as printed. */
  ghost predicate Entries(entries: seq<Entry>) {
    forall i :: 0 <= i < |entries| ==> Valid(Obj(entries[i]))
  }

  lemma {:induction false} WithoutValid(e: Entry, key: string)
    requires Valid(Obj(e))
    ensures Valid(Obj(Without(e, key)))
    ensures forall i :: 0 <= i < |Without(e, key)| ==>
      exists j :: 0 <= j < |e| && Without(e, key)[i] == e[j]
  {
    if e != [] {
      assert Valid(Obj(e[1..])) by {
        assert forall i :: 0 <= i < |e| - 1 ==> e[1..][i] == e[i + 1];
      }
      WithoutValid(e[1..], key);
      var r := Without(e[1..], key);
      forall i | 0 <= i < |r| ensures exists j :: 0 < j < |e| && r[i] == e[j] {
        var j :| 0 <= j < |e| - 1 && r[i] == e[1..][j];
        assert e[j + 1] == r[i];
      }
    }
  }

  /** The same hash, and the same content up to key order and missing fields. */
  ghost predicate SameEntry(a: Entry, b: Entry) {
    HashOf(a) == HashOf(b) && Equiv(Obj(Without(a, "hash")), Obj(Without(b, "hash")))
  }

  /** With one hash, two linking entries are the same up to key order and missing fields. */
  lemma SameHashSameEntry(h: Digest, p: string, a: Entry, q: string, b: Entry)
    requires Ideal(h) && Valid(Obj(a)) && Valid(Obj(b))
    requires Links(h, p, a) && Links(h, q, b) && HashOf(a) == HashOf(b)
    ensures SameEntry(a, b) && p == q
  {
    hide Canon, Valid, Equiv;
    var wa, wb := Without(a, "hash"), Without(b, "hash");
    WithoutValid(a, "hash");
    WithoutValid(b, "hash");
    CanonExact(Obj(wa), Obj(wb));
    WithoutKeeps(a, "hash", "prevHash");
    WithoutKeeps(b, "hash", "prevHash");
    ValidKeys(wa);
    ValidKeys(wb);
    EquivText(wa, wb, "prevHash", p);
  }

  lemma ValidKeys(e: Entry)
    requires Valid(Obj(e))
    ensures DistinctKeys(e)
  {
  }

  /**
   * Tamper evidence: two chains accepted by the verifier with the same tip have the same
   * length and, position by position, the same entry up to key order and missing fields.
   */
  lemma {:induction false} SameTipSameChain(h: Digest, a: seq<Entry>, b: seq<Entry>)
    requires Ideal(h) && Entries(a) && Entries(b) && IsChain(h, a) && IsChain(h, b) && Tip(a) == Tip(b)
    ensures |a| == |b|
    ensures forall i :: 0 <= i < |a| ==> SameEntry(a[i], b[i])
  {
    hide SameEntry, Valid, Links, IsChain;
    if a != [] {
      TipIsDigest(h, a);
    }
    if b != [] {
      TipIsDigest(h, b);
    }
    if a != [] && b != [] {
      var m, n := |a| - 1, |b| - 1;
      assert a == a[..m] + [a[m]] && b == b[..n] + [b[n]];
      ChainSnoc(h, a[..m], a[m]);
      ChainSnoc(h, b[..n], b[n]);
      SameHashSameEntry(h, Tip(a[..m]), a[m], Tip(b[..n]), b[n]);
      SameTipSameChain(h, a[..m], b[..n]);
      assert forall i :: 0 <= i < m ==> a[..m][i] == a[i] && b[..m][i] == b[i];
    }
  }

  lemma TipIsDigest(h: Digest, a: seq<Entry>)
    requires Ideal(h) && IsChain(h, a) && a != []
    ensures Tip(a) != GENESIS_HASH
  {
    assert Links(h, Tip(a[..|a| - 1]), a[|a| - 1]);
  }

  /** No hash occurs twice in a chain. */
  lemma {:induction false} HashesDistinct(h: Digest, a: seq<Entry>, i: nat, j: nat)
    requires Ideal(h) && Entries(a) && IsChain(h, a) && i < j <= |a|
    ensures Tip(a[..i]) != Tip(a[..j])
  {
    if Tip(a[..i]) == Tip(a[..j]) {
      PrefixChain(h, a, i);
      PrefixChain(h, a, j);
      SameTipSameChain(h, a[..i], a[..j]);
      assert false;
    }
  }

  lemma PrefixChain(h: Digest, a: seq<Entry>, i: nat)
    requires IsChain(h, a) && i <= |a|
    ensures IsChain(h, a[..i])
  {
    hide Links, Tip;
    forall k | 0 <= k < i ensures Links(h, Tip(a[..i][..k]), a[..i][k]) {
      assert a[..i][..k] == a[..k] && Links(h, Tip(a[..k]), a[k]);
    }
  }

  /** The entries at the given places. */
  function Picked(a: seq<Entry>, places: seq<nat>): (b: seq<Entry>)
    requires forall i :: 0 <= i < |places| ==> places[i] < |a|
    ensures |b| == |places| && forall i :: 0 <= i < |b| ==> b[i] == a[places[i]]
  {
    seq(|places|, i requires 0 <= i < |places| => a[places[i]])
  }

  lemma LinkOfChain(h: Digest, a: seq<Entry>, i: nat)
    requires IsChain(h, a) && i < |a|
    ensures Links(h, Tip(a[..i]), a[i]) && Get(a[i], "prevHash") == Str(Tip(a[..i]))
  {
    LinksExactly(h, Tip(a[..i]), a[i]);
  }

  lemma {:induction false} PickedPrefix(h: Digest, a: seq<Entry>, places: seq<nat>, k: nat)
    requires Ideal(h) && Entries(a) && IsChain(h, a) && k <= |places|
    requires forall i :: 0 <= i < |places| ==> places[i] < |a|
    requires forall i, j :: 0 <= i < j < |places| ==> places[i] < places[j]
    requires IsChain(h, Picked(a, places))
    ensures forall i :: 0 <= i < k ==> places[i] == i
  {
    hide *;
    if k > 0 {
      PickedPrefix(h, a, places, k - 1);
      PickedNext(h, a, places, Picked(a, places), k - 1);
    }
  }

  lemma PickedNext(h: Digest, a: seq<Entry>, places: seq<nat>, b: seq<Entry>, m: nat)
    requires Ideal(h) && Entries(a) && IsChain(h, a) && IsChain(h, b)
    requires |b| == |places| && forall i :: 0 <= i < |b| ==> places[i] < |a| && b[i] == a[places[i]]
    requires forall i, j :: 0 <= i < j < |places| ==> places[i] < places[j]
    requires m < |places| && forall i :: 0 <= i < m ==> places[i] == i
    ensures places[m] == m
  {
    hide *;
    PlacesRise(places, m);
    SamePrefix(a, b, places, m);
    SamePlace(h, a, b, places[m], m);
  }

  /** After a common prefix two chains can share an entry only at one place. */
  lemma SamePlace(h: Digest, a: seq<Entry>, b: seq<Entry>, i: nat, m: nat)
    requires Ideal(h) && Entries(a) && IsChain(h, a) && IsChain(h, b)
    requires m < |b| && m <= i < |a| && b[m] == a[i] && b[..m] == a[..m]
    ensures i == m
  {
    hide Links, Get, IsChain, Ideal, Entries, Tip;
    LinkOfChain(h, b, m);
    LinkOfChain(h, a, i);
    if i > m {
      HashesDistinct(h, a, m, i);
    }
  }

  lemma PlacesRise(places: seq<nat>, m: nat)
    requires m < |places| && forall i, j :: 0 <= i < j < |places| ==> places[i] < places[j]
    requires forall i :: 0 <= i < m ==> places[i] == i
    ensures m <= places[m]
  {
    assert m > 0 ==> places[m - 1] < places[m];
  }

  lemma SamePrefix(a: seq<Entry>, b: seq<Entry>, places: seq<nat>, m: nat)
    requires |b| == |places| && m <= |a| && m <= |b|
    requires forall i :: 0 <= i < |b| ==> places[i] < |a| && b[i] == a[places[i]]
    requires forall i :: 0 <= i < m ==> places[i] == i
    ensures b[..m] == a[..m]
  {
  }

  /**
   * Removing entries from a chain, anywhere and any number of them, leaves an accepted chain
   * exactly when only entries at the end are gone.
   */
  lemma OnlyEndsCanGo(h: Digest, a: seq<Entry>, places: seq<nat>)
    requires Ideal(h) && Entries(a) && IsChain(h, a)
    requires forall i :: 0 <= i < |places| ==> places[i] < |a|
    requires forall i, j :: 0 <= i < j < |places| ==> places[i] < places[j]
    ensures IsChain(h, Picked(a, places)) <==> forall i :: 0 <= i < |places| ==> places[i] == i
  {
    hide Links, IsChain, Ideal, Entries;
    if IsChain(h, Picked(a, places)) {
      PickedPrefix(h, a, places, |places|);
    }
    if forall i :: 0 <= i < |places| ==> places[i] == i {
      assert |places| > 0 ==> places[|places| - 1] == |places| - 1;
      SamePrefix(a, Picked(a, places), places, |places|);
      assert Picked(a, places)[..|places|] == Picked(a, places);
      PrefixChain(h, a, |places|);
    }
  }

  /**
   * A lost line is found at once: without entry `i` the verifier stops exactly at the
   * entry that followed it. Only a loss at the very end goes unnoticed.
   */
  lemma LostEntryDetected(h: Digest, a: seq<Entry>, i: nat, v: Verdict)
    requires Ideal(h) && Entries(a) && IsChain(h, a) && i < |a|
    requires Judges(h, a[..i] + a[i + 1..], v)
    ensures v == if i == |a| - 1 then Ok else Broken(i, PrevMismatch)
  {
    hide Links;
    var rest := a[..i] + a[i + 1..];
    PrefixChain(h, a, i);
    assert rest[..i] == a[..i];
    if i == |a| - 1 {
      assert rest == a[..i];
      VerdictUnique(h, rest, v, Ok);
    } else {
      HashesDistinct(h, a, i, i + 1);
      assert rest[i] == a[i + 1];
      assert Links(h, Tip(a[..i + 1]), a[i + 1]);
      PrevOf(h, Tip(a[..i + 1]), a[i + 1]);
      PrevNot(h, Tip(a[..i]), a[i + 1]);
      VerdictUnique(h, rest, v, Broken(i, PrevMismatch));
    }
  }

  /**
   * An edit that leaves both hashes as they were is found at the entry itself, unless what
   * it changes is not printed: the order of keys, or fields without a value.
   */
  lemma EditDetected(h: Digest, a: seq<Entry>, i: nat, e: Entry, v: Verdict)
    requires Ideal(h) && Entries(a) && IsChain(h, a) && i < |a| && Valid(Obj(e))
    requires Get(e, "prevHash") == Get(a[i], "prevHash") && Get(e, "hash") == Get(a[i], "hash")
    requires Judges(h, a[i := e], v)
    ensures v == if Equiv(Obj(Without(e, "hash")), Obj(Without(a[i], "hash"))) then Ok else Broken(i, HashMismatch)
  {
    hide Links, Get, Ideal, Equiv, Canon, Valid, Tip;
    var b := a[i := e];
    PrefixChain(h, a, i);
    assert b[..i] == a[..i];
    LinkOfChain(h, a, i);
    EditedLink(h, Tip(a[..i]), a[i], e);
    if Links(h, Tip(a[..i]), e) {
      forall k | 0 <= k < |b| ensures Links(h, Tip(b[..k]), b[k]) {
        SameTips(a, b, i, k);
        assert k != i ==> b[k] == a[k];
        assert Links(h, Tip(a[..k]), a[k]);
      }
      VerdictUnique(h, b, v, Ok);
    } else {
      VerdictUnique(h, b, v, Broken(i, HashMismatch));
    }
  }

  lemma EditedLink(h: Digest, p: string, was: Entry, e: Entry)
    requires Ideal(h) && Valid(Obj(was)) && Valid(Obj(e)) && Links(h, p, was)
    requires Get(e, "prevHash") == Get(was, "prevHash") && Get(e, "hash") == Get(was, "hash")
    ensures Links(h, p, e) <==> Equiv(Obj(Without(e, "hash")), Obj(Without(was, "hash")))
  {
    hide Get, Without, Equiv, Canon, Valid;
    WithoutValid(was, "hash");
    WithoutValid(e, "hash");
    CanonExact(Obj(Without(e, "hash")), Obj(Without(was, "hash")));
  }

  lemma SameTips(a: seq<Entry>, b: seq<Entry>, i: nat, k: nat)
    requires i < |a| == |b| && k <= |a| && Get(b[i], "hash") == Get(a[i], "hash")
    requires forall j :: 0 <= j < |a| && j != i ==> b[j] == a[j]
    ensures Tip(b[..k]) == Tip(a[..k])
  {
    hide Get;
    assert k > 0 ==> a[..k][k - 1] == a[k - 1] && b[..k][k - 1] == b[k - 1];
  }

  lemma PrevOf(h: Digest, p: string, e: Entry)
    requires Links(h, p, e)
    ensures Get(e, "prevHash") == Str(p)
  {
  }

  lemma PrevNot(h: Digest, p: string, e: Entry)
    requires Get(e, "prevHash") != Str(p)
    ensures !Links(h, p, e)
  {
  }

  /** There is one verdict for every list. */
  lemma VerdictUnique(h: Digest, a: seq<Entry>, v: Verdict, w: Verdict)
    requires Judges(h, a, v) && Judges(h, a, w)
    ensures v == w
  {
    hide Links, Tip;
    if v.Broken? && w.Broken? {
      if v.at < w.at {
        ChainBefore(h, a, w.at, v.at);
      } else if w.at < v.at {
        ChainBefore(h, a, v.at, w.at);
      }
    }
  }

  lemma ChainBefore(h: Digest, a: seq<Entry>, n: nat, i: nat)
    requires i < n <= |a| && IsChain(h, a[..n])
    ensures Links(h, Tip(a[..i]), a[i])
  {
    hide Links, Tip;
    assert a[..n][..i] == a[..i] && Links(h, Tip(a[..n][..i]), a[..n][i]);
  }
}
