/** Submitted events. A form snapshot (the `FormData` entries, in document
    order) is flattened into a record the way the submit handler builds its
    object: each file value becomes its file name, and a key met again
    overwrites the earlier value in place. A record keeps the order in which
    its keys first appeared, as JavaScript objects do for string keys. The
    store is the list of records kept under one storage key. */
module Records {
  import opened Common

  datatype FieldValue = Text(text: string) | File(name: string)

  /** One `FormData` entry. */
  datatype Field = Field(key: string, value: FieldValue)

  type Snapshot = seq<Field>

  datatype Pair = Pair(key: string, value: string)

  /** A stored event: its keys in first-appearance order with their values. */
  type Record = seq<Pair>

  /** `v instanceof File ? v.name : v`. */
  function Flatten(v: FieldValue): string
  {
    match v
    case Text(s) => s
    case File(n) => n
  }

  function Keys(r: Record): set<string>
  {
    set i | 0 <= i < |r| :: r[i].key
  }

  function SnapshotKeys(s: Snapshot): set<string>
  {
    set i | 0 <= i < |s| :: s[i].key
  }

  predicate UniqueKeys(r: Record)
  {
    forall i, j :: 0 <= i < j < |r| ==> r[i].key != r[j].key
  }

  predicate DistinctKeys(s: Snapshot)
  {
    forall i, j :: 0 <= i < j < |s| ==> s[i].key != s[j].key
  }

  /** The value stored under `k`, if any. */
  function Lookup(r: Record, k: string): (v: Option<string>)
    ensures v.Some? <==> k in Keys(r)
  {
    if r == [] then None
    else if r[0].key == k then Some(r[0].value)
    else Lookup(r[1..], k)
  }

  lemma KeysCons(p: Pair, rest: Record)
    ensures Keys([p] + rest) == {p.key} + Keys(rest)
  {
    var r := [p] + rest;
    forall k | k in Keys(rest) ensures k in Keys(r) {
      var i :| 0 <= i < |rest| && rest[i].key == k;
      assert r[i + 1].key == k;
    }
    assert r[0].key == p.key;
  }

  /** `obj[k] = v`: overwrite in place when the key is present, append otherwise. */
  function Put(r: Record, k: string, v: string): (r': Record)
    ensures Keys(r') == Keys(r) + {k}
    ensures k !in Keys(r) ==> r' == r + [Pair(k, v)]
    ensures k in Keys(r) ==> |r'| == |r|
  {
    if r == [] then
      KeysCons(Pair(k, v), []);
      [Pair(k, v)]
    else if r[0].key == k then
      KeysCons(r[0], r[1..]);
      KeysCons(Pair(k, v), r[1..]);
      assert [r[0]] + r[1..] == r;
      [Pair(k, v)] + r[1..]
    else
      var rest := Put(r[1..], k, v);
      KeysCons(r[0], r[1..]);
      assert [r[0]] + r[1..] == r;
      KeysCons(r[0], rest);
      [r[0]] + rest
  }

  /** After `obj[k] = v`, reading `k` gives `v` and every other key reads as before. */
  lemma {:induction false} PutLookup(r: Record, k: string, v: string, k': string)
    ensures Lookup(Put(r, k, v), k') == if k' == k then Some(v) else Lookup(r, k')
    decreases |r|
  {
    if r != [] && r[0].key != k {
      PutLookup(r[1..], k, v, k');
    }
  }

  /** Overwriting keeps keys unique and every key in its position. */
  lemma {:induction false} PutUnique(r: Record, k: string, v: string)
    requires UniqueKeys(r)
    ensures UniqueKeys(Put(r, k, v))
    ensures forall i :: 0 <= i < |r| ==> Put(r, k, v)[i].key == r[i].key
    decreases |r|
  {
    if r != [] && r[0].key != k {
      PutUnique(r[1..], k, v);
      var rest := Put(r[1..], k, v);
      KeysCons(r[0], r[1..]);
      assert [r[0]] + r[1..] == r;
      assert r[0].key !in Keys(r[1..]);
      assert Put(r, k, v) == [r[0]] + rest;
    }
  }

  /** The record the submit handler builds from a snapshot. */
  function Normalize(s: Snapshot): (r: Record)
    ensures UniqueKeys(r)
    ensures Keys(r) == SnapshotKeys(s)
  {
    if s == [] then []
    else
      var init := s[..|s| - 1];
      assert SnapshotKeys(s) == SnapshotKeys(init) + {s[|s| - 1].key};
      PutUnique(Normalize(init), s[|s| - 1].key, Flatten(s[|s| - 1].value));
      Put(Normalize(init), s[|s| - 1].key, Flatten(s[|s| - 1].value))
  }

  /** With distinct keys, normalization keeps every entry in place and changes
      only file values, into their names. */
  lemma {:induction false} NormalizeDistinct(s: Snapshot)
    requires DistinctKeys(s)
    ensures |Normalize(s)| == |s|
    ensures forall i :: 0 <= i < |s| ==> Normalize(s)[i] == Pair(s[i].key, Flatten(s[i].value))
    decreases |s|
  {
    if s != [] {
      var init := s[..|s| - 1];
      NormalizeDistinct(init);
      assert s[|s| - 1].key !in SnapshotKeys(init);
    }
  }

  /** A key repeated later in the snapshot (a cloned funding row, say) keeps the
      value of its last occurrence. */
  lemma {:induction false} NormalizeLastWins(s: Snapshot, i: nat)
    requires i < |s|
    requires forall j :: i < j < |s| ==> s[j].key != s[i].key
    ensures Lookup(Normalize(s), s[i].key) == Some(Flatten(s[i].value))
    decreases |s|
  {
    var init := s[..|s| - 1];
    var last := s[|s| - 1];
    PutLookup(Normalize(init), last.key, Flatten(last.value), s[i].key);
    if i < |s| - 1 {
      NormalizeLastWins(init, i);
    }
  }

  /** What is under the storage key: nothing, an empty string (both read as the
      empty list), a parsable list of records, or a payload that does not parse. */
  datatype Slot = Absent | EmptyText | Stored(records: seq<Record>) | Unparsable

  /** `JSON.parse(localStorage.getItem("events") || "[]")`, which throws on a
      payload that does not parse. */
  function Load(slot: Slot): (r: Result<seq<Record>>)
    ensures r.Err? <==> slot.Unparsable?
    ensures r.Err? ==> r.error == MalformedPayload
    ensures slot.Stored? ==> r == Ok(slot.records)
    ensures slot.Absent? || slot.EmptyText? ==> r == Ok([])
  {
    match slot
    case Absent => Ok([])
    case EmptyText => Ok([])
    case Stored(records) => Ok(records)
    case Unparsable => Err(MalformedPayload)
  }

  /** `Array.prototype.splice(index, 1)`: a negative index counts from the end,
      and an index past the end removes nothing. */
  function Splice<T>(s: seq<T>, index: int): (r: seq<T>)
    ensures 0 <= index < |s| ==> r == s[..index] + s[index + 1..]
    ensures -|s| <= index < 0 ==> r == s[..|s| + index] + s[|s| + index + 1..]
    ensures index >= |s| ==> r == s
    ensures index < -|s| && s != [] ==> r == s[1..]
  {
    var start := if index < 0 then (if |s| + index < 0 then 0 else |s| + index)
                 else (if index > |s| then |s| else index);
    if start < |s| then s[..start] + s[start + 1..] else s
  }

  /** Removing index `i` keeps every other element once, in order. */
  lemma SpliceKeepsOthers<T>(s: seq<T>, i: nat)
    requires i < |s|
    ensures |Splice(s, i)| == |s| - 1
    ensures forall j :: 0 <= j < i ==> Splice(s, i)[j] == s[j]
    ensures forall j :: i <= j < |s| - 1 ==> Splice(s, i)[j] == s[j + 1]
    ensures multiset(Splice(s, i)) + multiset{s[i]} == multiset(s)
  {
    assert s == s[..i] + [s[i]] + s[i + 1..];
  }

  /** The store after a submit: the current list with the new record at the end.
      The write happens only when the current payload parses. */
  function Append(slot: Slot, s: Snapshot): (r: Result<Slot>)
    ensures r.Err? <==> slot.Unparsable?
    ensures r.Ok? ==> r.value.Stored?
  {
    var records :- Load(slot);
    Ok(Stored(records + [Normalize(s)]))
  }

  /** `deleteEvent(index)`. */
  function Delete(slot: Slot, index: int): (r: Result<Slot>)
    ensures r.Err? <==> slot.Unparsable?
    ensures r.Ok? ==> r.value.Stored?
  {
    var records :- Load(slot);
    Ok(Stored(Splice(records, index)))
  }

  /** Loading after a submit gives the earlier list with the normalized snapshot
      last. */
  lemma AppendThenLoad(slot: Slot, s: Snapshot)
    requires !slot.Unparsable?
    ensures Load(Append(slot, s).value).Ok?
    ensures var after := Load(Append(slot, s).value).value;
      && after == Load(slot).value + [Normalize(s)]
      && after[|after| - 1] == Normalize(s)
  {
  }

  /** Loading after a delete at a listed position gives the earlier list with
      exactly that record removed and the others in their order. */
  lemma DeleteThenLoad(slot: Slot, i: nat)
    requires !slot.Unparsable? && i < |Load(slot).value|
    ensures var before := Load(slot).value;
      var after := Load(Delete(slot, i).value).value;
      && |after| == |before| - 1
      && (forall j :: 0 <= j < i ==> after[j] == before[j])
      && (forall j :: i <= j < |after| ==> after[j] == before[j + 1])
      && multiset(after) + multiset{before[i]} == multiset(before)
  {
    SpliceKeepsOthers(Load(slot).value, i);
  }

  /** Scenario: submitting one event into an empty store and deleting it again. */
  lemma SubmitThenDelete()
    ensures var s := [Field("title", Text("Launch")), Field("startDate", Text("2024-01-01")),
                      Field("endDate", Text("2024-01-02")), Field("coordinator", Text("Bob")),
                      Field("brochure", File("plan.pdf"))];
      && Append(Absent, s) == Ok(Stored([[Pair("title", "Launch"), Pair("startDate", "2024-01-01"),
                                          Pair("endDate", "2024-01-02"), Pair("coordinator", "Bob"),
                                          Pair("brochure", "plan.pdf")]]))
      && Delete(Append(Absent, s).value, 0) == Ok(Stored([]))
  {
    var s := [Field("title", Text("Launch")), Field("startDate", Text("2024-01-01")),
              Field("endDate", Text("2024-01-02")), Field("coordinator", Text("Bob")),
              Field("brochure", File("plan.pdf"))];
    assert DistinctKeys(s);
    NormalizeDistinct(s);
    assert Normalize(s) == [Pair("title", "Launch"), Pair("startDate", "2024-01-01"),
                            Pair("endDate", "2024-01-02"), Pair("coordinator", "Bob"),
                            Pair("brochure", "plan.pdf")];
    assert Load(Absent).value + [Normalize(s)] == [Normalize(s)];
    assert Splice([Normalize(s)], 0) == [];
  }
}
