/** The report of `analyze_user_policies`: records grouped by
    (policy name, compartment name) as a `defaultdict(list)` does it. */
module Grouping {
  import opened Text
  import opened Filter

  /** The grouping key. */
  datatype Key = Key(policyName: String, compartmentName: String)

  /** One group of the report: its key and its statements in order. */
  datatype Entry = Entry(key: Key, statements: seq<String>)

  function KeyOf(r: Record): Key {
    Key(r.policyName, r.compartmentName)
  }

  /** The keys of the entries, in order. */
  function Keys(entries: seq<Entry>): seq<Key> {
    seq(|entries|, i requires 0 <= i < |entries| => entries[i].key)
  }

  /** No key appears twice. */
  predicate Distinct(ks: seq<Key>) {
    forall i, j :: 0 <= i < j < |ks| ==> ks[i] != ks[j]
  }

  /** The number of statements over all entries. */
  function Total(entries: seq<Entry>): nat
    decreases |entries|
  {
    if entries == [] then 0 else |entries[0].statements| + Total(entries[1..])
  }

  /** One step of the loop: append the record's statement to its key's
      list, opening a new entry at the end when the key is new. */
  function Insert(entries: seq<Entry>, r: Record): seq<Entry>
    decreases |entries|
  {
    if entries == [] then [Entry(KeyOf(r), [r.statement])]
    else if entries[0].key == KeyOf(r) then
      [Entry(entries[0].key, entries[0].statements + [r.statement])] + entries[1..]
    else [entries[0]] + Insert(entries[1..], r)
  }

  /** The loop `policy_groups[(name, compartment)].append(statement)` over
      all records, in order. */
  function Group(records: seq<Record>): (e: seq<Entry>)
    ensures Total(e) == |records|
    ensures Distinct(Keys(e))
    decreases |records|
  {
    if records == [] then []
    else
      var prev := Group(records[..|records| - 1]);
      var r := records[|records| - 1];
      InsertTotal(prev, r);
      InsertKeepsKeysDistinct(prev, r);
      Insert(prev, r)
  }

  /** Reference definition: the keys of `ks` in order of first occurrence. */
  function FirstSeen(ks: seq<Key>): seq<Key>
    decreases |ks|
  {
    if ks == [] then []
    else
      var prev := FirstSeen(ks[..|ks| - 1]);
      if ks[|ks| - 1] in ks[..|ks| - 1] then prev else prev + [ks[|ks| - 1]]
  }

  /** Reference definition: the statements of the records with key `k`, in order. */
  function Select(records: seq<Record>, k: Key): seq<String>
    decreases |records|
  {
    if records == [] then []
    else
      var last := records[|records| - 1];
      Select(records[..|records| - 1], k) + (if KeyOf(last) == k then [last.statement] else [])
  }

  /** The keys of the records, in order. */
  function RecordKeys(records: seq<Record>): seq<Key> {
    seq(|records|, i requires 0 <= i < |records| => KeyOf(records[i]))
  }

  /** The report as a reference: one entry per key in first-seen order,
      holding every statement with that key in record order. */
  function GroupRef(records: seq<Record>): seq<Entry> {
    var ks := FirstSeen(RecordKeys(records));
    seq(|ks|, i requires 0 <= i < |ks| => Entry(ks[i], Select(records, ks[i])))
  }

  /** A key no record carries selects nothing. */
  lemma {:induction false} SelectAbsent(records: seq<Record>, k: Key)
    requires k !in RecordKeys(records)
    ensures Select(records, k) == []
    decreases |records|
  {
    if records != [] {
      var init := records[..|records| - 1];
      assert RecordKeys(init) == RecordKeys(records)[..|records| - 1];
      assert KeyOf(records[|records| - 1]) == RecordKeys(records)[|records| - 1];
      SelectAbsent(init, k);
    }
  }

  /** First-seen order keeps each key once and loses none. */
  lemma {:induction false} FirstSeenSpec(ks: seq<Key>)
    ensures Distinct(FirstSeen(ks))
    ensures forall k :: k in FirstSeen(ks) <==> k in ks
    decreases |ks|
  {
    if ks != [] {
      var init := ks[..|ks| - 1];
      FirstSeenSpec(init);
      assert ks == init + [ks[|ks| - 1]];
    }
  }

  /** Inserting a record whose key is new opens an entry at the end. */
  lemma {:induction false} InsertNew(entries: seq<Entry>, r: Record)
    requires KeyOf(r) !in Keys(entries)
    ensures Insert(entries, r) == entries + [Entry(KeyOf(r), [r.statement])]
    decreases |entries|
  {
    if entries != [] {
      assert Keys(entries)[0] == entries[0].key;
      assert Keys(entries[1..]) == Keys(entries)[1..];
      InsertNew(entries[1..], r);
      assert [entries[0]] + (entries[1..] + [Entry(KeyOf(r), [r.statement])])
          == entries + [Entry(KeyOf(r), [r.statement])];
    }
  }

  /** Inserting a record whose key is present, in a report with distinct
      keys, appends its statement to that key's entry and changes no other. */
  lemma {:induction false} InsertExisting(entries: seq<Entry>, r: Record)
    requires Distinct(Keys(entries))
    requires KeyOf(r) in Keys(entries)
    ensures |Insert(entries, r)| == |entries|
    ensures forall i :: 0 <= i < |entries| ==>
              Insert(entries, r)[i] == if entries[i].key == KeyOf(r)
                                       then Entry(entries[i].key, entries[i].statements + [r.statement])
                                       else entries[i]
    decreases |entries|
  {
    var k := KeyOf(r);
    var ks := Keys(entries);
    if entries[0].key == k {
      forall i | 1 <= i < |entries| ensures entries[i].key != k {
        assert ks[0] != ks[i];
      }
    } else {
      var tail := entries[1..];
      assert Keys(tail) == ks[1..];
      assert Distinct(Keys(tail));
      assert k in Keys(tail) by {
        var j :| 0 <= j < |ks| && ks[j] == k;
        assert j != 0;
        assert Keys(tail)[j - 1] == k;
      }
      InsertExisting(tail, r);
      var ins := Insert(entries, r);
      assert ins == [entries[0]] + Insert(tail, r);
      forall i | 1 <= i < |entries|
        ensures ins[i] == if entries[i].key == k then Entry(entries[i].key, entries[i].statements + [r.statement])
                          else entries[i]
      {
        assert ins[i] == Insert(tail, r)[i - 1];
        assert tail[i - 1] == entries[i];
      }
    }
  }

  /** The grouping loop computes the reference report. */
  lemma {:induction false} GroupIsReference(records: seq<Record>)
    ensures Group(records) == GroupRef(records)
    decreases |records|
  {
    if records != [] {
      var init := records[..|records| - 1];
      var r := records[|records| - 1];
      GroupIsReference(init);
      var ks := RecordKeys(records);
      assert RecordKeys(init) == ks[..|ks| - 1];
      var prev := FirstSeen(RecordKeys(init));
      FirstSeenSpec(RecordKeys(init));
      assert Keys(GroupRef(init)) == prev;
      if KeyOf(r) in prev {
        InsertExisting(GroupRef(init), r);
      } else {
        InsertNew(GroupRef(init), r);
      }
      var lhs := Insert(GroupRef(init), r);
      var rhs := GroupRef(records);
      assert |lhs| == |rhs|;
      assert records[..|records| - 1] == init;
      var k := KeyOf(r);
      forall i | 0 <= i < |prev| ensures lhs[i] == rhs[i] {
        assert Select(records, prev[i]) == Select(init, prev[i]) + (if k == prev[i] then [r.statement] else []);
      }
      if k !in prev {
        SelectAbsent(init, k);
        assert lhs[|prev|] == rhs[|prev|];
      }
    }
  }

  /** Inserting a record adds exactly one statement. */
  lemma {:induction false} InsertTotal(entries: seq<Entry>, r: Record)
    ensures Total(Insert(entries, r)) == Total(entries) + 1
    decreases |entries|
  {
    if entries != [] {
      if entries[0].key != KeyOf(r) {
        InsertTotal(entries[1..], r);
      }
      assert Insert(entries, r)[1..] == if entries[0].key == KeyOf(r) then entries[1..] else Insert(entries[1..], r);
    }
  }

  /** Inserting a record never makes a key appear twice. */
  lemma InsertKeepsKeysDistinct(entries: seq<Entry>, r: Record)
    requires Distinct(Keys(entries))
    ensures Distinct(Keys(Insert(entries, r)))
  {
    var ks := Keys(entries);
    var ks' := Keys(Insert(entries, r));
    if KeyOf(r) in ks {
      InsertExisting(entries, r);
      assert forall i :: 0 <= i < |ks'| ==> ks'[i] == ks[i];
    } else {
      InsertNew(entries, r);
      assert ks' == ks + [KeyOf(r)];
    }
  }

  /** Two statements of the same policy and compartment share one entry,
      in their original order, even when their texts are equal. */
  lemma SameKeyStaysTogether(r1: Record, r2: Record)
    requires KeyOf(r1) == KeyOf(r2)
    ensures Group([r1, r2]) == [Entry(KeyOf(r1), [r1.statement, r2.statement])]
  {
    var k := KeyOf(r1);
    var rs := [r1, r2];
    assert rs[..1] == [r1] && rs[1] == r2;
    assert [r1][..0] == [];
    assert Group([r1]) == Insert([], r1) == [Entry(k, [r1.statement])];
    assert Group(rs) == Insert([Entry(k, [r1.statement])], r2);
    assert [r1.statement] + [r2.statement] == [r1.statement, r2.statement];
    assert Insert([Entry(k, [r1.statement])], r2) == [Entry(k, [r1.statement] + [r2.statement])] + [];
  }
}
