/** The persistence layer as the core uses it: tables of records keyed by a
    natural key, read by key and written with insert-once `get_or_create`
    semantics (first write wins), plus the plain `save` of a record. */
module Store {

  /** The outcome of `get_or_create`: the table afterwards, the record that
      is returned and whether it was created by this call. */
  datatype Upsert<K, V> = Upsert(table: map<K, V>, record: V, created: bool)

  /** `get_or_create(key, defaults)`: the stored record when the key is
      present (the defaults are ignored), otherwise `defaults` stored under
      the key. */
  function InsertOnce<K, V>(table: map<K, V>, key: K, defaults: V): (u: Upsert<K, V>)
    ensures key in u.table && u.table[key] == u.record
    ensures u.created <==> key !in table
    ensures key in table ==> u.table == table && u.record == table[key]
    ensures !u.created ==> u.record == table[key]
    ensures u.created ==> u.record == defaults
    ensures u.table.Keys == table.Keys + {key}
    ensures forall k :: k in table && k != key ==> u.table[k] == table[k]
  {
    if key in table then Upsert(table, table[key], false)
    else Upsert(table[key := defaults], defaults, true)
  }

  /** A second `get_or_create` of the same key changes nothing and returns
      the record of the first, whatever defaults it carries. */
  lemma InsertOnceIdempotent<K, V>(table: map<K, V>, key: K, first: V, second: V)
    ensures var u1 := InsertOnce(table, key, first);
            var u2 := InsertOnce(u1.table, key, second);
            u2.table == u1.table && u2.record == u1.record && !u2.created
  {
  }

  /** Every entry already stored survives any `get_or_create`. */
  lemma InsertOnceKeepsEntries<K, V>(table: map<K, V>, key: K, defaults: V, k: K)
    requires k in table
    ensures var u := InsertOnce(table, key, defaults);
            k in u.table && u.table[k] == table[k]
  {
  }

  /** The outcome of a run of `get_or_create` calls, one per entry, in order:
      the table afterwards and the record each call returned. */
  datatype Batch<K, V> = Batch(table: map<K, V>, records: seq<V>)

  ghost function EntryKeys<K, V>(es: seq<(K, V)>): set<K>
  {
    set i | 0 <= i < |es| :: es[i].0
  }

  /** `get_or_create(es[i].0, es[i].1)` for each entry in turn. */
  function InsertAll<K, V>(table: map<K, V>, es: seq<(K, V)>): (b: Batch<K, V>)
    ensures |b.records| == |es|
    decreases |es|
  {
    if es == [] then Batch(table, [])
    else
      var prev := InsertAll(table, es[..|es| - 1]);
      var u := InsertOnce(prev.table, es[|es| - 1].0, es[|es| - 1].1);
      Batch(u.table, prev.records + [u.record])
  }

  lemma EntryKeysSnoc<K, V>(es: seq<(K, V)>)
    requires es != []
    ensures EntryKeys(es) == EntryKeys(es[..|es| - 1]) + {es[|es| - 1].0}
  {
    var pre := es[..|es| - 1];
    forall k | k in EntryKeys(es) ensures k in EntryKeys(pre) + {es[|es| - 1].0} {
      var i :| 0 <= i < |es| && es[i].0 == k;
      if i < |pre| { assert pre[i] == es[i]; }
    }
    forall k | k in EntryKeys(pre) ensures k in EntryKeys(es) {
      var i :| 0 <= i < |pre| && pre[i].0 == k;
      assert es[i] == pre[i];
    }
  }

  /** The table after a batch holds the old keys and the batch's keys, and
      nothing else, and no entry stored before the batch changes. */
  lemma {:induction false} InsertAllKeys<K, V>(table: map<K, V>, es: seq<(K, V)>)
    ensures var b := InsertAll(table, es);
            && b.table.Keys == table.Keys + EntryKeys(es)
            && (forall k :: k in table ==> b.table[k] == table[k])
    decreases |es|
  {
    if es != [] {
      InsertAllKeys(table, es[..|es| - 1]);
      EntryKeysSnoc(es);
    }
  }

  /** Every record a batch returns is the one stored under its key
      afterwards. */
  lemma {:induction false} InsertAllStored<K, V>(table: map<K, V>, es: seq<(K, V)>)
    ensures var b := InsertAll(table, es);
            forall i :: 0 <= i < |es| ==> es[i].0 in b.table && b.table[es[i].0] == b.records[i]
    decreases |es|
  {
    if es != [] {
      var pre := es[..|es| - 1];
      InsertAllStored(table, pre);
      var prev := InsertAll(table, pre);
      var b := InsertAll(table, es);
      forall i | 0 <= i < |es|
        ensures es[i].0 in b.table && b.table[es[i].0] == b.records[i]
      {
        if i < |pre| {
          assert pre[i] == es[i];
          assert b.records[i] == prev.records[i];
        }
      }
    }
  }

  /** The record returned for the first entry of a key the table did not
      hold is that entry's value: later entries with the same key do not
      replace it (first write wins). */
  lemma {:induction false} InsertAllFirstWins<K, V>(table: map<K, V>, es: seq<(K, V)>, i: nat)
    requires i < |es| && es[i].0 !in table
    requires forall j :: 0 <= j < i ==> es[j].0 != es[i].0
    ensures InsertAll(table, es).records[i] == es[i].1
    decreases |es|
  {
    var pre := es[..|es| - 1];
    if i < |pre| {
      assert pre[i] == es[i];
      CreateFirstWinsPrefix(table, es, pre, i);
    } else {
      InsertAllKeys(table, pre);
      assert forall j :: 0 <= j < |pre| ==> pre[j] == es[j];
      assert es[i].0 !in EntryKeys(pre);
    }
  }

  lemma {:induction false} CreateFirstWinsPrefix<K, V>(table: map<K, V>, es: seq<(K, V)>, pre: seq<(K, V)>, i: nat)
    requires es != [] && pre == es[..|es| - 1]
    requires i < |pre| && es[i].0 !in table
    requires forall j :: 0 <= j < i ==> es[j].0 != es[i].0
    ensures InsertAll(table, es).records[i] == es[i].1
    decreases |es|, 0
  {
    assert pre[i] == es[i];
    forall j | 0 <= j < i ensures pre[j].0 != pre[i].0 {
      assert pre[j] == es[j];
    }
    InsertAllFirstWins(table, pre, i);
  }

  /** Running a batch and then another is running their concatenation. */
  lemma {:induction false} InsertAllAppend<K, V>(table: map<K, V>, xs: seq<(K, V)>, ys: seq<(K, V)>)
    ensures var a := InsertAll(table, xs);
            var b := InsertAll(a.table, ys);
            InsertAll(table, xs + ys) == Batch(b.table, a.records + b.records)
    decreases |ys|
  {
    if ys == [] {
      assert xs + ys == xs;
    } else {
      var ys' := ys[..|ys| - 1];
      InsertAllAppend(table, xs, ys');
      assert (xs + ys)[..|xs + ys| - 1] == xs + ys';
      assert (xs + ys)[|xs + ys| - 1] == ys[|ys| - 1];
    }
  }

  /** A batch whose keys are all stored already changes nothing: this is
      what makes re-running an ingestion safe. */
  lemma {:induction false} InsertAllPresent<K, V>(table: map<K, V>, es: seq<(K, V)>)
    requires forall i :: 0 <= i < |es| ==> es[i].0 in table
    ensures var b := InsertAll(table, es);
            b.table == table && forall i :: 0 <= i < |es| ==> b.records[i] == table[es[i].0]
    decreases |es|
  {
    if es != [] {
      var pre := es[..|es| - 1];
      assert forall i :: 0 <= i < |pre| ==> pre[i] == es[i];
      InsertAllPresent(table, pre);
    }
  }

  /** Replaying a batch on the table it produced changes nothing and
      returns the same records. */
  lemma InsertAllRepeat<K, V>(table: map<K, V>, es: seq<(K, V)>)
    ensures var b := InsertAll(table, es);
            InsertAll(b.table, es) == b
  {
    var b := InsertAll(table, es);
    InsertAllStored(table, es);
    InsertAllKeys(table, es);
    InsertAllPresent(b.table, es);
    assert InsertAll(b.table, es).records == b.records;
  }

  /** Each stored value sits under the key `key` computes from it. */
  ghost predicate KeyedBy<K, V>(table: map<K, V>, key: V -> K)
  {
    forall k :: k in table ==> key(table[k]) == k
  }

  /** A batch whose values carry their own keys keeps a table keyed. */
  lemma {:induction false} InsertAllKeyed<K, V>(table: map<K, V>, es: seq<(K, V)>, key: V -> K)
    requires KeyedBy(table, key)
    requires forall i :: 0 <= i < |es| ==> key(es[i].1) == es[i].0
    ensures KeyedBy(InsertAll(table, es).table, key)
    decreases |es|
  {
    if es != [] {
      var pre := es[..|es| - 1];
      assert forall i :: 0 <= i < |pre| ==> pre[i] == es[i];
      InsertAllKeyed(table, pre, key);
    }
  }

  /** One table of the database. */
  class Table<K(==), V> {
    var rows: map<K, V>

    constructor ()
      ensures rows == map[]
    {
      rows := map[];
    }

    /** `Model.get_or_create(key, defaults=...)`. */
    method GetOrCreate(key: K, defaults: V) returns (record: V, created: bool)
      modifies this
      ensures var u := InsertOnce(old(rows), key, defaults);
              rows == u.table && record == u.record && created == u.created
    {
      created := key !in rows;
      if created {
        rows := rows[key := defaults];
      }
      record := rows[key];
    }

    /** `record.save()`: writes every field of the record under its key. */
    method Save(key: K, record: V)
      modifies this
      ensures rows == old(rows)[key := record]
    {
      rows := rows[key := record];
    }
  }
}
