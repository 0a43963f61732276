/** A database table with a primary key and one UNIQUE constraint, kept as an index. */
module Table {
  import opened Wrappers

  type Id = nat

  datatype Row<K, V> = Row(key: K, value: V)

  datatype Table<K, V> = Table(rows: map<Id, Row<K, V>>, index: map<K, Id>)

  /** Rows and index agree, so no two rows share a key; all ids are below `next`. */
  ghost predicate Consistent<K, V>(t: Table<K, V>, next: Id) {
    && (forall i :: i in t.rows ==> i < next && t.rows[i].key in t.index && t.index[t.rows[i].key] == i)
    && (forall k :: k in t.index ==> t.index[k] in t.rows && t.rows[t.index[k]].key == k)
  }

  function Insert<K, V>(t: Table<K, V>, id: Id, key: K, value: V): Table<K, V> {
    Table(t.rows[id := Row(key, value)], t.index[key := id])
  }

  function Update<K, V>(t: Table<K, V>, id: Id, value: V): Table<K, V> {
    if id in t.rows then t.(rows := t.rows[id := t.rows[id].(value := value)]) else t
  }

  /** `DELETE`, said by what stays. */
  function Keep<K, V>(t: Table<K, V>, ids: set<Id>): Table<K, V> {
    Table(map i | i in t.rows && i in ids :: t.rows[i], map k | k in t.index && t.index[k] in ids :: t.index[k])
  }

  lemma InsertConsistent<K, V>(t: Table<K, V>, next: Id, key: K, value: V)
    requires Consistent(t, next) && key !in t.index
    ensures Consistent(Insert(t, next, key, value), next + 1)
  {
  }

  lemma UpdateConsistent<K, V>(t: Table<K, V>, next: Id, id: Id, value: V)
    requires Consistent(t, next) && id in t.rows
    ensures Consistent(Update(t, id, value), next)
  {
  }

  lemma KeepConsistent<K, V>(t: Table<K, V>, next: Id, ids: set<Id>)
    requires Consistent(t, next)
    ensures Consistent(Keep(t, ids), next)
  {
  }

  /** Keeping every row keeps the table. */
  lemma KeepAll<K, V>(t: Table<K, V>, next: Id, ids: set<Id>)
    requires Consistent(t, next) && t.rows.Keys <= ids
    ensures Keep(t, ids) == t
  {
    assert Keep(t, ids).rows == t.rows;
    assert Keep(t, ids).index == t.index;
  }
}
