/**
 * A document store with snapshot-isolated transactions. A transaction reads a snapshot and its own writes, and
 * commits only if no row it wrote, inserted or deleted was written since the snapshot by somebody else.
 */
module Snapshot {
  import opened Wrappers

  /** Every write to a row raises the row's version, a deletion included. */
  datatype Db<K(==), R> = Db(rows: map<K, R>, versions: map<K, nat>)

  datatype Txn<K(==), R> = Txn(base: Db<K, R>, view: map<K, R>, writes: set<K>)

  function Empty<K(==), R>(): Db<K, R> {
    Db(map[], map[])
  }

  function Get<K, R>(rows: map<K, R>, k: K): Option<R> {
    if k in rows then Some(rows[k]) else None
  }

  function Version<K, R>(db: Db<K, R>, k: K): nat {
    if k in db.versions then db.versions[k] else 0
  }

  /** An update of one document outside any transaction. */
  function Write<K, R>(db: Db<K, R>, k: K, r: R): Db<K, R> {
    Db(db.rows[k := r], db.versions[k := Version(db, k) + 1])
  }

  function Begin<K(==), R>(base: Db<K, R>): Txn<K, R> {
    Txn(base, base.rows, {})
  }

  function Put<K, R>(t: Txn<K, R>, k: K, r: R): Txn<K, R> {
    t.(view := t.view[k := r], writes := t.writes + {k})
  }

  function Remove<K, R>(t: Txn<K, R>, k: K): Txn<K, R> {
    t.(view := t.view - {k}, writes := t.writes + {k})
  }

  predicate NoConflict<K, R>(db: Db<K, R>, t: Txn<K, R>) {
    forall k :: k in t.writes ==> Version(db, k) == Version(t.base, k)
  }

  function Commit<K, R>(db: Db<K, R>, t: Txn<K, R>): Db<K, R> {
    Db(map k | k in db.rows.Keys + t.view.Keys && (if k in t.writes then k in t.view else k in db.rows) ::
         if k in t.writes then t.view[k] else db.rows[k],
       map k | k in db.versions.Keys + t.writes :: if k in t.writes then Version(db, k) + 1 else Version(db, k))
  }

  /** A commit replaces exactly the rows that were written. */
  lemma CommitAt<K, R>(db: Db<K, R>, t: Txn<K, R>, k: K)
    ensures Get(Commit(db, t).rows, k) == if k in t.writes then Get(t.view, k) else Get(db.rows, k)
    ensures Version(Commit(db, t), k) == if k in t.writes then Version(db, k) + 1 else Version(db, k)
  {
  }

  lemma WriteAt<K, R>(db: Db<K, R>, k: K, r: R, x: K)
    ensures Get(Write(db, k, r).rows, x) == if x == k then Some(r) else Get(db.rows, x)
    ensures Version(Write(db, k, r), x) == if x == k then Version(db, k) + 1 else Version(db, x)
  {
  }
}
