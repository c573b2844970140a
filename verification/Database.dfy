/** The ordered key-value database and the writers that change it directly or through a batch. */
module Database {
  import opened ByteOrder

  type Rows = map<Bytes, Bytes>

  datatype WriteOp =
    | Put(key: Bytes, value: Bytes)
    | Delete(key: Bytes)
    | DeleteRange(from: Bytes, to: Bytes)

  function Apply(rows: Rows, op: WriteOp): Rows {
    match op
    case Put(k, v) => rows[k := v]
    case Delete(k) => rows - {k}
    case DeleteRange(from, to) => map k | k in rows && !(!Less(k, from) && Less(k, to)) :: rows[k]
  }

  function ApplyAll(rows: Rows, ops: seq<WriteOp>): Rows {
    if ops == [] then rows else Apply(ApplyAll(rows, ops[..|ops| - 1]), ops[|ops| - 1])
  }

  lemma {:induction false} ApplyAllAppend(rows: Rows, a: seq<WriteOp>, b: seq<WriteOp>)
    ensures ApplyAll(rows, a + b) == ApplyAll(ApplyAll(rows, a), b)
  {
    if b == [] {
      assert a + b == a;
    } else {
      var n := |b| - 1;
      ApplyAllAppend(rows, a, b[..n]);
      assert (a + b)[..|a + b| - 1] == a + b[..n];
    }
  }

  lemma ApplyOne(rows: Rows, op: WriteOp)
    ensures ApplyAll(rows, [op]) == Apply(rows, op)
  {
    assert [op][..0] == [];
  }

  class DB {
    var rows: Rows

    constructor ()
      ensures rows == map[]
    {
      rows := map[];
    }
  }

  /** A `DbWriter`: a direct one changes the database at once, a batched one only stages operations
      until the batch is written. */
  class DbWriter {
    const db: DB
    const direct: bool
    var batch: seq<WriteOp>

    ghost predicate Valid()
      reads this
    {
      direct ==> batch == []
    }

    /** The database as it will be once everything staged is committed. */
    ghost function Pending(): Rows
      reads this, db
    {
      ApplyAll(db.rows, batch)
    }

    constructor (db: DB, direct: bool)
      ensures Valid() && this.db == db && this.direct == direct && batch == []
    {
      this.db := db;
      this.direct := direct;
      batch := [];
    }

    method Emit(op: WriteOp)
      requires Valid()
      modifies this, db
      ensures Valid()
      ensures direct ==> db.rows == Apply(old(db.rows), op)
      ensures !direct ==> db.rows == old(db.rows) && batch == old(batch) + [op]
      ensures Pending() == Apply(old(Pending()), op)
    {
      if direct {
        db.rows := Apply(db.rows, op);
      } else {
        batch := batch + [op];
        assert batch[..|batch| - 1] == old(batch);
      }
    }

    /** `DB::write(batch)`. */
    method Commit()
      requires Valid()
      modifies this, db
      ensures Valid()
      ensures db.rows == old(Pending()) && batch == []
    {
      var i := 0;
      while i < |batch|
        invariant 0 <= i <= |batch|
        invariant batch == old(batch)
        invariant db.rows == ApplyAll(old(db.rows), batch[..i])
      {
        db.rows := Apply(db.rows, batch[i]);
        i := i + 1;
        assert batch[..i][..i - 1] == batch[..i - 1];
      }
      assert batch[..i] == batch;
      batch := [];
    }
  }

  /** Deleting the range of a prefix removes exactly the rows that extend it. */
  lemma DeletePrefixRange(rows: Rows, p: Bytes)
    requires Successor(p).Some?
    ensures Apply(rows, DeleteRange(p, Successor(p).value)) == map k | k in rows && !(p <= k) :: rows[k]
  {
    forall k | k in rows
      ensures InRange(k, p, Successor(p).value) <==> p <= k
    {
      RangeIsPrefix(p, k);
    }
  }
}
