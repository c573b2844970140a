/** `CachedDbItem` and `CachedDbSetItem`: one stored value, or one stored set, with its cached copy. */
module Item {
  import opened Options
  import opened ByteOrder
  import opened Database
  import opened Codecs
  import opened SetAccess
  import opened Cache

  datatype ItemReply<T> = Found(item: T) | NotFound | Undecodable

  /** What an uncached read of the row would answer. */
  function Stored<T>(c: Codec<T>, rows: Rows, key: Bytes): ItemReply<T> {
    if key !in rows then NotFound
    else
      match c.de(rows[key])
      case Some(item) => Found(item)
      case None => Undecodable
  }

  class CachedDbItem<T(!new)> {
    const db: DB
    const key: Bytes
    const codec: Codec<T>
    var cachedItem: Option<T>

    /** A cached item is the one these rows hold. The rows are the pending ones: with a direct writer
        those of the database, with a batch those it will commit. */
    ghost predicate Agrees(rows: Rows)
      reads this
    {
      cachedItem.Some? ==> Stored(codec, rows, key) == Found(cachedItem.value)
    }

    /** What a read answers: the cached item, or else the row. */
    ghost function Seen(): ItemReply<T>
      reads this, db
    {
      if cachedItem.Some? then Found(cachedItem.value) else Stored(codec, db.rows, key)
    }

    constructor (db: DB, key: Bytes, codec: Codec<T>)
      ensures this.db == db && this.key == key && this.codec == codec && cachedItem == None
    {
      this.db := db;
      this.key := key;
      this.codec := codec;
      cachedItem := None;
    }

    /** With nothing staged the answer is the stored item. In a batch, a miss may cache a row that the
        batch replaces. */
    method Read(ghost pending: Rows) returns (reply: ItemReply<T>)
      requires Agrees(pending)
      modifies this
      ensures reply == old(Seen()) == Seen()
      ensures reply.Found? ==> cachedItem == Some(reply.item)
      ensures !reply.Found? ==> cachedItem == None
      ensures Agrees(pending) <==> !reply.Found? || reply == Stored(codec, pending, key)
      ensures reply == NotFound <==> old(cachedItem) == None && key !in db.rows
      ensures reply == Undecodable <==> old(cachedItem) == None && key in db.rows && codec.de(db.rows[key]).None?
    {
      if cachedItem.Some? {
        return Found(cachedItem.value);
      }
      if key in db.rows {
        match codec.de(db.rows[key])
        case Some(item) =>
          cachedItem := Some(item);
          reply := Found(item);
        case None =>
          reply := Undecodable;
      } else {
        reply := NotFound;
      }
    }

    method Write(writer: DbWriter, item: T)
      requires Lossless(codec) && writer.Valid() && writer.db == db
      modifies this, writer, db
      ensures writer.Valid() && Agrees(writer.Pending())
      ensures cachedItem == Some(item)
      ensures writer.Pending() == old(writer.Pending())[key := codec.ser(item)]
      ensures db.rows == if writer.direct then writer.Pending() else old(db.rows)
    {
      cachedItem := Some(item);
      writer.Emit(Put(key, codec.ser(item)));
    }

    method Remove(writer: DbWriter)
      requires writer.Valid() && writer.db == db
      modifies this, writer, db
      ensures writer.Valid() && Agrees(writer.Pending())
      ensures cachedItem == None
      ensures writer.Pending() == old(writer.Pending()) - {key}
      ensures db.rows == if writer.direct then writer.Pending() else old(db.rows)
    {
      cachedItem := None;
      writer.Emit(Delete(key));
    }

    /** Applies `op` to what a read would answer; without a readable value nothing is written. */
    method Update(writer: DbWriter, op: T -> T) returns (reply: ItemReply<T>)
      requires Lossless(codec) && writer.Valid() && writer.db == db
      modifies this, writer, db
      ensures writer.Valid()
      ensures db.rows == if writer.direct then writer.Pending() else old(db.rows)
      ensures var before := old(Seen());
              if before.Found?
              then
                && reply == Found(op(before.item)) && cachedItem == Some(op(before.item))
                && writer.Pending() == old(writer.Pending())[key := codec.ser(op(before.item))]
                && Agrees(writer.Pending())
              else reply == before && cachedItem == None && writer.Pending() == old(writer.Pending())
    {
      var taken := cachedItem;
      cachedItem := None;
      var item: T;
      if taken.Some? {
        item := taken.value;
      } else if key in db.rows {
        match codec.de(db.rows[key])
        case Some(data) => item := data;
        case None => return Undecodable;
      } else {
        return NotFound;
      }
      item := op(item);
      cachedItem := Some(item);
      writer.Emit(Put(key, codec.ser(item)));
      reply := Found(item);
    }
  }

  function Elements<T>(items: seq<T>): set<T> {
    set x | x in items
  }

  /** The map of sets with a single, empty key. */
  function Only<T>(s: set<T>): map<Key, set<T>> {
    map[[] := s]
  }

  lemma OnlyReplaced<T>(s: set<T>, t: set<T>)
    ensures Only(s)[[] := t] == Only(t) && At(Only(s), []) == s
  {
  }

  /** The rows of a set store whose only key is empty. */
  function Layout<T>(prefix: Bytes, codec: Codec<T>): Config<T> {
    Config(prefix, 0, PolicyInner(false, 0, 0), (s: set<T>) => 0, codec)
  }

  /** The rows once the items are deleted, one by one. */
  function Deleted<T>(cfg: Config<T>, rows: Rows, items: seq<T>): Rows {
    if items == [] then rows
    else
      var n := |items| - 1;
      Apply(Deleted(cfg, rows, items[..n]), Delete(ItemPath(cfg, [], items[n])))
  }

  /** The rows once the items are written, one by one. */
  function Added<T>(cfg: Config<T>, rows: Rows, items: seq<T>): Rows {
    if items == [] then rows
    else
      var n := |items| - 1;
      Apply(Added(cfg, rows, items[..n]), Put(ItemPath(cfg, [], items[n]), []))
  }

  lemma {:induction false} DeletedRepresents<T(!new)>(cfg: Config<T>, rows: Rows, s: set<T>, items: seq<T>)
    requires Lossless(cfg.codec) && cfg.keyLen == 0 && Represents(cfg, rows, Only(s))
    ensures Represents(cfg, Deleted(cfg, rows, items), Only(s - Elements(items)))
    decreases |items|
  {
    if items == [] {
      assert s - Elements(items) == s;
    } else {
      var n := |items| - 1;
      DeletedRepresents(cfg, rows, s, items[..n]);
      var left := s - Elements(items[..n]);
      DeleteRepresents(cfg, Deleted(cfg, rows, items[..n]), Only(left), [], items[n]);
      OnlyReplaced(left, left - {items[n]});
      assert items == items[..n] + [items[n]];
      assert left - {items[n]} == s - Elements(items);
    }
  }

  lemma {:induction false} AddedRepresents<T(!new)>(cfg: Config<T>, rows: Rows, s: set<T>, items: seq<T>)
    requires Lossless(cfg.codec) && cfg.keyLen == 0 && Represents(cfg, rows, Only(s))
    ensures Represents(cfg, Added(cfg, rows, items), Only(s + Elements(items)))
    decreases |items|
  {
    if items == [] {
      assert s + Elements(items) == s;
    } else {
      var n := |items| - 1;
      AddedRepresents(cfg, rows, s, items[..n]);
      var grown := s + Elements(items[..n]);
      WriteRepresents(cfg, Added(cfg, rows, items[..n]), Only(grown), [], items[n]);
      OnlyReplaced(grown, grown + {items[n]});
      assert items == items[..n] + [items[n]];
      assert grown + {items[n]} == s + Elements(items);
    }
  }

  function Changed<T>(s: set<T>, removed: seq<T>, added: seq<T>): set<T> {
    (s - Elements(removed)) + Elements(added)
  }

  /** The set an uncached read of these rows answers with, or None if a row does not decode. */
  ghost predicate Reads<T(!new)>(prefix: Bytes, codec: Codec<T>, rows: Rows, found: Option<set<T>>) {
    Collects(codec, rows, prefix + [], found)
  }

  lemma ReadsSet<T(!new)>(cfg: Config<T>, rows: Rows, s: set<T>, found: Option<set<T>>)
    requires Lossless(cfg.codec) && cfg.keyLen == 0 && Represents(cfg, rows, Only(s))
    requires Reads(cfg.prefix, cfg.codec, rows, found)
    ensures found == Some(s)
  {
    BucketIteratorExact(cfg, rows, Only(s), [], found);
  }

  /** An update that starts from the set `before` while the pending rows hold `s`: the rows come to hold
      the changed set, and the cached copy equals it if and only if `before` and `s` differ at most in
      items that were removed or added. */
  lemma UpdateExact<T(!new)>(cfg: Config<T>, pending: Rows, s: set<T>, before: set<T>, removed: seq<T>, added: seq<T>)
    requires Lossless(cfg.codec) && cfg.keyLen == 0 && Represents(cfg, pending, Only(s))
    ensures Represents(cfg, Added(cfg, Deleted(cfg, pending, removed), added), Only(Changed(s, removed, added)))
    ensures Changed(before, removed, added) == Changed(s, removed, added)
            <==> forall x | x !in removed && x !in added :: x in before <==> x in s
  {
    DeletedRepresents(cfg, pending, s, removed);
    AddedRepresents(cfg, Deleted(cfg, pending, removed), s - Elements(removed), added);
    if Changed(before, removed, added) == Changed(s, removed, added) {
      forall x | x !in removed && x !in added
        ensures x in before <==> x in s
      {
        assert x in Changed(before, removed, added) <==> x in before;
        assert x in Changed(s, removed, added) <==> x in s;
      }
    }
  }

  class CachedDbSetItem<T(==,!new)> {
    const access: DbSetAccess<T>
    var cachedSet: Option<set<T>>

    constructor (db: DB, key: Bytes, codec: Codec<T>)
      ensures access.db == db && access.prefix == key && access.codec == codec && cachedSet == None
    {
      access := new DbSetAccess(db, key, codec);
      cachedSet := None;
    }

    /** A row that does not decode is an error, and nothing is cached. */
    method Read() returns (reply: Option<set<T>>)
      modifies this
      ensures cachedSet == reply
      ensures if old(cachedSet).Some? then reply == old(cachedSet)
              else Reads(access.prefix, access.codec, access.db.rows, reply)
    {
      if cachedSet.Some? {
        return cachedSet;
      }
      reply := access.CollectBucket([]);
      cachedSet := reply;
    }

    ghost predicate Ready(writer: DbWriter)
      reads writer
    {
      writer.Valid() && writer.db == access.db
    }

    ghost function Store(): Config<T> {
      Layout(access.prefix, access.codec)
    }

    /** The first loop of `update`: rows and set lose the items. */
    method DeleteEach(writer: DbWriter, items: seq<T>, current: set<T>) returns (members: set<T>)
      requires Ready(writer)
      modifies writer, access.db
      ensures Ready(writer) && writer.Pending() == Deleted(Store(), old(writer.Pending()), items)
      ensures access.db.rows == if writer.direct then writer.Pending() else old(access.db.rows)
      ensures members == current - Elements(items)
    {
      members := current;
      var i := 0;
      while i < |items|
        invariant 0 <= i <= |items|
        invariant Ready(writer) && access.db.rows == if writer.direct then writer.Pending() else old(access.db.rows)
        invariant members == current - Elements(items[..i])
        invariant writer.Pending() == Deleted(Store(), old(writer.Pending()), items[..i])
      {
        access.Delete(writer, [], items[i]);
        members := members - {items[i]};
        assert items[..i + 1] == items[..i] + [items[i]];
        i := i + 1;
      }
      assert items[..i] == items;
    }

    /** The second loop: rows and set gain the items. */
    method AddEach(writer: DbWriter, items: seq<T>, current: set<T>) returns (members: set<T>)
      requires Ready(writer)
      modifies writer, access.db
      ensures Ready(writer) && writer.Pending() == Added(Store(), old(writer.Pending()), items)
      ensures access.db.rows == if writer.direct then writer.Pending() else old(access.db.rows)
      ensures members == current + Elements(items)
    {
      members := current;
      var i := 0;
      while i < |items|
        invariant 0 <= i <= |items|
        invariant Ready(writer) && access.db.rows == if writer.direct then writer.Pending() else old(access.db.rows)
        invariant members == current + Elements(items[..i])
        invariant writer.Pending() == Added(Store(), old(writer.Pending()), items[..i])
      {
        access.Write(writer, [], items[i]);
        members := members + {items[i]};
        assert items[..i + 1] == items[..i] + [items[i]];
        i := i + 1;
      }
      assert items[..i] == items;
    }

    /** Removals go first, then additions, row by row and in the cached set alike. `before` is the set
        the call starts from; if it cannot be read nothing is written. */
    method Update(writer: DbWriter, added: seq<T>, removed: seq<T>) returns (reply: Option<set<T>>, ghost before: Option<set<T>>)
      requires Ready(writer)
      modifies this, writer, access.db
      ensures Ready(writer) && access.db.rows == if writer.direct then writer.Pending() else old(access.db.rows)
      ensures if old(cachedSet).Some? then before == old(cachedSet)
              else Reads(access.prefix, access.codec, old(access.db.rows), before)
      ensures before.None? ==> cachedSet == reply == None && writer.Pending() == old(writer.Pending())
      ensures before.Some? ==> cachedSet == reply == Some(Changed(before.value, removed, added))
                               && writer.Pending() == Added(Store(), Deleted(Store(), old(writer.Pending()), removed), added)
    {
      reply := Read();
      before := reply;
      if reply.None? {
        return;
      }
      var members := DeleteEach(writer, removed, reply.value);
      members := AddEach(writer, added, members);
      cachedSet := Some(members);
      reply := cachedSet;
    }
  }
}
