/**
  The data-access layer: every operation opens the "assets" collection, runs
  one command against it and releases it. The embedded store is abstracted
  as a `Collection` value, a table from id to asset plus the last id the
  store handed out; the `Manager` object holds the current collection.
 */
module AssetsDBManager {
  import opened Wrappers
  import opened Assets

  /** The "assets" collection: records keyed by their id, and the id
      sequence from which fresh ids are drawn. */
  datatype Collection = Collection(table: map<int, Asset>, sequence: int)

  /** Every record sits under its own id, no record has id 0 (0 asks for a
      fresh id), and no id exceeds the sequence. */
  predicate Wellformed(c: Collection) {
    && c.sequence >= 0
    && KeyedById(c.table)
    && forall id :: id in c.table ==> id != 0 && id <= c.sequence
  }

  /** Every record sits under its own id. */
  predicate KeyedById(t: map<int, Asset>) {
    forall id :: id in t ==> t[id].id == id
  }

  /** No two stored assets share a name (kept by the controller, not by the store). */
  predicate NamesDistinct(t: map<int, Asset>) {
    forall j, k :: j in t && k in t && j != k ==> t[j].name != t[k].name
  }

  /** The order of the store's id index. */
  predicate AscendingIds(xs: seq<Asset>) {
    forall i, j :: 0 <= i < j < |xs| ==> xs[i].id < xs[j].id
  }

  function Ids(xs: seq<Asset>): (r: seq<int>)
    ensures |r| == |xs|
  {
    seq(|xs|, i requires 0 <= i < |xs| => xs[i].id)
  }

  lemma MinExists(s: set<int>)
    requires s != {}
    ensures exists m :: m in s && forall k :: k in s ==> m <= k
    decreases s
  {
    if forall x :: x !in s {
      assert false;
    }
    var x :| x in s;
    if s != {x} {
      var s' := s - {x};
      MinExists(s');
      var m :| m in s' && forall k :: k in s' ==> m <= k;
      var least := if x < m then x else m;
      forall k | k in s ensures least <= k {
        if k != x { assert k in s'; }
      }
      assert least in s;
    } else {
      assert forall k :: k in s ==> x <= k;
    }
  }

  /** The least id of a non-empty set. */
  function Least(s: set<int>): (m: int)
    requires s != {}
    ensures m in s && forall k :: k in s ==> m <= k
  {
    MinExists(s);
    var m :| m in s && forall k :: k in s ==> m <= k;
    m
  }

  /** The ids of a set in ascending order, each once. */
  function SortedIds(s: set<int>): (r: seq<int>)
    ensures |r| == |s|
    ensures forall k :: k in r <==> k in s
    ensures forall i, j :: 0 <= i < j < |r| ==> r[i] < r[j]
    decreases s
  {
    if s == {} then []
    else
      var m := Least(s);
      [m] + SortedIds(s - {m})
  }

  lemma ListedValues(t: map<int, Asset>, ids: seq<int>, r: seq<Asset>)
    requires forall k :: k in ids <==> k in t
    requires |r| == |ids| && forall i :: 0 <= i < |ids| ==> ids[i] in t && r[i] == t[ids[i]]
    ensures forall a :: a in r <==> a in t.Values
  {
    forall a | a in t.Values ensures a in r {
      if forall k :: k in t ==> t[k] != a {
        assert false;
      }
      var k :| k in t && t[k] == a;
      var i :| 0 <= i < |ids| && ids[i] == k;
      assert r[i] == a;
    }
  }

  /** `FindAll`: every stored asset exactly once, in ascending id order. */
  function ListDocs(t: map<int, Asset>): (r: seq<Asset>)
    ensures |r| == |t|
    ensures forall a :: a in r <==> a in t.Values
    ensures KeyedById(t) ==> AscendingIds(r)
  {
    var ids := SortedIds(t.Keys);
    var r := seq(|ids|, i requires 0 <= i < |ids| => t[ids[i]]);
    ListedValues(t, ids, r);
    r
  }

  /** A stored value sits under its own id. */
  lemma ValueKey(t: map<int, Asset>, a: Asset)
    requires KeyedById(t) && a in t.Values
    ensures a.id in t && t[a.id] == a
  {
    if forall k :: k in t ==> t[k] != a {
      assert false;
    }
    var k :| k in t && t[k] == a;
  }

  /** In ascending order the head's id is below every later id. */
  lemma AscendingHead(xs: seq<Asset>)
    requires AscendingIds(xs) && |xs| > 0
    ensures forall a :: a in xs[1..] ==> xs[0].id < a.id
  {
    forall a | a in xs[1..] ensures xs[0].id < a.id {
      if forall j :: 0 <= j < |xs[1..]| ==> xs[1..][j] != a {
        assert false;
      }
      var j :| 0 <= j < |xs[1..]| && xs[1..][j] == a;
      assert xs[j + 1] == a;
    }
  }

  /** `r` is `xs` with some elements left out, the rest in their order. */
  predicate IsSubsequence(r: seq<Asset>, xs: seq<Asset>)
    decreases |xs|
  {
    if |r| == 0 then true
    else if |xs| == 0 then false
    else (r[0] == xs[0] && IsSubsequence(r[1..], xs[1..])) || IsSubsequence(r, xs[1..])
  }

  /** LINQ `Where`: the elements that satisfy `p`, each as often as in the
      input, in their original order. */
  function Filter(xs: seq<Asset>, p: Asset -> bool): (r: seq<Asset>)
    ensures |r| <= |xs|
    ensures forall a :: a in r <==> a in xs && p(a)
    ensures AscendingIds(xs) ==> AscendingIds(r)
    decreases |xs|
  {
    if |xs| == 0 then []
    else
      var rest := Filter(xs[1..], p);
      assert forall a :: a in xs[1..] ==> a in xs;
      FilterStepAscending(xs, rest);
      if p(xs[0]) then [xs[0]] + rest else rest
  }

  /** One step of `Where` on ascending input: the filtered tail stays
      ascending, with or without the head in front. */
  lemma FilterStepAscending(xs: seq<Asset>, rest: seq<Asset>)
    requires |xs| > 0
    requires forall a :: a in rest ==> a in xs[1..]
    requires AscendingIds(xs[1..]) ==> AscendingIds(rest)
    ensures AscendingIds(xs) ==> AscendingIds(rest) && AscendingIds([xs[0]] + rest)
  {
    if AscendingIds(xs) {
      assert AscendingIds(xs[1..]) by {
        forall i, j | 0 <= i < j < |xs[1..]| ensures xs[1..][i].id < xs[1..][j].id {
          assert xs[1..][i] == xs[i + 1] && xs[1..][j] == xs[j + 1];
        }
      }
      AscendingHead(xs);
      var r := [xs[0]] + rest;
      forall i, j | 0 <= i < j < |r| ensures r[i].id < r[j].id {
        assert r[j] == rest[j - 1] && rest[j - 1] in rest;
        if i > 0 {
          assert r[i] == rest[i - 1];
        }
      }
    }
  }

  /** `Where` keeps each satisfying element exactly as often as the input
      holds it, and keeps the input's order: it is the one subsequence of
      `xs` made of all the elements that satisfy `p`. */
  lemma {:induction false} FilterExact(xs: seq<Asset>, p: Asset -> bool)
    ensures forall a :: multiset(Filter(xs, p))[a] == (if p(a) then multiset(xs)[a] else 0)
    ensures IsSubsequence(Filter(xs, p), xs)
    decreases |xs|
  {
    if |xs| > 0 {
      FilterExact(xs[1..], p);
      var rest := Filter(xs[1..], p);
      assert xs == [xs[0]] + xs[1..];
      assert multiset(xs) == multiset([xs[0]]) + multiset(xs[1..]);
      if p(xs[0]) {
        assert Filter(xs, p) == [xs[0]] + rest;
        assert (Filter(xs, p))[1..] == rest;
      } else {
        assert Filter(xs, p) == rest;
      }
    }
  }

  /** `Find(Query.EQ("Name", name))`: the stored assets whose name equals
      `name`, compared case-sensitively. */
  function FindDocsByName(t: map<int, Asset>, name: string): (r: seq<Asset>)
    ensures forall a :: a in r <==> a in t.Values && a.name == name
    ensures KeyedById(t) ==> AscendingIds(r)
  {
    Filter(ListDocs(t), (a: Asset) => a.name == name)
  }

  /** While names are distinct, a lookup by name finds at most one asset. */
  lemma FindDocsByNameAtMostOne(t: map<int, Asset>, name: string)
    requires KeyedById(t) && NamesDistinct(t)
    ensures |FindDocsByName(t, name)| <= 1
  {
    var r := FindDocsByName(t, name);
    if |r| > 1 {
      var a, b := r[0], r[1];
      ValueKey(t, a);
      ValueKey(t, b);
      assert false;
    }
  }

  /** The first match of a lookup by name is the one with the least id. */
  lemma FindDocsByNameFirstIsLeast(t: map<int, Asset>, name: string, k: int)
    requires KeyedById(t)
    requires k in t && t[k].name == name
    ensures |FindDocsByName(t, name)| > 0
    ensures FindDocsByName(t, name)[0].id <= k
  {
    var r := FindDocsByName(t, name);
    assert t[k] in t.Values;
    assert t[k] in r;
    var j :| 0 <= j < |r| && r[j] == t[k];
    assert j == 0 || r[0].id < r[j].id;
  }

  /** `FindById`: the asset stored under `id`, or null. */
  function FindDocById(t: map<int, Asset>, id: int): (r: Option<Asset>)
    ensures r.None? <==> id !in t
    ensures r.Some? ==> r.value == t[id]
  {
    if id in t then Some(t[id]) else None
  }

  lemma CardinalitySplit(a: set<int>, b: set<int>)
    ensures |a| == |a - b| + |a * b|
  {
    assert a == (a - b) + (a * b);
    assert (a - b) * (a * b) == {};
  }

  /** `Delete(x => ids.Contains(x.Id))`: drops the records whose id is in
      `ids` and reports how many there were. */
  function DeleteDocs(c: Collection, ids: set<int>): (r: (Collection, nat))
    ensures r.0.table.Keys == c.table.Keys - ids
    ensures forall k :: k in r.0.table ==> r.0.table[k] == c.table[k]
    ensures r.0.sequence == c.sequence
    ensures r.1 + |r.0.table| == |c.table|
    ensures Wellformed(c) ==> Wellformed(r.0)
  {
    var kept := c.table - ids;
    assert kept.Keys == c.table.Keys - ids;
    CardinalitySplit(c.table.Keys, ids);
    (Collection(kept, c.sequence), |c.table.Keys * ids|)
  }

  /** Deleting the same ids a second time finds nothing more to delete. */
  lemma DeleteDocsIdempotent(c: Collection, ids: set<int>)
    ensures DeleteDocs(DeleteDocs(c, ids).0, ids) == (DeleteDocs(c, ids).0, 0)
  {
    var once := DeleteDocs(c, ids).0;
    var twice := DeleteDocs(once, ids).0;
    assert twice.table.Keys == once.table.Keys;
    assert twice.table == once.table;
  }

  datatype InsertOutcome =
    | Inserted(stored: seq<Asset>)   // the documents as stored, with their ids
    | DuplicateKey(id: int)          // the store refused the batch

  /** The id a document is stored under: the next id of the sequence when
      it asks for one with id 0, its own id otherwise. */
  function AssignedId(c: Collection, d: Asset): int {
    if d.id == 0 then c.sequence + 1 else d.id
  }

  /** The collection after storing `d` under its assigned id; the sequence
      moves up to that id. */
  function Placed(c: Collection, d: Asset): Collection {
    var id := AssignedId(c, d);
    Collection(c.table[id := d.(id := id)], if id > c.sequence then id else c.sequence)
  }

  /** `Insert(docs)`: stores each document in turn. An id already in use
      aborts the batch and nothing of it is stored. */
  function InsertDocs(c: Collection, docs: seq<Asset>): (r: (Collection, InsertOutcome))
    ensures r.1.DuplicateKey? ==> r.0 == c
    ensures r.1.Inserted? ==> |r.1.stored| == |docs| && c.table.Keys <= r.0.table.Keys
    decreases |docs|
  {
    if |docs| == 0 then (c, Inserted([]))
    else
      var id := AssignedId(c, docs[0]);
      if id in c.table then (c, DuplicateKey(id))
      else
        var rest := InsertDocs(Placed(c, docs[0]), docs[1..]);
        match rest.1
        case DuplicateKey(k) => (c, DuplicateKey(k))
        case Inserted(stored) => (rest.0, Inserted([docs[0].(id := id)] + stored))
  }

  /** Insertion keeps the collection well formed, and a refused batch
      leaves it as it was. */
  lemma {:induction false} InsertDocsWellformed(c: Collection, docs: seq<Asset>)
    requires Wellformed(c)
    ensures Wellformed(InsertDocs(c, docs).0)
    ensures InsertDocs(c, docs).1.DuplicateKey? ==> InsertDocs(c, docs).0 == c
    decreases |docs|
  {
    if |docs| > 0 && AssignedId(c, docs[0]) !in c.table {
      assert Wellformed(Placed(c, docs[0]));
      InsertDocsWellformed(Placed(c, docs[0]), docs[1..]);
    }
  }

  /** Only an explicitly given id can clash: a batch is refused for an id
      that one of its documents carries, never for a fresh one. */
  lemma {:induction false} InsertDocsRefusal(c: Collection, docs: seq<Asset>)
    requires Wellformed(c)
    ensures InsertDocs(c, docs).1.DuplicateKey? ==>
      exists i :: 0 <= i < |docs| && docs[i].id == InsertDocs(c, docs).1.id && docs[i].id != 0
    decreases |docs|
  {
    if |docs| > 0 {
      var id := AssignedId(c, docs[0]);
      if id in c.table {
        assert docs[0].id == id && id != 0;
      } else {
        var c1 := Placed(c, docs[0]);
        assert Wellformed(c1);
        InsertDocsRefusal(c1, docs[1..]);
        var rest := InsertDocs(c1, docs[1..]);
        if rest.1.DuplicateKey? {
          var i :| 0 <= i < |docs[1..]| && docs[1..][i].id == rest.1.id && docs[1..][i].id != 0;
          assert docs[i + 1].id == rest.1.id;
        }
      }
    }
  }

  /** A batch of documents that all ask for fresh ids is never refused. */
  lemma FreshBatchAccepted(c: Collection, docs: seq<Asset>)
    requires Wellformed(c)
    requires forall i :: 0 <= i < |docs| ==> docs[i].id == 0
    ensures InsertDocs(c, docs).1.Inserted?
  {
    InsertDocsRefusal(c, docs);
  }

  /** On success each document is stored under a non-zero id that was free
      before, an explicitly given id is kept, and the rest of the document
      is as submitted. */
  lemma {:induction false} InsertDocsStored(c: Collection, docs: seq<Asset>)
    requires Wellformed(c)
    ensures InsertDocs(c, docs).1.Inserted? ==>
      var after, stored := InsertDocs(c, docs).0, InsertDocs(c, docs).1.stored;
      && |stored| == |docs|
      && forall i :: 0 <= i < |docs| ==>
           && stored[i] == docs[i].(id := stored[i].id)
           && stored[i].id != 0 && stored[i].id !in c.table
           && (docs[i].id != 0 ==> stored[i].id == docs[i].id)
           && stored[i].id in after.table && after.table[stored[i].id] == stored[i]
    decreases |docs|
  {
    if |docs| > 0 && AssignedId(c, docs[0]) !in c.table {
      var c1 := Placed(c, docs[0]);
      assert Wellformed(c1);
      InsertDocsStored(c1, docs[1..]);
      InsertDocsWellformed(c1, docs[1..]);
      var rest := InsertDocs(c1, docs[1..]);
      if rest.1.Inserted? {
        var stored := InsertDocs(c, docs).1.stored;
        assert stored == [docs[0].(id := AssignedId(c, docs[0]))] + rest.1.stored;
        InsertKeepsStored(c1, docs[1..]);
        forall i | 0 <= i < |docs|
          ensures stored[i] == docs[i].(id := stored[i].id)
          ensures stored[i].id != 0 && stored[i].id !in c.table
          ensures docs[i].id != 0 ==> stored[i].id == docs[i].id
          ensures stored[i].id in rest.0.table && rest.0.table[stored[i].id] == stored[i]
        {
          if i > 0 {
            assert stored[i] == rest.1.stored[i - 1] && docs[i] == docs[1..][i - 1];
          }
        }
      }
    }
  }

  /** On success nothing already stored changes, the new ids are pairwise
      distinct, and the collection grows by exactly the batch size. */
  lemma {:induction false} InsertKeepsStored(c: Collection, docs: seq<Asset>)
    requires Wellformed(c)
    ensures InsertDocs(c, docs).1.Inserted? ==>
      var after, stored := InsertDocs(c, docs).0, InsertDocs(c, docs).1.stored;
      && |after.table| == |c.table| + |docs|
      && (forall k :: k in c.table ==> k in after.table && after.table[k] == c.table[k])
    decreases |docs|
  {
    if |docs| > 0 && AssignedId(c, docs[0]) !in c.table {
      var c1 := Placed(c, docs[0]);
      assert Wellformed(c1);
      InsertKeepsStored(c1, docs[1..]);
    }
  }

  /** On success the stored documents carry pairwise distinct ids. */
  lemma {:induction false} InsertDocsDistinctIds(c: Collection, docs: seq<Asset>)
    requires Wellformed(c)
    ensures InsertDocs(c, docs).1.Inserted? ==>
      var stored := InsertDocs(c, docs).1.stored;
      forall i, j :: 0 <= i < j < |stored| ==> stored[i].id != stored[j].id
    decreases |docs|
  {
    if |docs| > 0 && AssignedId(c, docs[0]) !in c.table {
      var c1 := Placed(c, docs[0]);
      assert Wellformed(c1);
      InsertDocsStored(c1, docs[1..]);
      InsertDocsDistinctIds(c1, docs[1..]);
      var rest := InsertDocs(c1, docs[1..]);
      if rest.1.Inserted? {
        var stored := InsertDocs(c, docs).1.stored;
        assert stored == [docs[0].(id := AssignedId(c, docs[0]))] + rest.1.stored;
        forall i, j | 0 <= i < j < |stored| ensures stored[i].id != stored[j].id {
          assert stored[j] == rest.1.stored[j - 1];
          if i > 0 {
            assert stored[i] == rest.1.stored[i - 1];
          }
        }
      }
    }
  }

  /** Replaces a record whose id is in use; an unknown id changes nothing. */
  function UpdateDoc(c: Collection, d: Asset): Collection {
    if d.id in c.table then Collection(c.table[d.id := d], c.sequence) else c
  }

  /** `Update(docs)`: overwrites the stored record of each document in turn. */
  function UpdateDocs(c: Collection, docs: seq<Asset>): (r: Collection)
    ensures r.table.Keys == c.table.Keys && r.sequence == c.sequence
    decreases |docs|
  {
    if |docs| == 0 then c else UpdateDocs(UpdateDoc(c, docs[0]), docs[1..])
  }

  /** The last of `docs` that carries `id`, if any. */
  function LastWithId(docs: seq<Asset>, id: int): (r: Option<Asset>)
    ensures r.Some? ==> r.value in docs && r.value.id == id
    ensures r.Some? ==>
      exists i :: 0 <= i < |docs| && docs[i] == r.value && forall j :: i < j < |docs| ==> docs[j].id != id
    ensures r.None? <==> forall i :: 0 <= i < |docs| ==> docs[i].id != id
    decreases |docs|
  {
    if |docs| == 0 then None
    else
      var later := LastWithId(docs[1..], id);
      assert forall i :: 1 <= i < |docs| ==> docs[i] == docs[1..][i - 1];
      if later.Some? then
        var i :| 0 <= i < |docs[1..]| && docs[1..][i] == later.value
          && forall j :: i < j < |docs[1..]| ==> docs[1..][j].id != id;
        assert docs[i + 1] == later.value;
        assert forall j :: i + 1 < j < |docs| ==> docs[j].id != id;
        later
      else if docs[0].id == id then
        assert forall j :: 0 < j < |docs| ==> docs[j].id != id;
        Some(docs[0])
      else None
  }

  /** Updating keeps the ids in use and the sequence; each stored record
      becomes the last submitted document with its id, or stays as it was
      when no document carries that id. */
  lemma {:induction false} UpdateDocsSpec(c: Collection, docs: seq<Asset>)
    requires Wellformed(c)
    ensures Wellformed(UpdateDocs(c, docs))
    ensures UpdateDocs(c, docs).sequence == c.sequence
    ensures UpdateDocs(c, docs).table.Keys == c.table.Keys
    ensures forall k :: k in c.table ==>
      UpdateDocs(c, docs).table[k] == (match LastWithId(docs, k) case Some(d) => d case None => c.table[k])
    decreases |docs|
  {
    if |docs| > 0 {
      var c1 := UpdateDoc(c, docs[0]);
      assert Wellformed(c1) && c1.table.Keys == c.table.Keys;
      UpdateDocsSpec(c1, docs[1..]);
    }
  }

  /** One command run against the open collection (the lambda passed to
      `DoCommands`). */
  datatype Command =
    | FindAll
    | FindByName(name: string)
    | FindById(id: int)
    | DeleteWhereIdIn(ids: set<int>)
    | Insert(docs: seq<Asset>)
    | Update(docs: seq<Asset>)

  datatype Reply =
    | Listed(assets: seq<Asset>)
    | Found(asset: Option<Asset>)
    | Deleted(count: nat)
    | InsertReply(outcome: InsertOutcome)
    | Done

  /** What a command does to the collection and what it returns. Queries
      leave the collection as it is, and every command keeps it well formed. */
  function Execute(c: Collection, cmd: Command): (r: (Collection, Reply))
    requires Wellformed(c)
    ensures Wellformed(r.0)
    ensures (cmd.FindAll? || cmd.FindByName? || cmd.FindById?) ==> r.0 == c
  {
    match cmd
    case FindAll => (c, Listed(ListDocs(c.table)))
    case FindByName(name) => (c, Listed(FindDocsByName(c.table, name)))
    case FindById(id) => (c, Found(FindDocById(c.table, id)))
    case DeleteWhereIdIn(ids) =>
      var (after, count) := DeleteDocs(c, ids);
      (after, Deleted(count))
    case Insert(docs) =>
      InsertDocsWellformed(c, docs);
      var (after, outcome) := InsertDocs(c, docs);
      (after, InsertReply(outcome))
    case Update(docs) =>
      UpdateDocsSpec(c, docs);
      (UpdateDocs(c, docs), Done)
  }

  /** The data-access object; its collection stands for the store file that
      the connection string names. */
  class Manager {
    var assets: Collection

    predicate Valid()
      reads this
    {
      Wellformed(assets)
    }

    /** A new, empty store. */
    constructor ()
      ensures Valid()
      ensures assets == Collection(map[], 0)
    {
      assets := Collection(map[], 0);
    }

    /** Runs one command against the collection. A null command does nothing
        and yields the default result (`None`). */
    method DoCommands(cmd: Option<Command>) returns (reply: Option<Reply>)
      requires Valid()
      modifies this
      ensures Valid()
      ensures cmd.None? ==> reply.None? && assets == old(assets)
      ensures cmd.Some? ==>
        assets == Execute(old(assets), cmd.value).0 && reply == Some(Execute(old(assets), cmd.value).1)
    {
      if cmd.None? {
        return None;
      }
      var (after, r) := Execute(assets, cmd.value);
      assets := after;
      reply := Some(r);
    }

    /** Every stored asset, in the order the store yields them. */
    method All() returns (r: seq<Asset>)
      requires Valid()
      modifies this
      ensures Valid() && assets == old(assets)
      ensures r == ListDocs(assets.table)
    {
      var reply := DoCommands(Some(FindAll));
      r := reply.value.assets;
    }

    /** The stored assets whose name equals `assetName`, case-sensitively. */
    method GetByName(assetName: string) returns (r: seq<Asset>)
      requires Valid()
      modifies this
      ensures Valid() && assets == old(assets)
      ensures r == FindDocsByName(assets.table, assetName)
    {
      var reply := DoCommands(Some(FindByName(assetName)));
      r := reply.value.assets;
    }

    /** The asset stored under `assetId`, or null. */
    method GetById(assetId: int) returns (r: Option<Asset>)
      requires Valid()
      modifies this
      ensures Valid() && assets == old(assets)
      ensures r == FindDocById(assets.table, assetId)
    {
      var reply := DoCommands(Some(FindById(assetId)));
      r := reply.value.asset;
    }

    /** Removes the assets whose id is listed; returns how many were removed. */
    method DeleteAssets(assetsIdToDelete: seq<int>) returns (count: nat)
      requires Valid()
      modifies this
      ensures Valid()
      ensures (assets, count) == DeleteDocs(old(assets), set id | id in assetsIdToDelete)
    {
      var reply := DoCommands(Some(DeleteWhereIdIn(set id | id in assetsIdToDelete)));
      count := reply.value.count;
    }

    /** The overload taking whole assets: deletes by their ids. */
    method DeleteAssetsByRecord(assetsToDelete: seq<Asset>) returns (count: nat)
      requires Valid()
      modifies this
      ensures Valid()
      ensures (assets, count) == DeleteDocs(old(assets), set id | id in Ids(assetsToDelete))
    {
      count := DeleteAssets(Ids(assetsToDelete));
    }

    /** Inserts the assets; returns them as stored, with their ids. */
    method InsertAssets(assetsToAdd: seq<Asset>) returns (outcome: InsertOutcome)
      requires Valid()
      modifies this
      ensures Valid()
      ensures (assets, outcome) == InsertDocs(old(assets), assetsToAdd)
    {
      var reply := DoCommands(Some(Insert(assetsToAdd)));
      outcome := reply.value.outcome;
    }

    /** Overwrites the stored record of each asset, by id. */
    method UpdateAssets(assetsToUpdate: seq<Asset>)
      requires Valid()
      modifies this
      ensures Valid()
      ensures assets == UpdateDocs(old(assets), assetsToUpdate)
    {
      var _ := DoCommands(Some(Update(assetsToUpdate)));
    }
  }
}
