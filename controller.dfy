/**
  The HTTP resource `api/v1`: list, search, get by name, get by id, create,
  update and delete of assets. Each endpoint is a function from the request
  and the collection to a response and the next collection (the
  specification), and a method that does the same work through the
  data-access object and is proved to agree with it.
 */
module AssetsDBController {
  import opened Wrappers
  import opened Strings
  import opened Assets
  import opened AssetsDBManager

  datatype Status = OK | Created | BadRequest | NotFound | Conflict | UnprocessableEntity

  /** The HTTP status code of each result kind: 2xx exactly for the two
      successes, 4xx for every refusal. */
  function StatusCode(s: Status): (code: int)
    ensures (s == OK || s == Created) <==> 200 <= code < 300
    ensures !(s == OK || s == Created) <==> 400 <= code < 500
  {
    match s
    case OK => 200
    case Created => 201
    case BadRequest => 400
    case NotFound => 404
    case Conflict => 409
    case UnprocessableEntity => 422
  }

  /** The payload of a response: none (`Ok()`, `NotFound()`), an explicit
      null (`Ok(null)`), one asset, a list of assets, or an error message. */
  datatype Body = NoBody | NullBody | One(asset: Asset) | Many(assets: seq<Asset>) | Text(message: string)

  datatype Response = Response(status: Status, body: Body)

  /** A response together with the collection the request leaves behind. */
  datatype Outcome = Outcome(response: Response, after: Collection)

  const NameRequired: string := "Name field cannot be empty."
  const LongNameRequired: string := "LongName field cannot be empty."

  /** The search criterion: the name or the long name contains the search
      string, ignoring case. */
  predicate Matches(a: Asset, searchString: string) {
    ContainsIgnoreCase(a.name, searchString) || ContainsIgnoreCase(a.longName, searchString)
  }

  /** `GET api/v1`: every stored asset, in store order. */
  function GetAllResponse(t: map<int, Asset>): (r: Response)
    ensures r.status == OK && r.body.Many?
    ensures |r.body.assets| == |t|
    ensures forall a :: a in r.body.assets <==> a in t.Values
  {
    Response(OK, Many(ListDocs(t)))
  }

  /** `GET api/v1/search/{searchString}`. A null or blank search string gives
      an OK with null content whatever is stored; otherwise exactly the
      stored assets that match, in store order. */
  function SearchResponse(t: map<int, Asset>, searchString: Option<string>): (r: Response)
    ensures r.status == OK
    ensures IsNullOrWhiteSpace(searchString) <==> r.body == NullBody
    ensures !IsNullOrWhiteSpace(searchString) ==>
      && r.body.Many?
      && (forall a :: a in r.body.assets <==> a in t.Values && Matches(a, searchString.value))
      && (KeyedById(t) ==> AscendingIds(r.body.assets))
  {
    if IsNullOrWhiteSpace(searchString) then Response(OK, NullBody)
    else
      var q := searchString.value;
      Response(OK, Many(Filter(ListDocs(t), (a: Asset) => Matches(a, q))))
  }

  /** `GET api/v1/{assetName}`: the assets with exactly that name, possibly none. */
  function GetByNameResponse(t: map<int, Asset>, assetName: string): (r: Response)
    ensures r.status == OK && r.body.Many?
    ensures forall a :: a in r.body.assets <==> a in t.Values && a.name == assetName
    ensures KeyedById(t) ==> AscendingIds(r.body.assets)
  {
    Response(OK, Many(FindDocsByName(t, assetName)))
  }

  /** `GET api/v1/{assetId}`: NotFound exactly when no asset has that id. */
  function GetByIdResponse(t: map<int, Asset>, assetId: int): (r: Response)
    ensures r.status == NotFound <==> assetId !in t
    ensures r.status == NotFound ==> r.body == NoBody
    ensures r.status != NotFound ==> r == Response(OK, One(t[assetId]))
  {
    match FindDocById(t, assetId)
    case None => Response(NotFound, NoBody)
    case Some(a) => Response(OK, One(a))
  }

  /** `POST api/v1`. Checks, in order: payload present, name given, long
      name given, name not yet in use; only then inserts the payload with
      id 0 so that the store assigns a fresh id. Every refusal leaves the
      collection unchanged; a conflict returns the stored asset of that
      name with the least id; success adds exactly the payload under a new
      non-zero id and keeps names distinct. */
  function AddAssetOutcome(c: Collection, value: Option<Asset>): (o: Outcome)
    requires Wellformed(c)
    ensures Wellformed(o.after)
    ensures o.response.status in {BadRequest, UnprocessableEntity, Conflict, Created}
    ensures o.response.status == BadRequest <==> value.None?
    ensures o.response.status == BadRequest ==> o.response.body == NoBody
    ensures o.response.status == UnprocessableEntity ==>
      value.Some? && (IsNullOrEmpty(value.value.name) || IsNullOrEmpty(value.value.longName))
    ensures value.Some? && IsNullOrEmpty(value.value.name) ==>
      o.response == Response(UnprocessableEntity, Text(NameRequired))
    ensures value.Some? && !IsNullOrEmpty(value.value.name) && IsNullOrEmpty(value.value.longName) ==>
      o.response == Response(UnprocessableEntity, Text(LongNameRequired))
    ensures o.response.status == Conflict <==>
      && value.Some? && !IsNullOrEmpty(value.value.name) && !IsNullOrEmpty(value.value.longName)
      && exists k :: k in c.table && c.table[k].name == value.value.name
    ensures o.response.status == Conflict ==>
      && o.response.body.One?
      && o.response.body.asset.id in c.table
      && c.table[o.response.body.asset.id] == o.response.body.asset
      && o.response.body.asset.name == value.value.name
      && forall k :: k in c.table && c.table[k].name == value.value.name ==> o.response.body.asset.id <= k
    ensures o.response.status != Created ==> o.after == c
    ensures o.response.status == Created ==>
      && o.response.body.One?
      && var created := o.response.body.asset;
      && created == value.value.(id := created.id)
      && created.id != 0 && created.id !in c.table
      && o.after.table == c.table[created.id := created]
    ensures NamesDistinct(c.table) ==> NamesDistinct(o.after.table)
  {
    if value.None? then Outcome(Response(BadRequest, NoBody), c)
    else
      var v := value.value;
      if IsNullOrEmpty(v.name) then Outcome(Response(UnprocessableEntity, Text(NameRequired)), c)
      else if IsNullOrEmpty(v.longName) then Outcome(Response(UnprocessableEntity, Text(LongNameRequired)), c)
      else
        var existing := FindDocsByName(c.table, v.name);
        if |existing| > 0 then
          var first := existing[0];
          assert first in existing;
          ValueKey(c.table, first);
          FirstMatchIsLeast(c.table, v.name);
          Outcome(Response(Conflict, One(first)), c)
        else
          NoMatchMeansNameFree(c.table, v.name);
          var payload := v.(id := 0);
          FreshBatchAccepted(c, [payload]);
          InsertDocsWellformed(c, [payload]);
          InsertDocsStored(c, [payload]);
          var (after, outcome) := InsertDocs(c, [payload]);
          var created := outcome.stored[0];
          assert after.table == c.table[created.id := created];
          Outcome(Response(Created, One(created)), after)
  }

  /** A payload with a name and a long name, whose name no stored asset
      uses, is always created. */
  lemma ValidPayloadCreated(c: Collection, v: Asset)
    requires Wellformed(c)
    requires !IsNullOrEmpty(v.name) && !IsNullOrEmpty(v.longName)
    requires forall k :: k in c.table ==> c.table[k].name != v.name
    ensures AddAssetOutcome(c, Some(v)).response.status == Created
  {
    var o := AddAssetOutcome(c, Some(v));
    assert o.response.status != Conflict;
  }

  /** Create and update answer only with the HTTP codes their endpoints
      declare: 201, 409, 422 or 400 for a create, and 200, 404, 422 or 400
      for an update. */
  lemma DeclaredStatusCodes(c: Collection, value: Option<Asset>)
    requires Wellformed(c)
    ensures StatusCode(AddAssetOutcome(c, value).response.status) in {201, 409, 422, 400}
    ensures StatusCode(UpdateAssetOutcome(c, value).response.status) in {200, 404, 422, 400}
  {
  }

  /** The least-id property of the conflict answer, for every stored asset of that name. */
  lemma FirstMatchIsLeast(t: map<int, Asset>, name: string)
    requires KeyedById(t)
    requires |FindDocsByName(t, name)| > 0
    ensures forall k :: k in t && t[k].name == name ==> FindDocsByName(t, name)[0].id <= k
  {
    forall k | k in t && t[k].name == name ensures FindDocsByName(t, name)[0].id <= k {
      FindDocsByNameFirstIsLeast(t, name, k);
    }
  }

  lemma NoMatchMeansNameFree(t: map<int, Asset>, name: string)
    requires |FindDocsByName(t, name)| == 0
    ensures forall k :: k in t ==> t[k].name != name
  {
    forall k | k in t ensures t[k].name != name {
      assert t[k] in t.Values;
      assert t[k] in FindDocsByName(t, name) <==> t[k].name == name;
    }
  }

  /** The stored record with the four replaceable fields taken from the payload. */
  function Revised(existing: Asset, value: Asset): (r: Asset)
    ensures r.id == existing.id && r.name == existing.name
    ensures r.(id := value.id, name := value.name) == value
  {
    existing.(longName := value.longName, marketsInfo := value.marketsInfo, urls := value.urls, note := value.note)
  }

  /** `PUT api/v1`. Checks, in order: payload present, id stored, long name
      given; so an unknown id with an empty long name is NotFound. Every
      refusal leaves the collection unchanged. On success the record keeps
      its id and its name whatever the payload says, takes the long name,
      markets, urls and note of the payload wholesale, and no other record
      changes. */
  function UpdateAssetOutcome(c: Collection, value: Option<Asset>): (o: Outcome)
    requires Wellformed(c)
    ensures Wellformed(o.after)
    ensures o.response.status in {BadRequest, NotFound, UnprocessableEntity, OK}
    ensures o.response.status == BadRequest <==> value.None?
    ensures o.response.status == NotFound <==> value.Some? && value.value.id !in c.table
    ensures o.response.status == UnprocessableEntity <==>
      value.Some? && value.value.id in c.table && IsNullOrEmpty(value.value.longName)
    ensures o.response.status == UnprocessableEntity ==> o.response.body == Text(LongNameRequired)
    ensures o.response.status != UnprocessableEntity ==> o.response.body == NoBody
    ensures o.response.status != OK ==> o.after == c
    ensures o.response.status == OK ==>
      var v, id := value.value, value.value.id;
      && o.after.sequence == c.sequence
      && o.after.table.Keys == c.table.Keys
      && o.after.table[id].id == id
      && o.after.table[id].name == c.table[id].name
      && o.after.table[id].longName == v.longName
      && o.after.table[id].marketsInfo == v.marketsInfo
      && o.after.table[id].urls == v.urls
      && o.after.table[id].note == v.note
      && forall k :: k in c.table && k != id ==> o.after.table[k] == c.table[k]
    ensures NamesDistinct(c.table) ==> NamesDistinct(o.after.table)
  {
    if value.None? then Outcome(Response(BadRequest, NoBody), c)
    else
      var v := value.value;
      match FindDocById(c.table, v.id)
      case None => Outcome(Response(NotFound, NoBody), c)
      case Some(existing) =>
        if IsNullOrEmpty(v.longName) then Outcome(Response(UnprocessableEntity, Text(LongNameRequired)), c)
        else
          var revised := Revised(existing, v);
          UpdateDocsSpec(c, [revised]);
          assert LastWithId([revised], v.id) == Some(revised);
          var after := UpdateDocs(c, [revised]);
          assert forall k :: k in c.table && k != v.id ==> LastWithId([revised], k).None?;
          Outcome(Response(OK, NoBody), after)
  }

  /** `DELETE api/v1/{assetId}`: always OK; afterwards no record has that id
      and every other record is as before. */
  function DeleteByIdOutcome(c: Collection, assetId: int): (o: Outcome)
    requires Wellformed(c)
    ensures o.response == Response(OK, NoBody)
    ensures Wellformed(o.after)
    ensures assetId !in o.after.table
    ensures o.after.table.Keys == c.table.Keys - {assetId}
    ensures forall k :: k in o.after.table ==> o.after.table[k] == c.table[k]
    ensures NamesDistinct(c.table) ==> NamesDistinct(o.after.table)
  {
    Outcome(Response(OK, NoBody), DeleteDocs(c, {assetId}).0)
  }

  /** Deleting an id twice leaves the same collection, and the same answer,
      as deleting it once. */
  lemma DeleteByIdIdempotent(c: Collection, assetId: int)
    requires Wellformed(c)
    ensures DeleteByIdOutcome(DeleteByIdOutcome(c, assetId).after, assetId) == DeleteByIdOutcome(c, assetId)
  {
    DeleteDocsIdempotent(c, {assetId});
  }

  /** A request to the resource, as routed. */
  datatype Request =
    | ListAll
    | SearchFor(searchString: Option<string>)
    | ByName(assetName: string)
    | ById(assetId: int)
    | Create(value: Option<Asset>)
    | Replace(value: Option<Asset>)
    | Remove(assetId: int)

  /** One request handled against the collection. Reads change nothing;
      every request keeps the collection well formed and its names distinct. */
  function Handle(c: Collection, req: Request): (o: Outcome)
    requires Wellformed(c)
    ensures Wellformed(o.after)
    ensures NamesDistinct(c.table) ==> NamesDistinct(o.after.table)
    ensures (req.ListAll? || req.SearchFor? || req.ByName? || req.ById?) ==> o.after == c
  {
    match req
    case ListAll => Outcome(GetAllResponse(c.table), c)
    case SearchFor(q) => Outcome(SearchResponse(c.table, q), c)
    case ByName(n) => Outcome(GetByNameResponse(c.table, n), c)
    case ById(id) => Outcome(GetByIdResponse(c.table, id), c)
    case Create(v) => AddAssetOutcome(c, v)
    case Replace(v) => UpdateAssetOutcome(c, v)
    case Remove(id) => DeleteByIdOutcome(c, id)
  }

  /** The collection after handling `reqs` one after another. */
  function Serve(c: Collection, reqs: seq<Request>): Collection
    requires Wellformed(c)
    decreases |reqs|
  {
    if |reqs| == 0 then c else Serve(Handle(c, reqs[0]).after, reqs[1..])
  }

  /** Handled one at a time, any sequence of requests keeps the collection
      well formed and leaves no two stored assets with the same name. */
  lemma {:induction false} ServePreservesInvariant(c: Collection, reqs: seq<Request>)
    requires Wellformed(c) && NamesDistinct(c.table)
    ensures Wellformed(Serve(c, reqs)) && NamesDistinct(Serve(c, reqs).table)
    decreases |reqs|
  {
    if |reqs| > 0 {
      ServePreservesInvariant(Handle(c, reqs[0]).after, reqs[1..]);
    }
  }

  /** A created asset can be read back by its new id, equal to the payload
      except for the id. */
  lemma CreateThenGet(c: Collection, v: Asset)
    requires Wellformed(c)
    requires AddAssetOutcome(c, Some(v)).response.status == Created
    ensures
      var o := AddAssetOutcome(c, Some(v));
      var id := o.response.body.asset.id;
      id != 0 && GetByIdResponse(o.after.table, id) == Response(OK, One(v.(id := id)))
  {
  }

  /** After a successful create, a second create with the same name is a
      conflict that carries the asset stored by the first. */
  lemma CreateTwiceConflicts(c: Collection, v: Asset, w: Asset)
    requires Wellformed(c)
    requires AddAssetOutcome(c, Some(v)).response.status == Created
    requires w.name == v.name && !IsNullOrEmpty(w.longName)
    ensures
      var first := AddAssetOutcome(c, Some(v));
      AddAssetOutcome(first.after, Some(w)).response == Response(Conflict, One(first.response.body.asset))
  {
    var first := AddAssetOutcome(c, Some(v));
    var created := first.response.body.asset;
    var t := first.after.table;
    assert created.id in t && t[created.id].name == w.name;
    var second := AddAssetOutcome(first.after, Some(w));
    assert second.response.status == Conflict;
    var found := second.response.body.asset;
    assert found.id in t && t[found.id].name == w.name;
    assert t == c.table[created.id := created];
    assert forall k :: k in c.table ==> c.table[k].name != v.name;
    SoleHolder(c.table, created, found.id);
  }

  /** After adding `created` to a table in which no record has its name,
      it is the only record with that name. */
  lemma SoleHolder(t: map<int, Asset>, created: Asset, id: int)
    requires forall k :: k in t ==> t[k].name != created.name
    requires id in t[created.id := created] && t[created.id := created][id].name == created.name
    ensures id == created.id
  {
  }

  /** Creating an asset and then updating it by id with another name keeps
      the original name and takes the new long name. */
  lemma UpdateKeepsName(c: Collection, v: Asset, u: Asset)
    requires Wellformed(c)
    requires AddAssetOutcome(c, Some(v)).response.status == Created
    requires u.id == AddAssetOutcome(c, Some(v)).response.body.asset.id
    requires !IsNullOrEmpty(u.longName)
    ensures
      var first := AddAssetOutcome(c, Some(v));
      var second := UpdateAssetOutcome(first.after, Some(u));
      && second.response == Response(OK, NoBody)
      && GetByIdResponse(second.after.table, u.id)
         == Response(OK, One(Asset(u.id, v.name, u.longName, u.marketsInfo, u.urls, u.note)))
  {
  }

  /** `GET api/v1`. */
  method GetAll(db: Manager) returns (r: Response)
    requires db.Valid()
    modifies db
    ensures db.Valid() && db.assets == old(db.assets)
    ensures r == GetAllResponse(db.assets.table)
  {
    var result := db.All();
    r := Response(OK, Many(result));
  }

  /** `GET api/v1/search/{searchString}`; a blank search string answers
      before the store is opened. */
  method Search(db: Manager, searchString: Option<string>) returns (r: Response)
    requires db.Valid()
    modifies db
    ensures db.Valid() && db.assets == old(db.assets)
    ensures r == SearchResponse(db.assets.table, searchString)
  {
    if IsNullOrWhiteSpace(searchString) {
      return Response(OK, NullBody);
    }
    var q := searchString.value;
    var allAssets := db.All();
    var searchResult := Filter(allAssets, (a: Asset) => Matches(a, q));
    r := Response(OK, Many(searchResult));
  }

  /** `GET api/v1/{assetName}`. */
  method GetByName(db: Manager, assetName: string) returns (r: Response)
    requires db.Valid()
    modifies db
    ensures db.Valid() && db.assets == old(db.assets)
    ensures r == GetByNameResponse(db.assets.table, assetName)
  {
    var result := db.GetByName(assetName);
    r := Response(OK, Many(result));
  }

  /** `GET api/v1/{assetId}`. */
  method GetById(db: Manager, assetId: int) returns (r: Response)
    requires db.Valid()
    modifies db
    ensures db.Valid() && db.assets == old(db.assets)
    ensures r == GetByIdResponse(db.assets.table, assetId)
  {
    var result := db.GetById(assetId);
    if result.None? {
      return Response(NotFound, NoBody);
    }
    r := Response(OK, One(result.value));
  }

  /** `POST api/v1`. */
  method AddAsset(db: Manager, value: Option<Asset>) returns (r: Response)
    requires db.Valid()
    modifies db
    ensures db.Valid()
    ensures Outcome(r, db.assets) == AddAssetOutcome(old(db.assets), value)
  {
    if value.None? {
      return Response(BadRequest, NoBody);
    }
    var v := value.value;
    if IsNullOrEmpty(v.name) {
      return Response(UnprocessableEntity, Text(NameRequired));
    }
    if IsNullOrEmpty(v.longName) {
      return Response(UnprocessableEntity, Text(LongNameRequired));
    }
    var existingAssets := db.GetByName(v.name);
    if |existingAssets| > 0 {
      return Response(Conflict, One(existingAssets[0]));
    }
    v := v.(id := 0);
    FreshBatchAccepted(db.assets, [v]);
    InsertDocsStored(db.assets, [v]);
    var outcome := db.InsertAssets([v]);
    r := Response(Created, One(outcome.stored[0]));
  }

  /** `PUT api/v1`. */
  method UpdateAsset(db: Manager, value: Option<Asset>) returns (r: Response)
    requires db.Valid()
    modifies db
    ensures db.Valid()
    ensures Outcome(r, db.assets) == UpdateAssetOutcome(old(db.assets), value)
  {
    if value.None? {
      return Response(BadRequest, NoBody);
    }
    var v := value.value;
    var existingAsset := db.GetById(v.id);
    if existingAsset.None? {
      return Response(NotFound, NoBody);
    }
    if IsNullOrEmpty(v.longName) {
      return Response(UnprocessableEntity, Text(LongNameRequired));
    }
    var revised := Revised(existingAsset.value, v);
    db.UpdateAssets([revised]);
    r := Response(OK, NoBody);
  }

  /** `DELETE api/v1/{assetId}`. */
  method DeleteById(db: Manager, assetId: int) returns (r: Response)
    requires db.Valid()
    modifies db
    ensures db.Valid()
    ensures Outcome(r, db.assets) == DeleteByIdOutcome(old(db.assets), assetId)
  {
    assert (set id | id in [assetId]) == {assetId};
    var _ := db.DeleteAssets([assetId]);
    r := Response(OK, NoBody);
  }
}
