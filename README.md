# AssetsDB in Dafny

AssetsDB is a small ASP.NET Core web service. It keeps a registry of tradable
assets. Each asset has an id, a short name, a long name, the exchanges it trades
on, some urls and a note. The assets live in a single "assets" collection of an
embedded LiteDB document store. The service exposes them under `api/v1`:

- list all assets;
- search by a case-insensitive substring of the name or the long name;
- look up by exact name;
- look up by id;
- create;
- update;
- delete by id.

This project models three parts of the service, each in its own module.

- **Entity** (`assets.dfy`, module `Assets`). `AssetOnXchgInfo` and `Asset` are
  datatypes. The model includes their default values and both `ToString`
  renderings.
- **Data-access layer** (`manager.dfy`, module `AssetsDBManager`).
  - The store is abstracted as a `Collection` value. It holds a map from id to
    asset, plus the last id the store handed out.
  - Each LiteDB command the layer issues is a function on that value, with its
    meaning proved: `FindAll`, `Find` by name, `FindById`, `Delete` by id set,
    `Insert` and `Update`.
  - The `Manager` class holds the current collection. Its methods (`All`,
    `GetByName`, `GetById`, both `DeleteAssets`, `InsertAssets`,
    `UpdateAssets`) go through `DoCommands`, as the C# class does. Each method is
    proved to leave the collection as those functions say.
  - A well-formedness invariant is kept by every command: each record sits under
    its own non-zero id, and no id exceeds the id sequence.
- **Controller** (`controller.dfy`, module `AssetsDBController`).
  - Each endpoint is specified as a function from the request and the collection
    to a status, a body and the next collection.
  - Each endpoint also has a method that does the same work through a `Manager`.
    The method is proved equal to its function.
  - `Handle` and `Serve` turn the endpoints into a state machine over request
    sequences. Well-formedness and "no two stored assets share a name" are proved
    to hold after any sequence of requests.

`strings.dfy` holds the .NET string operations the service calls (module
`Strings`) and an `Option` type (module `Wrappers`). `None` stands for a C#
null reference.

`InsertAssets` (`AssetsDB/AssetsDB/DB/AssetsDBManager.cs:56-59`) does no checking
of its own. LiteDB's `Insert` refuses an explicit id that is already in use, and
the model keeps that refusal as the `DuplicateKey` outcome.

## Model

| member | source | states |
|---|---|---|
| Strings.IsNullOrWhiteSpace | AssetsDB/AssetsDB/Controllers/AssetsDBController.cs:43 | holds for null, and for a string exactly when every character of it is white space (so also for the empty string) |
| Strings.IsNullOrEmpty | AssetsDB/AssetsDB/Controllers/AssetsDBController.cs:108-113 | holds exactly for the empty string (a null field is modelled as empty) |
| Strings.FoldCharEqual | AssetsDB/AssetsDB/Controllers/AssetsDBController.cs:49-50 | two characters are equal ignoring case exactly when they are the same, or one is an upper-case ASCII letter and the other its lower-case letter |
| Strings.FoldCharIdempotent | AssetsDB/AssetsDB/Controllers/AssetsDBController.cs:49-50 | folding a folded character changes nothing |
| Strings.ContainsIff | AssetsDB/AssetsDB/Controllers/AssetsDBController.cs:49-50 | ordinal `Contains` holds exactly when the substring occurs at some index |
| Strings.ContainsIgnoreCaseIff | AssetsDB/AssetsDB/Controllers/AssetsDBController.cs:49-50 | the case-insensitive `Contains` holds exactly when some window of the string equals the search string up to case |
| Strings.ContainsIgnoreCaseOfFolded | AssetsDB/AssetsDB/Controllers/AssetsDBController.cs:49-50 | a search string differing only in letter case finds the same strings |
| Strings.Join | AssetsDB/AssetsDB/DB/Asset.cs:45 | `string.Join` of no parts is empty, and otherwise starts with the first part |
| Strings.JoinLength | AssetsDB/AssetsDB/DB/Asset.cs:45 | `string.Join` output has the total length of the parts plus one separator between each pair of neighbours |
| Strings.TakeUntilPrefix | AssetsDB/AssetsDB/DB/Asset.cs:18 | scanning to the first separator character recovers a prefix free of it |
| Assets.NewAssetOnXchgInfo | AssetsDB/AssetsDB/DB/Asset.cs:11-14 | a fresh exchange entry has empty exchange and asset names |
| Assets.NewAsset | AssetsDB/AssetsDB/DB/Asset.cs:26-41 | a fresh asset has id 0, empty name, long name and note, and empty market and url lists |
| Assets.XchgInfoToString | AssetsDB/AssetsDB/DB/Asset.cs:16-19 | the rendering is the exchange name, then `::`, then the asset name, and nothing else |
| Assets.XchgInfoRoundTrip | AssetsDB/AssetsDB/DB/Asset.cs:16-19 | the `Exchange::Asset` rendering parses back to the same entry when the exchange name holds no `:` |
| Assets.AssetToString | AssetsDB/AssetsDB/DB/Asset.cs:43-46 | the rendering opens with `Name:`, the name and a space, ends with ` Note:` and the note, and holds at least the 36 label characters plus the name, long name and note |
| Assets.AssetToStringIgnoresId | AssetsDB/AssetsDB/DB/Asset.cs:43-46 | two assets that differ only in id render identically |
| Assets.AssetToStringRecoversName | AssetsDB/AssetsDB/DB/Asset.cs:43-46 | the rendering starts with `Name:`, and the name runs from there to the first space when it has none of its own |
| Assets.AssetToStringLength | AssetsDB/AssetsDB/DB/Asset.cs:43-46 | the rendering is 36 label characters plus the fields, the joined markets and urls, and their `:::` / `::` separators |
| Assets.NewAssetToString | AssetsDB/AssetsDB/DB/Asset.cs:29-46 | a fresh asset renders as its five labels with nothing after them |
| AssetsDBManager.Least | AssetsDB/AssetsDB/DB/AssetsDBManager.cs:17 | the least id of a non-empty id set belongs to it and is below every other |
| AssetsDBManager.SortedIds | AssetsDB/AssetsDB/DB/AssetsDBManager.cs:17 | the ids of the collection listed once each, strictly ascending (the id index order) |
| AssetsDBManager.ListDocs | AssetsDB/AssetsDB/DB/AssetsDBManager.cs:15-18 | `FindAll` yields one entry per stored record, exactly the stored assets, in ascending id order |
| AssetsDBManager.Filter | AssetsDB/AssetsDB/Controllers/AssetsDBController.cs:48-50 | LINQ `Where` keeps exactly the elements satisfying the predicate, never more than the input, and keeps id-ascending order |
| AssetsDBManager.FilterExact | AssetsDB/AssetsDB/Controllers/AssetsDBController.cs:48-50 | `Where` keeps every satisfying element exactly as often as the input holds it, drops the rest, and keeps the input's order (the result is a subsequence of the input) |
| AssetsDBManager.FindDocsByName | AssetsDB/AssetsDB/DB/AssetsDBManager.cs:25-31 | the lookup by name returns exactly the stored assets whose name equals the argument, case-sensitively, possibly none or several, in id order |
| AssetsDBManager.FindDocsByNameAtMostOne | AssetsDB/AssetsDB/DB/AssetsDBManager.cs:25-31 | while stored names are distinct, a lookup by name finds at most one asset |
| AssetsDBManager.FindDocsByNameFirstIsLeast | AssetsDB/AssetsDB/DB/AssetsDBManager.cs:25-31 | when some stored asset has the name, the lookup is non-empty and its first entry has the least id among them |
| AssetsDBManager.FindDocById | AssetsDB/AssetsDB/DB/AssetsDBManager.cs:34-40 | the lookup by id is null exactly when the id is not stored, otherwise the record stored under it |
| AssetsDBManager.DeleteDocs | AssetsDB/AssetsDB/DB/AssetsDBManager.cs:51-54 | deletion removes exactly the records whose id is in the set, leaves the others and the id sequence unchanged, reports the number actually removed, and keeps the collection well formed |
| AssetsDBManager.DeleteDocsIdempotent | AssetsDB/AssetsDB/DB/AssetsDBManager.cs:51-54 | deleting the same ids again changes nothing and reports 0 |
| AssetsDBManager.InsertDocs | AssetsDB/AssetsDB/DB/AssetsDBManager.cs:56-59 | `Insert` of a batch either stores one document per submitted one, keeping every earlier id, or refuses the batch and leaves the collection unchanged |
| AssetsDBManager.InsertDocsWellformed | AssetsDB/AssetsDB/DB/AssetsDBManager.cs:56-59 | insertion keeps the collection well formed, and a refused batch leaves it unchanged |
| AssetsDBManager.InsertDocsRefusal | AssetsDB/AssetsDB/DB/AssetsDBManager.cs:56-59 | a batch is refused only for a non-zero id that one of its documents carries explicitly |
| AssetsDBManager.FreshBatchAccepted | AssetsDB/AssetsDB/DB/AssetsDBManager.cs:56-59 | a batch whose documents all have id 0 is always inserted |
| AssetsDBManager.InsertDocsStored | AssetsDB/AssetsDB/DB/AssetsDBManager.cs:56-59 | on success, every document is stored as submitted under a non-zero id that was free before, keeping an explicit id |
| AssetsDBManager.InsertKeepsStored | AssetsDB/AssetsDB/DB/AssetsDBManager.cs:56-59 | on success, the collection grows by exactly the batch size and no earlier record changes |
| AssetsDBManager.InsertDocsDistinctIds | AssetsDB/AssetsDB/DB/AssetsDBManager.cs:56-59 | on success, the documents of one batch get pairwise distinct ids |
| AssetsDBManager.UpdateDocs | AssetsDB/AssetsDB/DB/AssetsDBManager.cs:61-64 | `Update` of a batch keeps the set of stored ids and the id sequence |
| AssetsDBManager.LastWithId | AssetsDB/AssetsDB/DB/AssetsDBManager.cs:61-64 | a document of the update batch carrying the id, with no later document carrying it; none exactly when no document carries it |
| AssetsDBManager.UpdateDocsSpec | AssetsDB/AssetsDB/DB/AssetsDBManager.cs:61-64 | update keeps the stored ids and the sequence; each record becomes the last submitted document with its id, or stays as it was; unknown ids are ignored |
| AssetsDBManager.Execute | AssetsDB/AssetsDB/DB/AssetsDBManager.cs:88-101 | every command keeps the collection well formed, and the three queries leave it unchanged |
| AssetsDBManager.Manager.constructor | AssetsDB/AssetsDB/DB/AssetsDBManager.cs:95-97 | opening a store that does not exist yet gives an empty, well-formed collection |
| AssetsDBManager.Manager.DoCommands | AssetsDB/AssetsDB/DB/AssetsDBManager.cs:74-101 | a null command changes nothing and yields the default result (`default(T)`: null for the queries, 0 for the delete count), modelled as `None`; otherwise the command runs against the collection |
| AssetsDBManager.Manager.All | AssetsDB/AssetsDB/DB/AssetsDBManager.cs:15-18 | returns `FindAll` of the collection and changes nothing |
| AssetsDBManager.Manager.GetByName | AssetsDB/AssetsDB/DB/AssetsDBManager.cs:25-31 | returns the exact-name lookup and changes nothing |
| AssetsDBManager.Manager.GetById | AssetsDB/AssetsDB/DB/AssetsDBManager.cs:34-40 | returns the id lookup (null when absent) and changes nothing |
| AssetsDBManager.Manager.DeleteAssets | AssetsDB/AssetsDB/DB/AssetsDBManager.cs:51-54 | removes the records whose id is listed and returns how many were removed |
| AssetsDBManager.Manager.DeleteAssetsByRecord | AssetsDB/AssetsDB/DB/AssetsDBManager.cs:46-49 | behaves as `DeleteAssets` applied to the given assets' ids |
| AssetsDBManager.Manager.InsertAssets | AssetsDB/AssetsDB/DB/AssetsDBManager.cs:56-59 | inserts the batch, with fresh ids for id 0, and returns the documents as stored |
| AssetsDBManager.Manager.UpdateAssets | AssetsDB/AssetsDB/DB/AssetsDBManager.cs:61-64 | overwrites the stored record of each given id and leaves the others |
| AssetsDBController.StatusCode | AssetsDB/AssetsDB/Controllers/AssetsDBController.cs:97-100 | the HTTP code of each result is 2xx exactly for OK and Created, and 4xx for every refusal (BadRequest, NotFound, Conflict, UnprocessableEntity) |
| AssetsDBController.GetAllResponse | AssetsDB/AssetsDB/Controllers/AssetsDBController.cs:27-32 | OK with exactly the stored assets, one entry per record |
| AssetsDBController.SearchResponse | AssetsDB/AssetsDB/Controllers/AssetsDBController.cs:41-53 | always OK; null content exactly when the search string is null or blank; otherwise exactly the stored assets whose name or long name contains it ignoring case, in store order |
| AssetsDBController.GetByNameResponse | AssetsDB/AssetsDB/Controllers/AssetsDBController.cs:62-66 | OK with exactly the stored assets of that name, each once, in ascending id order |
| AssetsDBController.GetByIdResponse | AssetsDB/AssetsDB/Controllers/AssetsDBController.cs:75-83 | NotFound (no body) exactly when the id is not stored, otherwise OK with the stored asset |
| AssetsDBController.AddAssetOutcome | AssetsDB/AssetsDB/Controllers/AssetsDBController.cs:101-128 | checks in order: null gives 400 with no body; empty name gives 422 with its message; empty long name gives 422 with its message, and 422 arises for nothing else; a stored asset of that name gives 409 with the least-id match. Every refusal leaves the store unchanged. Otherwise 201 with the payload stored under a fresh non-zero id, and nothing else changes. Distinct names are kept |
| AssetsDBController.ValidPayloadCreated | AssetsDB/AssetsDB/Controllers/AssetsDBController.cs:117-127 | a payload with a name and a long name, whose name no stored asset uses, always gets 201 |
| AssetsDBController.DeclaredStatusCodes | AssetsDB/AssetsDB/Controllers/AssetsDBController.cs:97-100 | a create answers only 201, 409, 422 or 400, and an update only 200, 404, 422 or 400, the codes the two endpoints declare (lines 97-100 and 141-144) |
| AssetsDBController.FirstMatchIsLeast | AssetsDB/AssetsDB/Controllers/AssetsDBController.cs:118-120 | the asset returned with a conflict has an id no greater than any stored asset of that name |
| AssetsDBController.NoMatchMeansNameFree | AssetsDB/AssetsDB/Controllers/AssetsDBController.cs:118-119 | an empty lookup by name means no stored asset has that name |
| AssetsDBController.Revised | AssetsDB/AssetsDB/Controllers/AssetsDBController.cs:161-164 | the revised record keeps the stored id and name and is otherwise the payload |
| AssetsDBController.UpdateAssetOutcome | AssetsDB/AssetsDB/Controllers/AssetsDBController.cs:145-170 | checks in order: null gives 400; unknown id gives 404 (even with an empty long name); empty long name gives 422 with its message. Every refusal leaves the store unchanged. On 200 the record keeps its id and its stored name; long name, markets, urls and note come from the payload; no other record or id changes. Distinct names are kept |
| AssetsDBController.DeleteByIdOutcome | AssetsDB/AssetsDB/Controllers/AssetsDBController.cs:183-188 | always OK; afterwards the id is absent, and every other record is unchanged |
| AssetsDBController.DeleteByIdIdempotent | AssetsDB/AssetsDB/Controllers/AssetsDBController.cs:183-188 | deleting an id twice gives the same store and response as deleting it once |
| AssetsDBController.Handle | AssetsDB/AssetsDB/Controllers/AssetsDBController.cs:26-188 | every request keeps the store well formed and its names distinct; the four reads change nothing |
| AssetsDBController.ServePreservesInvariant | AssetsDB/AssetsDB/Controllers/AssetsDBController.cs:117-127 | after any sequence of requests handled one at a time, no two stored assets share a name |
| AssetsDBController.CreateThenGet | AssetsDB/AssetsDB/Controllers/AssetsDBController.cs:123-127 | a created asset is found by its returned id, equal to the payload apart from the id |
| AssetsDBController.CreateTwiceConflicts | AssetsDB/AssetsDB/Controllers/AssetsDBController.cs:117-120 | a second create with the same name gets 409 carrying the asset stored by the first |
| AssetsDBController.UpdateKeepsName | AssetsDB/AssetsDB/Controllers/AssetsDBController.cs:161-167 | updating a created asset under another name keeps the original name and takes the new fields |
| AssetsDBController.GetAll | AssetsDB/AssetsDB/Controllers/AssetsDBController.cs:27-32 | answers as `GetAllResponse` and leaves the store unchanged |
| AssetsDBController.Search | AssetsDB/AssetsDB/Controllers/AssetsDBController.cs:41-53 | answers as `SearchResponse` and leaves the store unchanged; a blank search string returns before the store is opened |
| AssetsDBController.GetByName | AssetsDB/AssetsDB/Controllers/AssetsDBController.cs:62-66 | answers as `GetByNameResponse` and leaves the store unchanged |
| AssetsDBController.GetById | AssetsDB/AssetsDB/Controllers/AssetsDBController.cs:75-83 | answers as `GetByIdResponse` and leaves the store unchanged |
| AssetsDBController.AddAsset | AssetsDB/AssetsDB/Controllers/AssetsDBController.cs:101-128 | response and new store are those of `AddAssetOutcome` |
| AssetsDBController.UpdateAsset | AssetsDB/AssetsDB/Controllers/AssetsDBController.cs:145-170 | response and new store are those of `UpdateAssetOutcome` |
| AssetsDBController.DeleteById | AssetsDB/AssetsDB/Controllers/AssetsDBController.cs:183-188 | response and new store are those of `DeleteByIdOutcome` |

## Left out

- Store I/O is not modelled: opening and closing the LiteDB file in `DoCommands`, BSON mapping, and the static connection string. The `Manager` object's collection stands for the store file. `Startup.cs` (service registration, Swagger UI, reading the connection string from configuration) is not part of this model.
- LiteDB's auto-id: a fresh id is modelled as one more than the largest id handed out so far. The proofs use only that it is non-zero and not in use.
- A store exception is not modelled as an exception. LiteDB throws on an insert whose explicit id is taken. The model returns a `DuplicateKey` outcome and leaves the collection unchanged. This treats the batch as atomic, which the store's own transaction provides. Connection and disk failures are left out.
- HTTP framework details are left out: routing, the `Location` header that `CreatedAtRoute` adds, camelCase JSON, and ASP.NET turning `Ok(null)` into status 204. Responses are a status and a body.
- The controller's in-place edits are modelled as record updates. `value.Id = 0` becomes a copy with id 0. The four field assignments on `existingAsset` become `Revised`. The id that `Insert` writes back into the caller's object becomes the stored documents that `InsertAssets` returns. In the C# code `InsertAssets` returns nothing.
- Overloads: C# `DeleteAssets(params Asset[])` and `DoCommands(Action)` cannot share names in Dafny. They are `Manager.DeleteAssetsByRecord` and one `DoCommands` over an optional command.
- Concurrency is left out: the race between the name check and the insert under concurrent requests. Distinct names are proved only for requests handled one at a time.
- Strings.ContainsIgnoreCaseIff: case folding covers ASCII letters only, not the invariant culture's full Unicode rules.
- Null string fields and null lists inside a payload are modelled as empty. `string.IsNullOrEmpty` treats the null and empty cases alike. A null `Name` or `LongName` inside `Search`'s filter, which would throw in C#, is not modelled.
- Ids are unbounded integers. The 32-bit `int` of `Id` and overflow of the auto-id are left out.
- AssetsDBManager.FindDocsByName: the store's order among several assets of one name is taken to be ascending id, so the conflict answer is the least-id match.
- AssetsDBController.Search: the contract states only that the store is unchanged. "Returns before opening the store on a blank string" holds in the method body, not in the contract.
