# mcp-memory storage, modelled in Dafny

This project models the storage layer of mcp-memory (`mcp_memory/storage.py`).
The store keeps memories in a vector database, one collection per project.
Collections are named `memories_<normalised project>`. It offers four
operations:

- `store`: add a memory;
- `recall`: similarity search, ranked by relevance and optionally thresholded;
- `forget`: delete by ids, by whole project, or by tags;
- `list_memories`: newest first, paginated, with per-project counts.

The vector database's client is a value: an ordered list of collection names
plus a map from name to records (`Chroma.Client`). A record is an id, a
document and a metadata map. `Storage.MemoryStore` is a class whose field
`client` its methods update in place, as the Python methods update
`self._client`.

Each method is proved equal to a specification function of the client it
started from (`Touch`, `Stored`, `RecallSpec`, `ForgetSpec`, `ListSpec`), and
keeps the store invariant `Inv`:

- every collection with the prefix carries a canonical project name;
- each of its records is readable, has a non-empty document, and sits in the
  collection of its own project;
- ids are unique within a collection, and no two memory collections share
  an id;
- every tag flag a record's metadata sets reads back among its tags when the
  comma-joined `tags` string can carry it (non-empty, without a comma).

What the operations promise is proved as lemmas about those functions. They
are grouped by operation in `store_props.dfy`, `recall_props.dfy`,
`forget_props.dfy` and `list_props.dfy`. `workflows.dfy` runs one operation
on the client another one left behind.

Modules:

| file | module | what it holds |
|---|---|---|
| `wrappers.dfy` | `Wrappers` | `Option`, `Result`, Python truthiness of an optional list |
| `seqs.dfy` | `Seqs` | `Distinct` |
| `strings.dfy` | `Strings` | string order, `join`/`split`, `str(int)`/`int(str)` |
| `sorting.dfy` | `Sorting` | Python's stable sort, sortedness and permutation |
| `chroma.dfy` | `Chroma` | records, `where` filters, the client and its calls |
| `models.dfy` | `Models` | `Memory`, `RecallResult` |
| `naming.dfy` | `Naming` | `_collection_name`, `_list_project_names` |
| `tagcodec.dfy` | `TagCodec` | `_tags_to_metadata`, `_metadata_to_tags`, `_build_tag_filter` |
| `storage.dfy` | `Storage` | `_memory_from_chroma`, the invariant, the specification functions, `MemoryStore` |
| `store_props.dfy`, `recall_props.dfy`, `forget_props.dfy`, `list_props.dfy` | `StoreProps`, `RecallProps`, `ForgetProps`, `ListProps` | what each operation promises |
| `workflows.dfy` | `Workflows` | sequences of calls |

## Model

| member | source | states |
|---|---|---|
| Naming.NormalizeIdempotent | mcp_memory/storage.py:14-16 | normalising a normalised project name changes nothing |
| Naming.CollectionNameRoundTrip | mcp_memory/storage.py:59-62 | a collection name has the `memories_` prefix; stripping it and mapping again gives the same collection name |
| Naming.SameCollection | mcp_memory/storage.py:14-16 | two project names share a collection if and only if they have equal length and agree at every position once `-`, space and case are folded |
| Naming.CanonicalNamesDistinct | mcp_memory/storage.py:14-16 | distinct already-normalised names give distinct collections |
| Naming.ProjectNames | mcp_memory/storage.py:59-62 | `p` is listed exactly when `memories_` + `p` is a collection name; the list is no longer than the listing |
| Naming.ProjectNamesDistinct | mcp_memory/storage.py:59-62 | a listing without repeats gives project names without repeats |
| Strings.LexLeTotal | mcp_memory/storage.py:236 | any two strings are comparable in Python's string order |
| Strings.LexLeTransitive | mcp_memory/storage.py:236 | the string order is transitive |
| Strings.LexLeAntisymmetric | mcp_memory/storage.py:236 | two strings each at most the other are equal |
| Strings.SplitJoin | mcp_memory/storage.py:19-30 | splitting the comma-joined list of comma-free strings gives back the list |
| Strings.SplitJoinKeepsPiece | mcp_memory/storage.py:19-30 | a comma-free string of the list is among the pieces of the comma-joined list, whatever the other strings hold |
| Strings.ParseInt | mcp_memory/storage.py:44 | `int(s)` succeeds exactly on an optional sign followed by at least one ASCII digit |
| Strings.ParseDecimal | mcp_memory/storage.py:44 | `int(str(i)) == i` |
| Sorting.SortPermutes | mcp_memory/storage.py:154 | the sorted list holds the same elements, each as often |
| Sorting.SortSorted | mcp_memory/storage.py:154 | for a total preorder, the result is sorted |
| Sorting.SortDistinctBy | mcp_memory/storage.py:236 | sorting keeps the keys of the elements distinct |
| Sorting.PrefixDominates | mcp_memory/storage.py:155 | in a sorted list, everything in a prefix may precede everything after it |
| Chroma.Matching | mcp_memory/storage.py:196 | `get(where=f)` returns exactly the records that match `f` |
| Chroma.WithIds | mcp_memory/storage.py:172 | `get(ids=ids)` returns exactly the records whose id is listed |
| Chroma.WithoutIds | mcp_memory/storage.py:175 | after `delete(ids=ids)`, exactly the records whose id is not listed remain |
| Chroma.MatchingDistinct | mcp_memory/storage.py:196 | records fetched by a filter from a collection with distinct ids have distinct ids |
| Chroma.WithIdsDistinct | mcp_memory/storage.py:172 | records fetched by ids from a collection with distinct ids have distinct ids |
| Chroma.WithoutIdsDistinct | mcp_memory/storage.py:175 | deleting ids keeps the remaining ids distinct |
| Chroma.InIds | mcp_memory/storage.py:173 | an id is among the ids of some records if and only if one of them has it |
| Chroma.GetOrCreate | mcp_memory/storage.py:53-57 | the collection exists afterwards with its old contents (or empty); no other collection changes; the listing stays consistent |
| Chroma.DeleteCollection | mcp_memory/storage.py:185 | the named collection leaves both the map and the listing; every other collection and listed name stays; the listing stays consistent |
| TagCodec.SortTagsOrders | mcp_memory/storage.py:20 | `sorted(tags)` is a sorted permutation of the tags |
| TagCodec.TagsToMetadata | mcp_memory/storage.py:19-23 | the loop builds exactly the `tags` key plus one flag per tag |
| TagCodec.TagMetadataContents | mcp_memory/storage.py:19-23 | the keys are `tags` and the flag keys; `tags` holds the sorted tags joined by commas; every tag's flag is set |
| TagCodec.FlagsAreTags | mcp_memory/storage.py:21-22 | a tag's flag is set if and only if the tag was given |
| TagCodec.TagRoundTrip | mcp_memory/storage.py:19-30 | for non-empty, comma-free tags, reading the tags back gives `sorted(tags)`; no tags read back as `[]` |
| TagCodec.BuildTagFilter | mcp_memory/storage.py:245-254 | a filter exists if and only if tags are given |
| TagCodec.TagFilterMatches | mcp_memory/storage.py:245-254 | a record matches the filter if and only if it carries the flag of every given tag |
| Storage.MemoryFromChroma | mcp_memory/storage.py:33-46 | metadata as `store` writes it always reads back without error |
| Storage.MemoryFromChromaDefaults | mcp_memory/storage.py:33-46 | id and document pass through; each missing key reads as its own default, key by key: project `"global"`, tags `[]`, source `""`, timestamp `""`, importance 3 (never an error); empty metadata reads as all of them; an unparsable importance string is the error; a parsable one is its value |
| Storage.MemoryOfFields | mcp_memory/storage.py:38-46 | a well-formed record reads back field for field |
| Storage.StoreMetadataFields | mcp_memory/storage.py:76-82 | the written metadata keeps project, source, importance and timestamp beside the tag keys, and sets every tag's flag |
| Storage.NewRecordPlaced | mcp_memory/storage.py:76-89 | the record `store` adds is well formed and lands in its project's collection |
| Storage.CollectionPlaced | mcp_memory/storage.py:84 | under the invariant, any project's collection holds only records placed there, with unique ids |
| Storage.ApartIds | mcp_memory/storage.py:72-89 | under the invariant, records of two different projects' collections never share an id |
| Storage.TargetsSeparate | mcp_memory/storage.py:109 | the projects an operation fans out over never share a collection |
| Storage.GetOrCreateKeepsInv | mcp_memory/storage.py:53-57 | creating a project's collection keeps the invariant |
| Storage.ProjectNamesOfStore | mcp_memory/storage.py:59-62 | each listed project maps back to its own collection; every memory collection is listed; no two listed projects share a collection |
| Storage.TouchKeepsContents | mcp_memory/storage.py:53-57 | `_get_collection` calls change no collection's contents |
| Storage.TouchKeepsInv | mcp_memory/storage.py:53-57 | `_get_collection` calls keep the invariant |
| Storage.StoredKeepsInv | mcp_memory/storage.py:84-89 | adding a placed record with a fresh id keeps the invariant |
| Storage.AddKeepsInv | mcp_memory/storage.py:85-89 | `collection.add` of a placed record with a fresh id to an existing memory collection keeps the invariant |
| Storage.StoredFlagReadsBack | mcp_memory/storage.py:76-82 | a flag set in the metadata `store` writes is one of the given tags, and such a tag reads back among the joined tags when the codec can carry it |
| Storage.DeleteIdsKeepsInv | mcp_memory/storage.py:175 | deleting ids keeps the invariant |
| Storage.DeleteCollectionKeepsInv | mcp_memory/storage.py:185 | deleting a collection keeps the invariant |
| Storage.PurgeKeepsInv | mcp_memory/storage.py:168-200 | the fan-out deletion of `forget` keeps the invariant |
| Storage.Head | mcp_memory/storage.py:155 | `s[:n]` has `min(n, len(s))` elements for `n >= 0` and `max(len(s) + n, 0)` for `n < 0`; each is the element at the same index of `s` |
| Storage.PageStartIsProduct | mcp_memory/storage.py:239 | a page starts at `(page - 1) * page_size` |
| Storage.Fetch | mcp_memory/storage.py:220-223 | the fetch returns only records of the collection |
| Storage.FetchContents | mcp_memory/storage.py:220-223 | the fetch returns exactly the collection's records that pass the filter, all of them without one; distinct ids stay distinct |
| Storage.MemoriesOf | mcp_memory/storage.py:231-233 | the `i`-th memory is the one read from the `i`-th fetched record |
| Storage.MemoryStore.constructor | mcp_memory/storage.py:50-51 | the store opens over a client that already satisfies the invariant |
| Storage.MemoryStore.GetCollection | mcp_memory/storage.py:53-57 | the client gets the collection, creating it if absent; the records are the collection's old contents |
| Storage.MemoryStore.Store | mcp_memory/storage.py:64-99 | the client gains exactly the new record in the project's collection; the invariant holds; the returned memory echoes the arguments with the generated id and timestamp |
| Storage.MemoryStore.ScoreHits | mcp_memory/storage.py:136-152 | the scoring loop keeps exactly the thresholded candidates of one answer |
| Storage.MemoryStore.QueryOne | mcp_memory/storage.py:116-152 | one collection's share of `recall`: nothing for an empty collection or a cap below 1, else a query capped at `min(n, count)` |
| Storage.MemoryStore.Recall | mcp_memory/storage.py:101-155 | the results equal `RecallSpec` of the old client: the pool over the target collections, sorted by relevance, cut to the first `n_results`; the client changes only by `_get_collection` |
| Storage.MemoryStore.DeleteSelected | mcp_memory/storage.py:168-176 | the deletion loop (also 193-200) leaves the client and the deleted ids that `Purge` specifies |
| Storage.MemoryStore.Forget | mcp_memory/storage.py:157-202 | the error, the new client and the `(count, ids)` result are those of `ForgetSpec`; the invariant holds |
| Storage.MemoryStore.ReadRecords | mcp_memory/storage.py:231-233 | reads back the memory of each fetched record, in order |
| Storage.MemoryStore.ListMemories | mcp_memory/storage.py:204-243 | the listing equals `ListSpec` of the old client: page, total and stats; the client changes only by `_get_collection` |
| StoreProps.StoreAppends | mcp_memory/storage.py:84-89 | the project's collection gains exactly the new record at its end and is listed last if it is new; every other collection is unchanged |
| StoreProps.StoreReadBack | mcp_memory/storage.py:64-99 | reading the stored record back gives the returned memory, with its tags sorted |
| StoreProps.StoreDiscoverable | mcp_memory/storage.py:59-62 | after `store`, `_list_project_names` lists a name that maps to the project's collection, which holds the new record |
| StoreProps.StoreThenListed | mcp_memory/storage.py:204-233 | the new memory is listed under its project, also when listing by any of its tags |
| StoreProps.StoreGrowsTotal | mcp_memory/storage.py:238 | without tags, `store` grows the project's listing total by exactly one |
| StoreProps.StoreIsNewest | mcp_memory/storage.py:73 | while the clock does not run back, nothing listed after `store` is newer than the new memory |
| RecallProps.CandidatesFacts | mcp_memory/storage.py:136-152 | the candidates are exactly the hits scored `1 - d/2` at or above the threshold (each candidate is such a hit, and each such hit is a candidate), and there are at most as many as hits |
| RecallProps.CandidatesComplete | mcp_memory/storage.py:136-152 | every hit whose score is at or above the threshold is a candidate |
| RecallProps.QueryFacts | mcp_memory/storage.py:116-152 | a collection contributes nothing for a cap below 1, at most its size and at most `n_results`, only thresholded memories of its records that pass the filter, and every passing hit of the query capped at `min(n_results, count)` |
| RecallProps.PoolFacts | mcp_memory/storage.py:113-152 | the pool is empty for a cap below 1 or when all target collections are empty; it holds only thresholded memories drawn from the targets, and every passing hit of every non-empty target's query capped at `min(n_results, count)` |
| RecallProps.PoolHoldsShares | mcp_memory/storage.py:113-152 | everything any target collection contributes is in the pool |
| RecallProps.PoolComplete | mcp_memory/storage.py:115-152 | every passing hit of a non-empty target collection's capped query is in the pool |
| RecallProps.RecallTopN | mcp_memory/storage.py:154-155 | the result is the first `min(n, pool size)` of the pool sorted by relevance; the sort keeps every pooled element; nothing cut off scores higher than anything kept |
| RecallProps.RecalledArePooled | mcp_memory/storage.py:154-155 | every result is a pooled candidate |
| RecallProps.RecallBounded | mcp_memory/storage.py:155 | at most `n_results` results, and none when `n_results < 1` |
| RecallProps.RecallOrdered | mcp_memory/storage.py:154 | relevance scores never increase along the result |
| RecallProps.RecallDrawn | mcp_memory/storage.py:109-152 | every result is at or above the threshold and is the memory of a filtered record of a target collection |
| RecallProps.RecallScoped | mcp_memory/storage.py:109 | with a project, every result's project maps to that project's collection |
| RecallProps.RecallTagged | mcp_memory/storage.py:120-145 | with tags, every result is the memory of a stored record carrying every tag's flag, and every given tag the codec can carry is in the result memory's `tags` |
| RecallProps.RecallNothingStored | mcp_memory/storage.py:109-117 | a store without memories recalls `[]` |
| ForgetProps.PurgeEffect | mcp_memory/storage.py:168-200 | the fan-out deletion removes the selected records from each visited collection and leaves every other collection unchanged |
| ForgetProps.PurgeReport | mcp_memory/storage.py:168-200 | an id is reported deleted if and only if it was selected in one of the visited collections |
| ForgetProps.RemainingByIds | mcp_memory/storage.py:172-175 | deleting by ids keeps exactly the records whose id was not given |
| ForgetProps.RemainingByFilter | mcp_memory/storage.py:196-199 | deleting by filter keeps exactly the records that do not match |
| ForgetProps.ForgetNeedsCriteria | mcp_memory/storage.py:163-164 | `forget` raises the ValueError exactly when ids, project and tags are all missing or empty; otherwise the count is the length of the id list |
| ForgetProps.ForgetByIds | mcp_memory/storage.py:168-176 | every memory collection loses exactly the given ids it held; nothing else changes; the reported ids are exactly the given ones that were held |
| ForgetProps.ForgetUnknownIds | mcp_memory/storage.py:168-176 | ids held nowhere give `(0, [])` and leave the client as it was |
| ForgetProps.ForgetWholeProject | mcp_memory/storage.py:178-187 | a project without tags deletes its whole collection and reports all its ids; a missing one gives `(0, [])` and changes nothing |
| ForgetProps.ForgetByTags | mcp_memory/storage.py:189-200 | each target collection keeps exactly its records that do not carry every tag; others are unchanged; the reported ids are those removed |
| ForgetProps.PurgeReportsOnce | mcp_memory/storage.py:168-200 | the fan-out deletion reports no id twice |
| ForgetProps.ForgetReportsOnce | mcp_memory/storage.py:157-202 | in every mode, `forget` reports each deleted id once |
| ListProps.PageIsSlice | mcp_memory/storage.py:239-241 | a page is `s[(page-1)*size : (page-1)*size + size]`, cut at the end |
| ListProps.PagesConcatenate | mcp_memory/storage.py:239-241 | pages 1 to `k` one after another are the first `k * size` elements |
| ListProps.PagesDisjoint | mcp_memory/storage.py:239-241 | two different pages of a sequence whose keys are distinct share no key |
| ListProps.MemoriesOfMembers | mcp_memory/storage.py:231-233 | the read memories are exactly those of the records |
| ListProps.GatheredMembers | mcp_memory/storage.py:218-233 | the merged set holds exactly the memories of records fetched from a target collection |
| ListProps.GatheredIdsDistinct | mcp_memory/storage.py:218-233 | the merged set holds no two memories with the same id |
| ListProps.GatheredSize | mcp_memory/storage.py:229-233 | the merged set is as large as the per-project counts added up |
| ListProps.ListOrderFacts | mcp_memory/storage.py:236 | sorted, the merged set keeps every memory as often, is newest first, holds exactly the fetched memories |
| ListProps.ListSorted | mcp_memory/storage.py:236 | the merged set sorted by `timestamp` descending is newest first |
| ListProps.ListIdsDistinct | mcp_memory/storage.py:236 | the newest-first set holds no two memories with the same id |
| ListProps.ListPagesShareNoId | mcp_memory/storage.py:239-241 | two different pages of a listing share no memory id |
| ListProps.ListPage | mcp_memory/storage.py:236-243 | the page is the `[(page-1)*size, (page-1)*size + size)` slice of the newest-first set; `total` is the set's size before paging |
| ListProps.SortedPages | mcp_memory/storage.py:239-241 | pages of a sorted sequence are sorted, and a later page follows an earlier one in the order |
| ListProps.ListNewestFirst | mcp_memory/storage.py:236-241 | timestamps never increase within a page nor from a page to a later one |
| ListProps.ListPagesConcatenate | mcp_memory/storage.py:238-243 | pages 1 to `k` are the first `k * size` memories of the set, and all of it once `k * size >= total` |
| ListProps.FetchedIsCarried | mcp_memory/storage.py:220-223 | a fetched memory is one whose record carries every given tag |
| ListProps.ListDrawn | mcp_memory/storage.py:211-233 | the merged set is exactly the memories of target records that carry every given tag, and with tags every given tag the codec can carry is in the `tags` of every listed memory |
| ListProps.ListScoped | mcp_memory/storage.py:211 | with a project, every listed memory's project maps to that project's collection |
| ListProps.ListPageWithin | mcp_memory/storage.py:241 | a page holds only memories of the merged set |
| ListProps.ListCounts | mcp_memory/storage.py:229 | `total` is the sum of the counts; `stats` has an entry for each target project and no other; it holds the collection size without tags, the number of matching records with tags |
| ListProps.TagCountMeaning | mcp_memory/storage.py:220-221 | a record counted under tags is one of the collection's that carries every tag, and every such record is counted |
| ListProps.ListNothingStored | mcp_memory/storage.py:211-243 | without memories every page is empty and `total` is 0 |
| Workflows.StoreThenForgetById | mcp_memory/storage.py:168-176 | `forget(ids=[id])` right after `store` reports `(1, [id])` and leaves every collection holding exactly the records it held before `store` |
| Workflows.StoreThenForgetReport | mcp_memory/storage.py:168-176 | `forget(ids=[id])` right after `store` reports `(1, [id])` |
| Workflows.ForgetThenListEmpty | mcp_memory/storage.py:178-187 | after `forget(project=p)`, `list_memories(project=p)` gives no memories, total 0, and `{p: 0}` |
| Workflows.ForgottenGone | mcp_memory/storage.py:168-176 | after `forget(ids=...)`, no memory collection holds a forgotten id |
| Workflows.ForgetThenNotRecalled | mcp_memory/storage.py:168-176 | after `forget(ids=...)`, no recalled memory has a forgotten id |

## Left out

- The embedding and similarity search inside the vector database are an oracle parameter `index` of `recall`. It is only assumed to return at most `k` records of the collection that pass the filter, each with a distance. Which records are semantically closest cannot be stated.
- Relevance is computed in `real` arithmetic: IEEE floating-point rounding is not modelled.
- The uuid and the wall clock are parameters of `Store`. It requires the id to be unused in every memory collection and the timestamp to be no older than any stored one.
- Timestamps are compared with Python's code-point string order, as the source sorts them. The ISO-8601 format itself is not modelled.
- `str.lower()` is modelled on ASCII letters only.
- `int()` is modelled on an optional sign and ASCII digits; whitespace, underscores and non-ASCII digits are not accepted. Metadata values are strings, integers or booleans; floats are not modelled.
- The vector database's collection-name validation, its persistence, and faults other than a missing collection are not modelled. The deletion loops cannot fail.
- `list_collections` is assumed to list collections in creation order, and `get` to return records in insertion order.
- Concurrent use of the store is not modelled.
- `mcp_memory/server.py` is not part of this model, apart from the caller checks used as preconditions: non-empty content, importance 1 to 5, page and page size at least 1 (mcp_memory/server.py:31-35, 149-152). The same goes for `mcp_memory/config.py` and `mcp_memory/main.py`.
- Storage.MemoryStore.constructor: the store opens only over a client that already satisfies `Inv`, so the model covers databases this code wrote. A database written by other code, with unreadable metadata, duplicate ids or flags that disagree with `tags`, is not modelled.
- Python's default arguments are not modelled: every caller passes each argument. The defaults are `tags=None`, `source=""` and `importance=3` (mcp_memory/storage.py:68-70), `n_results=10` (mcp_memory/storage.py:106), and `page=1`, `page_size=20` (mcp_memory/storage.py:208-209).
- Storage.MemoryStore.Recall: the per-collection body of the loop, with its two `continue` branches, is the static method `QueryOne`, and the loop over the hits is `ScoreHits`. The list-reading loop of `list_memories` is `ReadRecords`.
- Storage.MemoryStore.DeleteSelected: the two identical deletion loops of `forget` (by ids and by tags) are one method, with a selector naming the `get` call.
- Storage.MemoryStore.ListMemories: the page is computed by the function `Page`, with its start proved to be `(page - 1) * page_size`, rather than with explicit start and end variables.
- RecallProps.RecallTagged: a given tag is stated to be in the memory's `tags` only when it is non-empty and has no comma. The joined `tags` string cannot carry other tags back, so for those only the flag is stated.
- ListProps.ListDrawn: the `memory.tags` clause has the same restriction to tags the comma codec can carry.
- Nothing is said about the order of results with equal relevance or equal timestamps, beyond what a stable sort gives.
