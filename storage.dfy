/** The project-partitioned memory store (storage.py): the metadata it writes,
    how it reads records back, what it keeps true of the client, and the
    `MemoryStore` operations `store`, `recall`, `forget` and `list_memories`,
    each proved against a specification function of the client it starts from. */
module Storage {
  import opened Wrappers
  import opened Seqs
  import opened Chroma
  import opened Models
  import opened Naming
  import opened TagCodec
  import Strings
  import Sorting

  datatype StoreError = ValueError(message: string)

  const NoCriteria: string := "Must specify at least one of: ids, project, tags"

  // ---------------------------------------------------------------------------
  // Record metadata.

  /** The metadata `store` writes: project, source, importance and timestamp,
      updated with `_tags_to_metadata(tags)`. */
  function StoreMetadata(project: string, source: string, importance: int, timestamp: string,
                         tags: seq<string>): Metadata
  {
    map["project" := VStr(project), "source" := VStr(source), "importance" := VInt(importance),
        "timestamp" := VStr(timestamp)] + TagMetadata(tags)
  }

  /** Metadata `_memory_from_chroma` reads without falling back on a default or
      raising, as `store` writes it. */
  predicate WellFormed(md: Metadata)
  {
    && "project" in md && md["project"].VStr?
    && "source" in md && md["source"].VStr?
    && "importance" in md && md["importance"].VInt? && 1 <= md["importance"].i <= 5
    && "timestamp" in md && md["timestamp"].VStr?
  }

  /** `metadata.get(key, default)`. */
  function Get(md: Metadata, key: string, default: Value): Value
  {
    if key in md then md[key] else default
  }

  /** `_memory_from_chroma(id, document, metadata)`; `int()` of a non-numeric
      importance string is the ValueError. */
  function MemoryFromChroma(id: string, document: string, md: Metadata): (r: Result<Memory, StoreError>)
    ensures WellFormed(md) ==> r.Ok?
  {
    match IntOf(Get(md, "importance", VInt(3)))
    case None => Err(ValueError("invalid literal for int()"))
    case Some(importance) =>
      Ok(Memory(id, document, StrOf(Get(md, "project", VStr("global"))), MetadataToTags(md),
                StrOf(Get(md, "source", VStr(""))), importance, StrOf(Get(md, "timestamp", VStr("")))))
  }

  /** The memory a well-formed record reads back as. */
  function MemoryOf(r: Record): (m: Memory)
    requires WellFormed(r.metadata)
    ensures m.id == r.id
  {
    MemoryFromChroma(r.id, r.document, r.metadata).value
  }

  function ProjectOf(r: Record): string
    requires WellFormed(r.metadata)
  {
    r.metadata["project"].s
  }

  function TimestampOf(r: Record): string
    requires WellFormed(r.metadata)
  {
    r.metadata["timestamp"].s
  }

  /** Each missing key reads as its default (project "global", no tags,
      source and timestamp "", importance 3), and an importance that `int()`
      cannot parse is the ValueError. */
  lemma MemoryFromChromaDefaults(id: string, document: string, md: Metadata)
    ensures md == map[] ==>
              MemoryFromChroma(id, document, md) == Ok(Memory(id, document, "global", [], "", 3, ""))
    ensures "importance" !in md ==>
              MemoryFromChroma(id, document, md).Ok? && MemoryFromChroma(id, document, md).value.importance == 3
    ensures MemoryFromChroma(id, document, md).Ok? ==>
              && MemoryFromChroma(id, document, md).value.id == id
              && MemoryFromChroma(id, document, md).value.content == document
              && ("project" !in md ==> MemoryFromChroma(id, document, md).value.project == "global")
              && (TagsKey !in md ==> MemoryFromChroma(id, document, md).value.tags == [])
              && ("source" !in md ==> MemoryFromChroma(id, document, md).value.source == "")
              && ("timestamp" !in md ==> MemoryFromChroma(id, document, md).value.timestamp == "")
    ensures "importance" in md && md["importance"].VStr? && Strings.ParseInt(md["importance"].s).None? ==>
              MemoryFromChroma(id, document, md).Err?
    ensures "importance" in md && md["importance"].VStr? && Strings.ParseInt(md["importance"].s).Some? ==>
              MemoryFromChroma(id, document, md).Ok? &&
              MemoryFromChroma(id, document, md).value.importance == Strings.ParseInt(md["importance"].s).value
  {
  }

  /** A well-formed record reads back field for field. */
  lemma MemoryOfFields(r: Record)
    requires WellFormed(r.metadata)
    ensures MemoryOf(r) == Memory(r.id, r.document, ProjectOf(r), MetadataToTags(r.metadata),
                                  r.metadata["source"].s, r.metadata["importance"].i, TimestampOf(r))
  {
  }

  // ---------------------------------------------------------------------------
  // What the store keeps true of the client.

  /** Every tag whose flag the metadata sets reads back among its tags, when
      the codec can carry it; `store` writes the flags and the joined tags
      from the same list. */
  ghost predicate FlagsReadBack(md: Metadata)
  {
    forall t {:trigger HasFlag(md, t)} :: HasFlag(md, t) && t != "" && ',' !in t ==> t in MetadataToTags(md)
  }

  /** A record as `store` leaves it in collection `name`: readable, non-empty,
      its flags agreeing with its tags, and in the collection of its own project. */
  ghost predicate Placed(name: string, r: Record)
  {
    WellFormed(r.metadata) && r.document != "" && FlagsReadBack(r.metadata) && CollectionName(ProjectOf(r)) == name
  }

  /** A memory collection (one with the prefix) carries a canonical project
      name, and its records are placed and have distinct ids. Other
      collections of the client are not the store's and are left alone. */
  ghost predicate GoodCollection(name: string, col: seq<Record>)
  {
    HasPrefix(name) ==>
      && Canonical(StripPrefix(name))
      && (forall r :: r in col ==> Placed(name, r))
      && DistinctIds(col)
  }

  /** Collection `n` of the client holds `r`. */
  predicate InCollection(c: Client, n: string, r: Record)
  {
    n in c.cols && r in c.cols[n]
  }

  /** No id is held by two different memory collections (every id is a uuid4
      of its own `store` call). */
  ghost predicate IdsApart(c: Client)
  {
    forall n, m, r, s {:trigger InCollection(c, n, r), InCollection(c, m, s)} ::
      InCollection(c, n, r) && InCollection(c, m, s) && HasPrefix(n) && HasPrefix(m) && r.id == s.id ==> n == m
  }

  ghost predicate Inv(c: Client)
  {
    Listed(c) && (forall n :: n in c.cols ==> GoodCollection(n, c.cols[n])) && IdsApart(c)
  }

  /** The collection of any project holds only records placed there. */
  lemma CollectionPlaced(c: Client, project: string)
    requires Inv(c)
    ensures forall r :: r in Col(c, CollectionName(project)) ==> Placed(CollectionName(project), r)
    ensures DistinctIds(Col(c, CollectionName(project)))
  {
    CollectionNameRoundTrip(project);
  }

  /** Records of the collections of two projects that do not share one never
      share an id. */
  lemma ApartIds(c: Client, p: string, q: string, r: Record, s: Record)
    requires Inv(c) && CollectionName(p) != CollectionName(q)
    requires r in Col(c, CollectionName(p)) && s in Col(c, CollectionName(q))
    ensures r.id != s.id
  {
    CollectionNameRoundTrip(p);
    CollectionNameRoundTrip(q);
    assert InCollection(c, CollectionName(p), r) && InCollection(c, CollectionName(q), s);
  }

  /** No two projects of the list share a collection. */
  predicate SeparateCollections(projects: seq<string>)
  {
    forall i, j :: 0 <= i < j < |projects| ==> CollectionName(projects[i]) != CollectionName(projects[j])
  }

  /** `_get_collection(project)` keeps the invariant: a missing collection is
      created empty under a canonical name. */
  lemma GetOrCreateKeepsInv(c: Client, project: string)
    requires Inv(c)
    ensures Inv(GetOrCreate(c, CollectionName(project)))
  {
    CollectionNameRoundTrip(project);
    NormalizeIdempotent(project);
    var c' := GetOrCreate(c, CollectionName(project));
    assert forall n, r :: InCollection(c', n, r) ==> InCollection(c, n, r);
  }

  /** The projects an operation fans out over: the given one, or every memory
      collection the client lists (`[project] if project else
      self._list_project_names()`). */
  function Targets(c: Client, project: Option<string>): seq<string>
  {
    if Truthy(project) then [project.value] else ProjectNames(c.names)
  }

  /** Under the invariant, `_list_project_names` names exactly the memory
      collections: each listed project maps back onto its own collection, every
      memory collection is listed, and no two listed projects share one. */
  lemma ProjectNamesOfStore(c: Client)
    requires Inv(c)
    ensures forall p :: p in ProjectNames(c.names) ==> CollectionName(p) == Prefix + p && CollectionName(p) in c.cols
    ensures forall n :: n in c.cols && HasPrefix(n) ==>
              StripPrefix(n) in ProjectNames(c.names) && CollectionName(StripPrefix(n)) == n
    ensures forall i, j :: 0 <= i < j < |ProjectNames(c.names)| ==>
              CollectionName(ProjectNames(c.names)[i]) != CollectionName(ProjectNames(c.names)[j])
  {
    var ps := ProjectNames(c.names);
    forall p | p in ps
      ensures CollectionName(p) == Prefix + p && CollectionName(p) in c.cols
    {
      var n := Prefix + p;
      assert n[..|Prefix|] == Prefix && n[|Prefix|..] == p;
      assert StripPrefix(n) == p;
    }
    forall n | n in c.cols && HasPrefix(n)
      ensures StripPrefix(n) in ps && CollectionName(StripPrefix(n)) == n
    {
    }
    ProjectNamesDistinct(c.names);
    forall i, j | 0 <= i < j < |ps|
      ensures CollectionName(ps[i]) != CollectionName(ps[j])
    {
      assert ps[i] in ps && ps[j] in ps;
      assert (Prefix + ps[i])[|Prefix|..] == ps[i];
    }
  }

  /** The projects an operation fans out over never share a collection. */
  lemma TargetsSeparate(c: Client, project: Option<string>)
    requires Inv(c)
    ensures SeparateCollections(Targets(c, project))
  {
    if !Truthy(project) {
      ProjectNamesOfStore(c);
    }
  }

  /** The effect of calling `_get_collection` on each project in turn. */
  function Touch(c: Client, projects: seq<string>): Client
  {
    if projects == [] then c
    else GetOrCreate(Touch(c, projects[..|projects| - 1]), CollectionName(projects[|projects| - 1]))
  }

  /** Touching collections changes no collection's contents: it only adds empty ones. */
  lemma {:induction false} TouchKeepsContents(c: Client, projects: seq<string>)
    ensures forall n :: n in c.cols ==> n in Touch(c, projects).cols && Touch(c, projects).cols[n] == c.cols[n]
    ensures forall n :: Col(Touch(c, projects), n) == Col(c, n)
    decreases |projects|
  {
    if projects != [] {
      TouchKeepsContents(c, projects[..|projects| - 1]);
    }
  }

  /** One more `_get_collection` call of the fan-out loop. */
  lemma TouchStep(c: Client, projects: seq<string>, i: nat)
    requires i < |projects|
    ensures Touch(c, projects[..i + 1]) == GetOrCreate(Touch(c, projects[..i]), CollectionName(projects[i]))
    ensures Col(Touch(c, projects[..i]), CollectionName(projects[i])) == Col(c, CollectionName(projects[i]))
  {
    assert projects[..i + 1][..i] == projects[..i];
    TouchKeepsContents(c, projects[..i]);
  }

  lemma {:induction false} TouchKeepsInv(c: Client, projects: seq<string>)
    requires Inv(c)
    ensures Inv(Touch(c, projects))
    decreases |projects|
  {
    if projects != [] {
      TouchKeepsInv(c, projects[..|projects| - 1]);
      TouchKeepsContents(c, projects[..|projects| - 1]);
      GetOrCreateKeepsInv(Touch(c, projects[..|projects| - 1]), projects[|projects| - 1]);
    }
  }

  // ---------------------------------------------------------------------------
  // store

  /** `tags or []`. */
  function TagsOrEmpty(tags: Option<seq<string>>): seq<string>
  {
    if Truthy(tags) then tags.value else []
  }

  /** The record `store` adds. */
  function NewRecord(id: string, content: string, project: string, tags: seq<string>, source: string,
                     importance: int, timestamp: string): Record
  {
    Record(id, content, StoreMetadata(project, source, importance, timestamp, tags))
  }

  /** The client after `store` added `r` for `project`. */
  function Stored(c: Client, project: string, r: Record): Client
  {
    var name := CollectionName(project);
    Add(GetOrCreate(c, name), name, r)
  }

  /** No memory collection holds a record with this id (a fresh uuid4). */
  predicate IdFresh(c: Client, id: string)
  {
    forall n :: n in c.cols && HasPrefix(n) ==> forall r :: r in c.cols[n] ==> r.id != id
  }

  /** This timestamp is not older than any stored one (the clock does not run back). */
  ghost predicate NotBefore(c: Client, timestamp: string)
  {
    forall n :: n in c.cols && GoodCollection(n, c.cols[n]) && HasPrefix(n) ==>
      forall r :: r in c.cols[n] ==> Strings.LexLe(TimestampOf(r), timestamp)
  }

  // ---------------------------------------------------------------------------
  // recall

  /** `1 - distance / 2`: cosine distance 0 (same direction) is 1, 2 (opposite) is 0. */
  function Relevance(distance: real): real
  {
    1.0 - distance / 2.0
  }

  /** The similarity index queried for `query` on a collection, with a `where`
      filter and a cap `k`: `collection.query(query_texts=[query], n_results=k, where=where)`. */
  type Index = (string, seq<Record>, Option<Filter>, nat) -> seq<Hit>

  /** What the index promises of one answer: at most `k` hits, each a record of
      the collection that passes the filter. */
  predicate Answers(col: seq<Record>, where: Option<Filter>, k: nat, hits: seq<Hit>)
  {
    |hits| <= k && forall i :: 0 <= i < |hits| ==> hits[i].record in col && MatchesWhere(where, hits[i].record.metadata)
  }

  ghost predicate IndexSound(index: Index)
  {
    forall query, col, where, k :: Answers(col, where, k, index(query, col, where, k))
  }

  /** The results one answer contributes, in answer order: each hit scored, and
      dropped when a threshold is given and the score is below it. */
  function Candidates(hits: seq<Hit>, minRelevance: Option<real>): seq<RecallResult>
    requires forall i :: 0 <= i < |hits| ==> WellFormed(hits[i].record.metadata)
  {
    if hits == [] then []
    else
      var h := hits[|hits| - 1];
      var relevance := Relevance(h.distance);
      Candidates(hits[..|hits| - 1], minRelevance) +
        (if minRelevance.Some? && relevance < minRelevance.value then []
         else [RecallResult(MemoryOf(h.record), relevance, h.distance)])
  }

  lemma CandidatesStep(hits: seq<Hit>, j: nat, minRelevance: Option<real>)
    requires j < |hits|
    requires forall i :: 0 <= i < |hits| ==> WellFormed(hits[i].record.metadata)
    ensures Candidates(hits[..j + 1], minRelevance) ==
              Candidates(hits[..j], minRelevance) +
                (if minRelevance.Some? && Relevance(hits[j].distance) < minRelevance.value then []
                 else [RecallResult(MemoryOf(hits[j].record), Relevance(hits[j].distance), hits[j].distance)])
  {
    assert hits[..j + 1][..j] == hits[..j];
  }

  /** `min(n_results, collection.count())`. */
  function Cap(n: int, count: nat): int
  {
    if n < count then n else count
  }

  /** One collection's share of the pool: nothing for an empty collection or a
      cap below 1, else the candidates of a query capped at `min(n, count)`. */
  function QueryCollection(col: seq<Record>, query: string, where: Option<Filter>, n: int,
                           minRelevance: Option<real>, index: Index): seq<RecallResult>
    requires IndexSound(index)
    requires forall r :: r in col ==> WellFormed(r.metadata)
  {
    if |col| == 0 then []
    else
      var k := Cap(n, |col|);
      if k < 1 then []
      else
        var hits := index(query, col, where, k);
        assert Answers(col, where, k, hits);
        Candidates(hits, minRelevance)
  }

  /** `all_results` once every project has been queried, in query order. */
  function Pool(c: Client, projects: seq<string>, query: string, where: Option<Filter>, n: int,
                minRelevance: Option<real>, index: Index): seq<RecallResult>
    requires Inv(c) && IndexSound(index)
    decreases |projects|
  {
    if projects == [] then []
    else
      Pool(c, projects[..|projects| - 1], query, where, n, minRelevance, index) +
        Share(c, projects[|projects| - 1], query, where, n, minRelevance, index)
  }

  /** What querying project `p`'s collection adds to the pool. */
  function Share(c: Client, p: string, query: string, where: Option<Filter>, n: int,
                 minRelevance: Option<real>, index: Index): seq<RecallResult>
    requires Inv(c) && IndexSound(index)
  {
    CollectionPlaced(c, p);
    QueryCollection(Col(c, CollectionName(p)), query, where, n, minRelevance, index)
  }

  lemma PoolStep(c: Client, projects: seq<string>, i: nat, query: string, where: Option<Filter>, n: int,
                 minRelevance: Option<real>, index: Index)
    requires Inv(c) && IndexSound(index) && i < |projects|
    ensures forall r :: r in Col(c, CollectionName(projects[i])) ==> WellFormed(r.metadata)
    ensures Pool(c, projects[..i + 1], query, where, n, minRelevance, index) ==
              Pool(c, projects[..i], query, where, n, minRelevance, index) +
                QueryCollection(Col(c, CollectionName(projects[i])), query, where, n, minRelevance, index)
  {
    assert projects[..i + 1][..i] == projects[..i];
    CollectionPlaced(c, projects[i]);
  }

  /** The order of `sort(key=relevance_score, reverse=True)`. */
  function ByRelevance(a: RecallResult, b: RecallResult): bool
  {
    a.relevanceScore >= b.relevanceScore
  }

  /** `s[:n]`, a negative `n` counting from the end. */
  function Head<T>(s: seq<T>, n: int): (r: seq<T>)
    ensures n >= 0 ==> |r| == if n < |s| then n else |s|
    ensures n < 0 ==> |r| == if |s| + n > 0 then |s| + n else 0
    ensures forall i :: 0 <= i < |r| ==> r[i] == s[i]
  {
    if n >= 0 then s[..if n < |s| then n else |s|]
    else s[..if |s| + n > 0 then |s| + n else 0]
  }

  /** What `recall` returns from client `c`. */
  function RecallSpec(c: Client, query: string, project: Option<string>, tags: Option<seq<string>>,
                      n: int, minRelevance: Option<real>, index: Index): seq<RecallResult>
    requires Inv(c) && IndexSound(index)
  {
    var projects := Targets(c, project);
    if projects == [] then []
    else Head(Sorting.Sort(Pool(c, projects, query, BuildTagFilter(tags), n, minRelevance, index), ByRelevance), n)
  }

  // ---------------------------------------------------------------------------
  // forget

  /** How a fan-out deletion picks records: `get(ids=...)` or `get(where=...)`. */
  datatype Selector = ByIds(ids: seq<string>) | ByFilter(where: Filter)

  function Selected(col: seq<Record>, sel: Selector): (out: seq<Record>)
    ensures forall r :: r in out ==> r in col
    ensures DistinctIds(col) ==> DistinctIds(out)
  {
    match sel
    case ByIds(ids) =>
      assert DistinctIds(col) ==> DistinctIds(WithIds(col, ids)) by {
        if DistinctIds(col) {
          WithIdsDistinct(col, ids);
        }
      }
      WithIds(col, ids)
    case ByFilter(f) =>
      assert DistinctIds(col) ==> DistinctIds(Matching(col, f)) by {
        if DistinctIds(col) {
          MatchingDistinct(col, f);
        }
      }
      Matching(col, f)
  }

  /** The fan-out deletion loop of `forget`: per project, fetch the selected
      ids, delete them, and extend the deleted list. */
  function Purge(c: Client, projects: seq<string>, sel: Selector): (Client, seq<string>)
    decreases |projects|
  {
    if projects == [] then (c, [])
    else
      var before := Purge(c, projects[..|projects| - 1], sel);
      var name := CollectionName(projects[|projects| - 1]);
      var c' := GetOrCreate(before.0, name);
      var found := Ids(Selected(c'.cols[name], sel));
      if found == [] then (c', before.1) else (DeleteIds(c', name, found), before.1 + found)
  }

  lemma PurgeStep(c: Client, projects: seq<string>, i: nat, sel: Selector)
    requires i < |projects|
    ensures var before := Purge(c, projects[..i], sel);
            var name := CollectionName(projects[i]);
            var c' := GetOrCreate(before.0, name);
            var found := Ids(Selected(c'.cols[name], sel));
            Purge(c, projects[..i + 1], sel) ==
              if found == [] then (c', before.1) else (DeleteIds(c', name, found), before.1 + found)
  {
    assert projects[..i + 1][..i] == projects[..i];
  }

  /** What `forget` returns: `(len(deleted_ids), deleted_ids)`. */
  datatype Forgotten = Forgotten(count: nat, ids: seq<string>)

  /** The client after `forget` and what it returns, or the ValueError it raises. */
  function ForgetSpec(c: Client, ids: Option<seq<string>>, project: Option<string>,
                      tags: Option<seq<string>>): Result<(Client, Forgotten), StoreError>
  {
    if !Truthy(ids) && !Truthy(project) && !Truthy(tags) then Err(ValueError(NoCriteria))
    else
      var after :=
        if Truthy(ids) then Purge(c, ProjectNames(c.names), ByIds(ids.value))
        else if Truthy(project) && !Truthy(tags) then
          (var name := CollectionName(project.value);
           if name in c.cols then (DeleteCollection(c, name), Ids(c.cols[name])) else (c, []))
        else Purge(c, Targets(c, project), ByFilter(BuildTagFilter(tags).value));
      Ok((after.0, Forgotten(|after.1|, after.1)))
  }

  // ---------------------------------------------------------------------------
  // list_memories

  /** `collection.get(where=where)` when there is a filter, else `collection.get()`. */
  function Fetch(col: seq<Record>, where: Option<Filter>): (out: seq<Record>)
    ensures forall r :: r in out ==> r in col
  {
    if where.Some? then Matching(col, where.value) else col
  }

  /** The fetch returns exactly the records that pass the filter (all of them
      without one), and distinct ids stay distinct. */
  lemma FetchContents(col: seq<Record>, where: Option<Filter>)
    ensures forall r :: r in Fetch(col, where) <==> r in col && MatchesWhere(where, r.metadata)
    ensures DistinctIds(col) ==> DistinctIds(Fetch(col, where))
  {
    if where.Some? && DistinctIds(col) {
      MatchingDistinct(col, where.value);
    }
  }

  function MemoriesOf(rs: seq<Record>): (ms: seq<Memory>)
    requires forall r :: r in rs ==> WellFormed(r.metadata)
    ensures |ms| == |rs|
    ensures forall i :: 0 <= i < |rs| ==> ms[i] == MemoryOf(rs[i])
  {
    if rs == [] then [] else MemoriesOf(rs[..|rs| - 1]) + [MemoryOf(rs[|rs| - 1])]
  }

  lemma MemoriesOfStep(rs: seq<Record>, j: nat)
    requires j < |rs|
    requires forall r :: r in rs ==> WellFormed(r.metadata)
    ensures MemoriesOf(rs[..j + 1]) == MemoriesOf(rs[..j]) + [MemoryOf(rs[j])]
  {
    assert rs[..j + 1][..j] == rs[..j];
  }

  /** `all_memories` once every project has been read, in reading order. */
  function Gathered(c: Client, projects: seq<string>, where: Option<Filter>): seq<Memory>
    requires Inv(c)
    decreases |projects|
  {
    if projects == [] then []
    else
      var p := projects[|projects| - 1];
      CollectionPlaced(c, p);
      Gathered(c, projects[..|projects| - 1], where) + MemoriesOf(Fetch(Col(c, CollectionName(p)), where))
  }

  /** How many records `list_memories` fetches from a project's collection. */
  function Count(c: Client, project: string, where: Option<Filter>): nat
  {
    |Fetch(Col(c, CollectionName(project)), where)|
  }

  /** `project_stats`: per project, how many records were fetched. A project
      listed twice is counted twice alike, so the later entry changes nothing. */
  function Stats(c: Client, projects: seq<string>, where: Option<Filter>): map<string, nat>
  {
    map p | p in projects :: Count(c, p, where)
  }

  lemma GatheredStep(c: Client, projects: seq<string>, i: nat, where: Option<Filter>)
    requires Inv(c) && i < |projects|
    ensures forall r :: r in Fetch(Col(c, CollectionName(projects[i])), where) ==> WellFormed(r.metadata)
    ensures Gathered(c, projects[..i + 1], where) ==
              Gathered(c, projects[..i], where) + MemoriesOf(Fetch(Col(c, CollectionName(projects[i])), where))
  {
    assert projects[..i + 1][..i] == projects[..i];
    CollectionPlaced(c, projects[i]);
  }

  lemma StatsStep(c: Client, projects: seq<string>, i: nat, where: Option<Filter>)
    requires i < |projects|
    ensures Stats(c, projects[..i + 1], where) ==
              Stats(c, projects[..i], where)[projects[i] := Count(c, projects[i], where)]
  {
    assert projects[..i + 1] == projects[..i] + [projects[i]];
  }

  /** The order of `sort(key=timestamp, reverse=True)`: newest first. */
  function ByNewest(a: Memory, b: Memory): bool
  {
    Strings.LexLe(b.timestamp, a.timestamp)
  }

  /** `s[start:end]` for `0 <= start <= end`. */
  function Slice<T>(s: seq<T>, start: nat, end: nat): seq<T>
    requires start <= end
  {
    if start >= |s| then [] else s[start..if end < |s| then end else |s|]
  }

  /** The index of a page's first memory: the sizes of the pages before it, added up. */
  function PageStart(page: int, pageSize: int): nat
    requires page >= 1 && pageSize >= 1
  {
    if page == 1 then 0 else PageStart(page - 1, pageSize) + pageSize
  }

  /** It is the `(page - 1) * page_size` of the source. */
  lemma {:induction false} PageStartIsProduct(page: int, pageSize: int)
    requires page >= 1 && pageSize >= 1
    ensures PageStart(page, pageSize) == (page - 1) * pageSize
  {
    if page > 1 {
      PageStartIsProduct(page - 1, pageSize);
    }
  }

  /** Page `page` of `s`, `page_size` memories to a page:
      `s[start:start + page_size]` with `start = (page - 1) * page_size`. */
  function Page<T>(s: seq<T>, page: int, pageSize: int): seq<T>
    requires page >= 1 && pageSize >= 1
  {
    Slice(s, PageStart(page, pageSize), PageStart(page, pageSize) + pageSize)
  }

  /** What `list_memories` returns: the page, the total and the per-project counts. */
  datatype Listing = Listing(memories: seq<Memory>, total: nat, stats: map<string, nat>)

  /** Every memory the listing fetched, newest first, before the page is cut. */
  function ListOrder(c: Client, project: Option<string>, tags: Option<seq<string>>): seq<Memory>
    requires Inv(c)
  {
    Sorting.Sort(Gathered(c, Targets(c, project), BuildTagFilter(tags)), ByNewest)
  }

  function ListSpec(c: Client, project: Option<string>, tags: Option<seq<string>>, page: int,
                    pageSize: int): Listing
    requires Inv(c) && page >= 1 && pageSize >= 1
  {
    Listing(Page(ListOrder(c, project, tags), page, pageSize), |ListOrder(c, project, tags)|,
            Stats(c, Targets(c, project), BuildTagFilter(tags)))
  }

  // ---------------------------------------------------------------------------
  // Frame lemmas the methods need.

  lemma DeleteIdsKeepsInv(c: Client, name: string, ids: seq<string>)
    requires Inv(c) && name in c.cols
    ensures Inv(DeleteIds(c, name, ids))
  {
    var c' := DeleteIds(c, name, ids);
    if HasPrefix(name) {
      WithoutIdsDistinct(c.cols[name], ids);
    }
    assert forall n, r :: InCollection(c', n, r) ==> InCollection(c, n, r);
  }

  lemma DeleteCollectionKeepsInv(c: Client, name: string)
    requires Inv(c) && name in c.cols
    ensures Inv(DeleteCollection(c, name))
  {
    var c' := DeleteCollection(c, name);
    assert forall n, r :: InCollection(c', n, r) ==> InCollection(c, n, r);
  }

  lemma {:induction false} PurgeKeepsInv(c: Client, projects: seq<string>, sel: Selector)
    requires Inv(c)
    ensures Inv(Purge(c, projects, sel).0)
    decreases |projects|
  {
    if projects != [] {
      var before := Purge(c, projects[..|projects| - 1], sel);
      PurgeKeepsInv(c, projects[..|projects| - 1], sel);
      var name := CollectionName(projects[|projects| - 1]);
      GetOrCreateKeepsInv(before.0, projects[|projects| - 1]);
      var c' := GetOrCreate(before.0, name);
      DeleteIdsKeepsInv(c', name, Ids(Selected(c'.cols[name], sel)));
    }
  }

  /** Adding a placed record with a fresh id to an existing memory collection
      keeps the invariant. */
  lemma AddKeepsInv(c: Client, name: string, r: Record)
    requires Inv(c) && name in c.cols && HasPrefix(name)
    requires IdFresh(c, r.id) && Placed(name, r)
    ensures Inv(Add(c, name, r))
  {
    var before := c.cols[name];
    assert forall s :: s in before + [r] ==> s in before || s == r;
    AppendDistinct(before, r);
    AddKeepsApart(c, name, r);
  }

  lemma AddKeepsApart(c: Client, name: string, r: Record)
    requires IdsApart(c) && name in c.cols && IdFresh(c, r.id)
    ensures IdsApart(Add(c, name, r))
  {
    var c2 := Add(c, name, r);
    assert forall n, s :: InCollection(c2, n, s) ==> InCollection(c, n, s) || (n == name && s == r);
  }

  lemma StoredKeepsInv(c: Client, project: string, r: Record)
    requires Inv(c)
    requires IdFresh(c, r.id)
    requires Placed(CollectionName(project), r)
    ensures Inv(Stored(c, project, r))
  {
    var name := CollectionName(project);
    GetOrCreateKeepsInv(c, project);
    CollectionNameRoundTrip(project);
    AddKeepsInv(GetOrCreate(c, name), name, r);
  }

  /** The metadata `store` writes keeps its four fields beside the tag keys. */
  lemma StoreMetadataFields(project: string, source: string, importance: int, timestamp: string,
                            tags: seq<string>)
    ensures var md := StoreMetadata(project, source, importance, timestamp, tags);
            && md["project"] == VStr(project) && md["source"] == VStr(source)
            && md["importance"] == VInt(importance) && md["timestamp"] == VStr(timestamp)
            && md[TagsKey] == TagMetadata(tags)[TagsKey]
            && forall t :: t in tags ==> HasFlag(md, t)
  {
    var md := StoreMetadata(project, source, importance, timestamp, tags);
    TagMetadataContents(tags);
    forall k | k in TagMetadata(tags)
      ensures k != "project" && k != "source" && k != "importance" && k != "timestamp"
    {
      if k != TagsKey {
        var t :| t in tags && k == FlagKey(t);
        assert k[0] == 't' && k[1] == 'a';
      }
    }
  }

  /** A flag `store` sets is the flag of a given tag, and such a tag reads
      back among the joined tags when it is non-empty and free of commas. */
  lemma StoredFlagReadsBack(project: string, source: string, importance: int, timestamp: string,
                            tags: seq<string>, t: string)
    requires HasFlag(StoreMetadata(project, source, importance, timestamp, tags), t)
    ensures t in tags
    ensures t != "" && ',' !in t ==> t in MetadataToTags(StoreMetadata(project, source, importance, timestamp, tags))
  {
    var md := StoreMetadata(project, source, importance, timestamp, tags);
    StoreMetadataFields(project, source, importance, timestamp, tags);
    TagMetadataContents(tags);
    assert FlagKey(t)[1] == 'a';
    assert FlagKey(t) in TagMetadata(tags);
    FlagsAreTags(tags, t);
    if t != "" && ',' !in t {
      SortTagsOrders(tags);
      assert t in multiset(SortTags(tags));
      Strings.SplitJoinKeepsPiece(SortTags(tags), ',', t);
    }
  }

  /** The record `store` writes is placed in its project's collection. */
  lemma NewRecordPlaced(id: string, content: string, project: string, tags: seq<string>,
                        source: string, importance: int, timestamp: string)
    requires content != "" && 1 <= importance <= 5
    ensures Placed(CollectionName(project), NewRecord(id, content, project, tags, source, importance, timestamp))
  {
    StoreMetadataFields(project, source, importance, timestamp, tags);
    var md := StoreMetadata(project, source, importance, timestamp, tags);
    forall t | HasFlag(md, t) && t != "" && ',' !in t
      ensures t in MetadataToTags(md)
    {
      StoredFlagReadsBack(project, source, importance, timestamp, tags, t);
    }
  }

  // ---------------------------------------------------------------------------
  // The store object.

  class MemoryStore {
    /** The persistent client's collections. */
    var client: Client

    ghost predicate Valid()
      reads this
    {
      Inv(client)
    }

    /** `MemoryStore(data_dir)`: opens the client over what is already stored. */
    constructor (stored: Client)
      requires Inv(stored)
      ensures Valid() && client == stored
    {
      client := stored;
    }

    /** `_get_collection(project)`: get or create the project's collection. */
    method GetCollection(project: string) returns (records: seq<Record>)
      modifies this
      ensures client == GetOrCreate(old(client), CollectionName(project))
      ensures records == Col(old(client), CollectionName(project))
    {
      var name := CollectionName(project);
      if name !in client.cols {
        client := Client(client.names + [name], client.cols[name := []]);
      }
      records := client.cols[name];
    }

    /** `store(...)`: one new record in the project's collection; `id` and
        `timestamp` are the uuid and the clock reading. */
    method Store(content: string, project: string, tags: Option<seq<string>>, source: string,
                 importance: int, id: string, timestamp: string) returns (memory: Memory)
      requires Valid()
      requires content != "" && 1 <= importance <= 5
      requires IdFresh(client, id) && NotBefore(client, timestamp)
      modifies this
      ensures Valid()
      ensures client == Stored(old(client), project,
                               NewRecord(id, content, project, TagsOrEmpty(tags), source, importance, timestamp))
      ensures memory == Memory(id, content, project, TagsOrEmpty(tags), source, importance, timestamp)
    {
      var theTags := if Truthy(tags) then tags.value else [];
      var tagMeta := TagsToMetadata(theTags);
      var metadata := map["project" := VStr(project), "source" := VStr(source),
                          "importance" := VInt(importance), "timestamp" := VStr(timestamp)] + tagMeta;
      ghost var c0 := client;
      var _ := GetCollection(project);
      var name := CollectionName(project);
      client := Client(client.names, client.cols[name := client.cols[name] + [Record(id, content, metadata)]]);
      NewRecordPlaced(id, content, project, theTags, source, importance, timestamp);
      StoredKeepsInv(c0, project, NewRecord(id, content, project, theTags, source, importance, timestamp));
      memory := Memory(id, content, project, theTags, source, importance, timestamp);
    }

    /** The inner loop of `recall`: score each hit of one answer and keep those
        at or above the threshold, in answer order. */
    static method ScoreHits(hits: seq<Hit>, minRelevance: Option<real>) returns (found: seq<RecallResult>)
      requires forall i :: 0 <= i < |hits| ==> WellFormed(hits[i].record.metadata)
      ensures found == Candidates(hits, minRelevance)
    {
      found := [];
      for j := 0 to |hits|
        invariant found == Candidates(hits[..j], minRelevance)
      {
        CandidatesStep(hits, j, minRelevance);
        var distance := hits[j].distance;
        var relevance := 1.0 - distance / 2.0;
        if minRelevance.Some? && relevance < minRelevance.value {
          continue;
        }
        var memory := MemoryOf(hits[j].record);
        found := found + [RecallResult(memory, relevance, distance)];
      }
      assert hits[..|hits|] == hits;
    }

    /** The inner loop of `list_memories`: read back each fetched record. */
    static method ReadRecords(records: seq<Record>) returns (memories: seq<Memory>)
      requires forall r :: r in records ==> WellFormed(r.metadata)
      ensures memories == MemoriesOf(records)
    {
      memories := [];
      for j := 0 to |records|
        invariant memories == MemoriesOf(records[..j])
      {
        MemoriesOfStep(records, j);
        var memory := MemoryOf(records[j]);
        memories := memories + [memory];
      }
      assert records[..|records|] == records;
    }

    /** The body of `recall`'s loop for one collection: skip it when it is
        empty or the cap is below 1, else query it for `min(n_results, count)`
        hits and score them. */
    static method QueryOne(collection: seq<Record>, query: string, where: Option<Filter>, nResults: int,
                           minRelevance: Option<real>, index: Index) returns (found: seq<RecallResult>)
      requires IndexSound(index)
      requires forall r :: r in collection ==> WellFormed(r.metadata)
      ensures found == QueryCollection(collection, query, where, nResults, minRelevance, index)
    {
      if |collection| == 0 {
        return [];
      }
      var actualN := if nResults < |collection| then nResults else |collection|;
      if actualN < 1 {
        return [];
      }
      var hits := index(query, collection, where, actualN);
      assert Answers(collection, where, actualN, hits);
      assert forall j :: 0 <= j < |hits| ==> hits[j].record in collection;
      found := ScoreHits(hits, minRelevance);
    }

    /** `recall(...)`: query each target collection, score and threshold the
        hits, then sort the pool by relevance and keep the first `n_results`. */
    method Recall(query: string, project: Option<string>, tags: Option<seq<string>>, nResults: int,
                  minRelevance: Option<real>, index: Index) returns (results: seq<RecallResult>)
      requires Valid() && IndexSound(index)
      modifies this
      ensures Valid()
      ensures client == Touch(old(client), Targets(old(client), project))
      ensures results == RecallSpec(old(client), query, project, tags, nResults, minRelevance, index)
    {
      var projects := if Truthy(project) then [project.value] else ProjectNames(client.names);
      if projects == [] {
        return [];
      }
      ghost var c0 := client;
      ghost var where0 := BuildTagFilter(tags);
      var allResults: seq<RecallResult> := [];
      for i := 0 to |projects|
        invariant client == Touch(c0, projects[..i])
        invariant allResults == Pool(c0, projects[..i], query, where0, nResults, minRelevance, index)
      {
        TouchStep(c0, projects, i);
        PoolStep(c0, projects, i, query, where0, nResults, minRelevance, index);
        var collection := GetCollection(projects[i]);
        var found := QueryOne(collection, query, BuildTagFilter(tags), nResults, minRelevance, index);
        allResults := allResults + found;
      }
      assert projects[..|projects|] == projects;
      TouchKeepsInv(c0, projects);
      allResults := Sorting.Sort(allResults, ByRelevance);
      results := Head(allResults, nResults);
    }

    /** The deletion loop of `forget`'s ids and tags modes: per project, get
        the selected records, delete their ids when there are any, and extend
        the deleted list. */
    method DeleteSelected(projects: seq<string>, sel: Selector) returns (deletedIds: seq<string>)
      requires Valid()
      modifies this
      ensures Valid()
      ensures (client, deletedIds) == Purge(old(client), projects, sel)
    {
      ghost var c0 := client;
      deletedIds := [];
      for i := 0 to |projects|
        invariant (client, deletedIds) == Purge(c0, projects[..i], sel)
      {
        PurgeStep(c0, projects, i, sel);
        var collection := GetCollection(projects[i]);
        var found := Ids(match sel
                         case ByIds(ids) => WithIds(collection, ids)
                         case ByFilter(where) => Matching(collection, where));
        if found != [] {
          client := DeleteIds(client, CollectionName(projects[i]), found);
          deletedIds := deletedIds + found;
        }
      }
      assert projects[..|projects|] == projects;
      PurgeKeepsInv(c0, projects, sel);
    }

    /** `forget(ids, project, tags)`: by ids across every memory collection, else
        a whole project's collection, else by tags. */
    method Forget(ids: Option<seq<string>>, project: Option<string>, tags: Option<seq<string>>)
      returns (r: Result<Forgotten, StoreError>)
      requires Valid()
      modifies this
      ensures Valid()
      ensures ForgetSpec(old(client), ids, project, tags).Err? ==>
                r == Err(ForgetSpec(old(client), ids, project, tags).error) && client == old(client)
      ensures ForgetSpec(old(client), ids, project, tags).Ok? ==>
                r == Ok(ForgetSpec(old(client), ids, project, tags).value.1) &&
                client == ForgetSpec(old(client), ids, project, tags).value.0
    {
      if !Truthy(ids) && !Truthy(project) && !Truthy(tags) {
        return Err(ValueError(NoCriteria));
      }
      ghost var c0 := client;
      var deletedIds: seq<string> := [];
      if Truthy(ids) {
        var projects := ProjectNames(client.names);
        deletedIds := DeleteSelected(projects, ByIds(ids.value));
      } else if Truthy(project) && !Truthy(tags) {
        var colName := CollectionName(project.value);
        if colName in client.cols {
          deletedIds := deletedIds + Ids(client.cols[colName]);
          client := DeleteCollection(client, colName);
          DeleteCollectionKeepsInv(c0, colName);
          assert deletedIds == Ids(c0.cols[colName]);
        }
      } else if Truthy(tags) {
        var projects := if Truthy(project) then [project.value] else ProjectNames(client.names);
        var where := BuildTagFilter(tags);
        if where.Some? {
          deletedIds := DeleteSelected(projects, ByFilter(where.value));
        }
      }
      return Ok(Forgotten(|deletedIds|, deletedIds));
    }

    /** `list_memories(project, tags, page, page_size)`. */
    method ListMemories(project: Option<string>, tags: Option<seq<string>>, page: int, pageSize: int)
      returns (listing: Listing)
      requires Valid() && page >= 1 && pageSize >= 1
      modifies this
      ensures Valid()
      ensures client == Touch(old(client), Targets(old(client), project))
      ensures listing == ListSpec(old(client), project, tags, page, pageSize)
    {
      var projects := if Truthy(project) then [project.value] else ProjectNames(client.names);
      ghost var c0 := client;
      var allMemories: seq<Memory> := [];
      var projectStats: map<string, nat> := map[];
      var where := BuildTagFilter(tags);
      for i := 0 to |projects|
        invariant client == Touch(c0, projects[..i])
        invariant allMemories == Gathered(c0, projects[..i], where)
        invariant projectStats == Stats(c0, projects[..i], where)
      {
        TouchStep(c0, projects, i);
        GatheredStep(c0, projects, i, where);
        StatsStep(c0, projects, i, where);
        var collection := GetCollection(projects[i]);
        var result := if where.Some? then Matching(collection, where.value) else collection;
        projectStats := projectStats[projects[i] := |result|];
        var memories := ReadRecords(result);
        allMemories := allMemories + memories;
      }
      assert projects[..|projects|] == projects;
      TouchKeepsInv(c0, projects);
      allMemories := Sorting.Sort(allMemories, ByNewest);
      var total := |allMemories|;
      listing := Listing(Page(allMemories, page, pageSize), total, projectStats);
    }
  }
}
