/** What `store` does to the client and how the new memory reads back. */
module StoreProps {
  import opened Wrappers
  import opened Chroma
  import opened Models
  import opened Naming
  import opened TagCodec
  import opened Storage
  import opened ListProps
  import Strings

  /** `store` appends exactly the new record to the project's collection,
      creating it at the end of the listing when absent; every other
      collection is unchanged. */
  lemma StoreAppends(c: Client, project: string, r: Record)
    ensures var c' := Stored(c, project, r);
            var name := CollectionName(project);
            && c'.cols[name] == Col(c, name) + [r]
            && c'.cols.Keys == c.cols.Keys + {name}
            && (forall n :: n in c.cols && n != name ==> c'.cols[n] == c.cols[n])
            && c'.names == if name in c.cols then c.names else c.names + [name]
  {
  }

  /** Reading the stored record back gives the memory `store` returned, with
      its tags sorted (`sorted` is how they were joined). */
  lemma StoreReadBack(id: string, content: string, project: string, tags: Option<seq<string>>,
                      source: string, importance: int, timestamp: string)
    requires Supported(TagsOrEmpty(tags))
    ensures var ts := TagsOrEmpty(tags);
            MemoryFromChroma(id, content, StoreMetadata(project, source, importance, timestamp, ts)) ==
              Ok(Memory(id, content, project, SortTags(ts), source, importance, timestamp))
  {
    var ts := TagsOrEmpty(tags);
    var md := StoreMetadata(project, source, importance, timestamp, ts);
    StoreMetadataFields(project, source, importance, timestamp, ts);
    TagRoundTrip(ts);
    assert MetadataToTags(md) == MetadataToTags(TagMetadata(ts));
  }

  /** After `store`, `_list_project_names` lists a name for the project that
      maps back to the same collection, so `recall`, `forget` and
      `list_memories` without a project reach the new record. */
  lemma StoreDiscoverable(c: Client, project: string, r: Record)
    requires Inv(c) && IdFresh(c, r.id) && Placed(CollectionName(project), r)
    ensures var c' := Stored(c, project, r);
            && Normalize(project) in ProjectNames(c'.names)
            && CollectionName(Normalize(project)) == CollectionName(project)
            && r in Col(c', CollectionName(Normalize(project)))
  {
    CollectionNameRoundTrip(project);
    StoredKeepsInv(c, project, r);
    var name := CollectionName(project);
    assert Prefix + Normalize(project) == name;
  }

  /** The memory of the new record is listed under its project, also when
      listing by any of its tags. */
  lemma StoreThenListed(c: Client, project: string, r: Record, tags: Option<seq<string>>)
    requires Inv(c) && IdFresh(c, r.id) && Placed(CollectionName(project), r) && project != ""
    requires Truthy(tags) ==> forall t :: t in tags.value ==> HasFlag(r.metadata, t)
    ensures Inv(Stored(c, project, r))
    ensures MemoryOf(r) in ListOrder(Stored(c, project, r), Some(project), tags)
  {
    var c' := Stored(c, project, r);
    StoredKeepsInv(c, project, r);
    ListDrawn(c', Some(project), tags);
    assert [project][0] == project;
    assert Carried(c', [project], tags, MemoryOf(r));
  }

  /** Without tags, `store` grows the project's listing total by one. */
  lemma StoreGrowsTotal(c: Client, project: string, r: Record, page: int, pageSize: int)
    requires Inv(c) && IdFresh(c, r.id) && Placed(CollectionName(project), r) && project != ""
    requires page >= 1 && pageSize >= 1
    ensures Inv(Stored(c, project, r))
    ensures ListSpec(Stored(c, project, r), Some(project), None, page, pageSize).total ==
            ListSpec(c, Some(project), None, page, pageSize).total + 1
  {
    var c' := Stored(c, project, r);
    StoredKeepsInv(c, project, r);
    ListCounts(c, Some(project), None, page, pageSize);
    ListCounts(c', Some(project), None, page, pageSize);
    assert [project][..0] == [];
  }

  /** Every record of a memory collection after `store` is no newer than the new one. */
  lemma StoredNotAfter(c: Client, project: string, r: Record, n: string, s: Record)
    requires Inv(c) && Placed(CollectionName(project), r) && NotBefore(c, TimestampOf(r))
    requires n in Stored(c, project, r).cols && HasPrefix(n) && s in Stored(c, project, r).cols[n]
    requires WellFormed(s.metadata)
    ensures Strings.LexLe(TimestampOf(s), TimestampOf(r))
  {
    if s == r {
      Strings.LexLeReflexive(TimestampOf(r));
    } else {
      assert n in c.cols && s in c.cols[n];
    }
  }

  /** A memory that one of the projects' collections carries after `store`
      is no newer than the one just stored. */
  lemma CarriedNotAfter(c: Client, project: string, r: Record, projects: seq<string>,
                        tags: Option<seq<string>>, m: Memory)
    requires Inv(c) && Placed(CollectionName(project), r) && NotBefore(c, TimestampOf(r))
    requires Carried(Stored(c, project, r), projects, tags, m)
    ensures Strings.LexLe(m.timestamp, TimestampOf(r))
  {
    var c' := Stored(c, project, r);
    var i, s :| 0 <= i < |projects| && s in Col(c', CollectionName(projects[i])) &&
                WellFormed(s.metadata) && m == MemoryOf(s) &&
                (Truthy(tags) ==> forall t :: t in tags.value ==> HasFlag(s.metadata, t));
    MemoryOfFields(s);
    CollectionNameRoundTrip(projects[i]);
    StoredNotAfter(c, project, r, CollectionName(projects[i]), s);
  }

  /** With the clock not running back, no memory the store lists after
      `store` is newer than the one just stored. */
  lemma StoreIsNewest(c: Client, project: string, r: Record, listProject: Option<string>,
                      tags: Option<seq<string>>)
    requires Inv(c) && IdFresh(c, r.id) && Placed(CollectionName(project), r)
    requires NotBefore(c, TimestampOf(r))
    ensures Inv(Stored(c, project, r))
    ensures forall m :: m in ListOrder(Stored(c, project, r), listProject, tags) ==>
              Strings.LexLe(m.timestamp, TimestampOf(r))
  {
    var c' := Stored(c, project, r);
    StoredKeepsInv(c, project, r);
    ListDrawn(c', listProject, tags);
    forall m | m in ListOrder(c', listProject, tags)
      ensures Strings.LexLe(m.timestamp, TimestampOf(r))
    {
      CarriedNotAfter(c, project, r, Targets(c', listProject), tags, m);
    }
  }
}
