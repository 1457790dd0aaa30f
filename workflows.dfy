/** What a sequence of calls on one store leaves behind: each lemma runs one
    operation on the client another one returned. */
module Workflows {
  import opened Wrappers
  import opened Chroma
  import opened Models
  import opened Naming
  import opened TagCodec
  import opened Storage
  import opened ForgetProps
  import opened ListProps
  import opened RecallProps
  import Seqs
  import StoreProps

  /** `store` then `forget(ids=[id])` with the new id: exactly that one
      memory goes, the report is `(1, [id])`, and every collection holds the
      records it held before `store`. */
  lemma StoreThenForgetById(c: Client, project: string, r: Record)
    requires Inv(c) && IdFresh(c, r.id) && Placed(CollectionName(project), r)
    ensures var c1 := Stored(c, project, r);
            && ForgetSpec(c1, Some([r.id]), None, None).Ok?
            && ForgetSpec(c1, Some([r.id]), None, None).value.1 == Forgotten(1, [r.id])
            && var c2 := ForgetSpec(c1, Some([r.id]), None, None).value.0;
               && c2.cols.Keys == c.cols.Keys + {CollectionName(project)}
               && (forall n, s :: n in c2.cols ==> (s in c2.cols[n] <==> s in Col(c, n)))
  {
    var name := CollectionName(project);
    var c1 := Stored(c, project, r);
    StoreThenForgetReport(c, project, r);
    StoredKeepsInv(c, project, r);
    StoreProps.StoreAppends(c, project, r);
    ForgetByIds(c1, Some([r.id]), None, None);
    CollectionNameRoundTrip(project);
    DeletedAgain(c, c1, ForgetSpec(c1, Some([r.id]), None, None).value.0, name, r);
  }

  /** Deleting from every memory collection of `c1` the id of the record `r`
      that `c1` added to `c`'s collection `name` gives back `c`'s contents. */
  lemma DeletedAgain(c: Client, c1: Client, c2: Client, name: string, r: Record)
    requires HasPrefix(name) && IdFresh(c, r.id)
    requires c1.cols.Keys == c.cols.Keys + {name} && c1.cols[name] == Col(c, name) + [r]
    requires forall n :: n in c.cols && n != name ==> c1.cols[n] == c.cols[n]
    requires c2.cols.Keys == c1.cols.Keys
    requires forall n :: n in c1.cols && HasPrefix(n) ==>
               forall s :: s in c2.cols[n] <==> s in c1.cols[n] && s.id !in [r.id]
    requires forall n :: n in c1.cols && !HasPrefix(n) ==> c2.cols[n] == c1.cols[n]
    ensures forall n, s :: n in c2.cols ==> (s in c2.cols[n] <==> s in Col(c, n))
  {
    forall n, s | n in c2.cols
      ensures s in c2.cols[n] <==> s in Col(c, n)
    {
      if n == name {
        assert s in c2.cols[n] <==> s in Col(c, name) + [r] && s.id != r.id;
      } else if HasPrefix(n) {
        assert s in c2.cols[n] <==> s in c.cols[n] && s.id != r.id;
      }
    }
  }

  /** The report half of `StoreThenForgetById`. */
  lemma StoreThenForgetReport(c: Client, project: string, r: Record)
    requires Inv(c) && IdFresh(c, r.id) && Placed(CollectionName(project), r)
    ensures var c1 := Stored(c, project, r);
            && ForgetSpec(c1, Some([r.id]), None, None).Ok?
            && ForgetSpec(c1, Some([r.id]), None, None).value.1 == Forgotten(1, [r.id])
  {
    var name := CollectionName(project);
    var c1 := Stored(c, project, r);
    var ids := Some([r.id]);
    StoredKeepsInv(c, project, r);
    CollectionNameRoundTrip(project);
    ForgetByIds(c1, ids, None, None);
    ForgetReportsOnce(c1, ids, None, None);
    var f := ForgetSpec(c1, ids, None, None).value.1;
    assert c1.cols[name] == Col(c, name) + [r];
    InIds(c1.cols[name], r.id);
    assert Held(c1, r.id);
    Seqs.DistinctSingleton(f.ids, r.id);
  }

  /** `forget(project=p)` then `list_memories(project=p)`: nothing is listed,
      `total` is 0 and the project's count is 0. */
  lemma ForgetThenListEmpty(c: Client, project: string, tags: Option<seq<string>>, page: int, pageSize: int)
    requires Inv(c) && project != "" && page >= 1 && pageSize >= 1
    ensures ForgetSpec(c, None, Some(project), None).Ok?
    ensures var c1 := ForgetSpec(c, None, Some(project), None).value.0;
            && Inv(c1)
            && ListSpec(c1, Some(project), tags, page, pageSize) == Listing([], 0, map[project := 0])
  {
    ForgetWholeProject(c, Some(project), None);
    var c1 := ForgetSpec(c, None, Some(project), None).value.0;
    var ps := Targets(c1, Some(project));
    assert ps == [project];
    assert Col(c1, CollectionName(project)) == [];
    ListCounts(c1, Some(project), tags, page, pageSize);
    CountSumZero(c1, ps, BuildTagFilter(tags));
    GatheredSize(c1, ps, BuildTagFilter(tags));
    ListOrderFacts(c1, Some(project), tags);
    var l := ListSpec(c1, Some(project), tags, page, pageSize);
    assert l.stats == map[project := 0];
  }

  /** `forget(ids=...)` then `recall`: no recalled memory has a forgotten id. */
  lemma ForgetThenNotRecalled(c: Client, ids: Option<seq<string>>, query: string, project: Option<string>,
                              tags: Option<seq<string>>, n: int, minRelevance: Option<real>, index: Index)
    requires Inv(c) && IndexSound(index) && Truthy(ids)
    ensures ForgetSpec(c, ids, None, None).Ok?
    ensures var c1 := ForgetSpec(c, ids, None, None).value.0;
            && Inv(c1)
            && forall x :: x in RecallSpec(c1, query, project, tags, n, minRelevance, index) ==>
                 x.memory.id !in ids.value
  {
    ForgottenGone(c, ids);
    var c1 := ForgetSpec(c, ids, None, None).value.0;
    RecallDrawn(c1, query, project, tags, n, minRelevance, index);
    forall x | x in RecallSpec(c1, query, project, tags, n, minRelevance, index)
      ensures x.memory.id !in ids.value
    {
      DrawnIdHeld(c1, Targets(c1, project), BuildTagFilter(tags), x, ids.value);
    }
  }

  /** A result drawn from memory collections none of which holds an id in
      `ids` does not have such an id. */
  lemma DrawnIdHeld(c: Client, projects: seq<string>, where: Option<Filter>, x: RecallResult, ids: seq<string>)
    requires forall n, r :: InCollection(c, n, r) && HasPrefix(n) ==> r.id !in ids
    requires DrawnFrom(c, projects, where, x)
    ensures x.memory.id !in ids
  {
    var i :| 0 <= i < |projects| && Drawn(Col(c, CollectionName(projects[i])), where, x);
    var name := CollectionName(projects[i]);
    CollectionNameRoundTrip(projects[i]);
    var r :| r in Col(c, name) && WellFormed(r.metadata) && MatchesWhere(where, r.metadata) &&
      x.memory == MemoryOf(r) && x.relevanceScore == Relevance(x.distance);
    assert InCollection(c, name, r);
  }

  /** After `forget(ids=...)` no memory collection holds a forgotten id. */
  lemma ForgottenGone(c: Client, ids: Option<seq<string>>)
    requires Inv(c) && Truthy(ids)
    ensures ForgetSpec(c, ids, None, None).Ok?
    ensures var c1 := ForgetSpec(c, ids, None, None).value.0;
            && Inv(c1)
            && forall n, r :: InCollection(c1, n, r) && HasPrefix(n) ==> r.id !in ids.value
  {
    ForgetByIds(c, ids, None, None);
  }
}
