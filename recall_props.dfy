/** What `recall` returns: a bounded, relevance-ordered, thresholded selection
    of memories drawn from the target collections. */
module RecallProps {
  import opened Wrappers
  import opened Chroma
  import opened Models
  import opened Naming
  import opened TagCodec
  import opened Storage
  import Sorting

  /** `x` is the scored memory of a record of `col` that passes the filter. */
  predicate Drawn(col: seq<Record>, where: Option<Filter>, x: RecallResult)
  {
    exists r :: r in col && WellFormed(r.metadata) && MatchesWhere(where, r.metadata) &&
      x.memory == MemoryOf(r) && x.relevanceScore == Relevance(x.distance)
  }

  /** `x` comes from the collection of one of the projects. */
  predicate DrawnFrom(c: Client, projects: seq<string>, where: Option<Filter>, x: RecallResult)
  {
    exists i :: 0 <= i < |projects| && Drawn(Col(c, CollectionName(projects[i])), where, x)
  }

  predicate AboveThreshold(minRelevance: Option<real>, x: RecallResult)
  {
    minRelevance.Some? ==> x.relevanceScore >= minRelevance.value
  }

  /** A hit scored as `recall` scores it. */
  function Scored(h: Hit): RecallResult
    requires WellFormed(h.record.metadata)
  {
    RecallResult(MemoryOf(h.record), Relevance(h.distance), h.distance)
  }

  /** The candidates of an answer are exactly its scored hits that pass the
      threshold, and there are no more of them than hits. */
  lemma {:induction false} CandidatesFacts(hits: seq<Hit>, minRelevance: Option<real>)
    requires forall i :: 0 <= i < |hits| ==> WellFormed(hits[i].record.metadata)
    ensures |Candidates(hits, minRelevance)| <= |hits|
    ensures forall x :: x in Candidates(hits, minRelevance) ==>
              exists i :: 0 <= i < |hits| && x == Scored(hits[i]) && AboveThreshold(minRelevance, x)
    ensures forall i :: 0 <= i < |hits| && AboveThreshold(minRelevance, Scored(hits[i])) ==>
              Scored(hits[i]) in Candidates(hits, minRelevance)
    decreases |hits|
  {
    CandidatesComplete(hits, minRelevance);
    if hits != [] {
      var init := hits[..|hits| - 1];
      var h := hits[|hits| - 1];
      CandidatesFacts(init, minRelevance);
      var last := if AboveThreshold(minRelevance, Scored(h)) then [Scored(h)] else [];
      assert Candidates(hits, minRelevance) == Candidates(init, minRelevance) + last;
      forall x | x in Candidates(hits, minRelevance)
        ensures exists i :: 0 <= i < |hits| && x == Scored(hits[i]) && AboveThreshold(minRelevance, x)
      {
        if x in Candidates(init, minRelevance) {
          var i :| 0 <= i < |init| && x == Scored(init[i]) && AboveThreshold(minRelevance, x);
          assert init[i] == hits[i];
        } else {
          assert x == Scored(hits[|hits| - 1]);
        }
      }
    }
  }

  /** Every scored hit that passes the threshold is a candidate. */
  lemma {:induction false} CandidatesComplete(hits: seq<Hit>, minRelevance: Option<real>)
    requires forall i :: 0 <= i < |hits| ==> WellFormed(hits[i].record.metadata)
    ensures forall i :: 0 <= i < |hits| && AboveThreshold(minRelevance, Scored(hits[i])) ==>
              Scored(hits[i]) in Candidates(hits, minRelevance)
    decreases |hits|
  {
    if hits != [] {
      var init := hits[..|hits| - 1];
      var h := hits[|hits| - 1];
      CandidatesComplete(init, minRelevance);
      var last := if AboveThreshold(minRelevance, Scored(h)) then [Scored(h)] else [];
      assert Candidates(hits, minRelevance) == Candidates(init, minRelevance) + last;
      forall i | 0 <= i < |init|
        ensures hits[i] == init[i]
      {
      }
    }
  }

  /** One collection's share: nothing when the cap is below 1, at most the cap
      and at most the collection's size, only thresholded memories of records
      that pass the filter, and every hit of the capped query that passes the
      threshold. */
  lemma QueryFacts(col: seq<Record>, query: string, where: Option<Filter>, n: int,
                   minRelevance: Option<real>, index: Index)
    requires IndexSound(index)
    requires forall r :: r in col ==> WellFormed(r.metadata)
    ensures n < 1 ==> QueryCollection(col, query, where, n, minRelevance, index) == []
    ensures |QueryCollection(col, query, where, n, minRelevance, index)| <= |col|
    ensures n >= 0 ==> |QueryCollection(col, query, where, n, minRelevance, index)| <= n
    ensures forall x :: x in QueryCollection(col, query, where, n, minRelevance, index) ==>
              AboveThreshold(minRelevance, x) && Drawn(col, where, x)
    ensures n >= 1 && |col| > 0 ==>
              var hits := index(query, col, where, Cap(n, |col|));
              forall i :: 0 <= i < |hits| && WellFormed(hits[i].record.metadata) &&
                          AboveThreshold(minRelevance, Scored(hits[i])) ==>
                Scored(hits[i]) in QueryCollection(col, query, where, n, minRelevance, index)
  {
    if |col| > 0 {
      var k := Cap(n, |col|);
      if k >= 1 {
        var hits := index(query, col, where, k);
        assert Answers(col, where, k, hits);
        CandidatesFacts(hits, minRelevance);
        CandidatesComplete(hits, minRelevance);
        forall x | x in Candidates(hits, minRelevance)
          ensures Drawn(col, where, x)
        {
          var i :| 0 <= i < |hits| && x == Scored(hits[i]) && AboveThreshold(minRelevance, x);
          assert hits[i].record in col;
        }
      }
    }
  }

  /** The pool: empty when the cap is below 1 or every target collection is
      empty, only thresholded memories drawn from the targets, and every hit
      of every target's capped query that passes the threshold. */
  lemma PoolFacts(c: Client, projects: seq<string>, query: string, where: Option<Filter>,
                  n: int, minRelevance: Option<real>, index: Index)
    requires Inv(c) && IndexSound(index)
    ensures n < 1 ==> Pool(c, projects, query, where, n, minRelevance, index) == []
    ensures (forall i :: 0 <= i < |projects| ==> Col(c, CollectionName(projects[i])) == []) ==>
              Pool(c, projects, query, where, n, minRelevance, index) == []
    ensures forall x :: x in Pool(c, projects, query, where, n, minRelevance, index) ==>
              AboveThreshold(minRelevance, x) && DrawnFrom(c, projects, where, x)
    ensures n >= 1 ==>
              forall i :: 0 <= i < |projects| && Col(c, CollectionName(projects[i])) != [] ==>
                var col := Col(c, CollectionName(projects[i]));
                var hits := index(query, col, where, Cap(n, |col|));
                forall j :: 0 <= j < |hits| && WellFormed(hits[j].record.metadata) &&
                            AboveThreshold(minRelevance, Scored(hits[j])) ==>
                  Scored(hits[j]) in Pool(c, projects, query, where, n, minRelevance, index)
  {
    PoolSound(c, projects, query, where, n, minRelevance, index);
    if n >= 1 {
      forall i | 0 <= i < |projects| && Col(c, CollectionName(projects[i])) != [] {
        PoolComplete(c, projects, i, query, where, n, minRelevance, index);
      }
    }
  }

  /** The empty cases and the soundness half of `PoolFacts`. */
  lemma {:induction false} PoolSound(c: Client, projects: seq<string>, query: string, where: Option<Filter>,
                                     n: int, minRelevance: Option<real>, index: Index)
    requires Inv(c) && IndexSound(index)
    ensures n < 1 ==> Pool(c, projects, query, where, n, minRelevance, index) == []
    ensures (forall i :: 0 <= i < |projects| ==> Col(c, CollectionName(projects[i])) == []) ==>
              Pool(c, projects, query, where, n, minRelevance, index) == []
    ensures forall x :: x in Pool(c, projects, query, where, n, minRelevance, index) ==>
              AboveThreshold(minRelevance, x) && DrawnFrom(c, projects, where, x)
    decreases |projects|
  {
    if projects != [] {
      var init := projects[..|projects| - 1];
      var p := projects[|projects| - 1];
      PoolSound(c, init, query, where, n, minRelevance, index);
      CollectionPlaced(c, p);
      var col := Col(c, CollectionName(p));
      QueryFacts(col, query, where, n, minRelevance, index);
      assert Pool(c, projects, query, where, n, minRelevance, index) ==
               Pool(c, init, query, where, n, minRelevance, index) +
                 QueryCollection(col, query, where, n, minRelevance, index);
      assert forall i :: 0 <= i < |init| ==> init[i] == projects[i];
      forall x | x in Pool(c, projects, query, where, n, minRelevance, index)
        ensures DrawnFrom(c, projects, where, x)
      {
        if x in Pool(c, init, query, where, n, minRelevance, index) {
          var i :| 0 <= i < |init| && Drawn(Col(c, CollectionName(init[i])), where, x);
        } else {
          assert Drawn(Col(c, CollectionName(projects[|projects| - 1])), where, x);
        }
      }
    }
  }

  /** The pool holds everything each target adds. */
  lemma {:induction false} PoolHoldsShares(c: Client, projects: seq<string>, query: string, where: Option<Filter>,
                                           n: int, minRelevance: Option<real>, index: Index)
    requires Inv(c) && IndexSound(index)
    ensures forall i, x :: 0 <= i < |projects| && x in Share(c, projects[i], query, where, n, minRelevance, index) ==>
              x in Pool(c, projects, query, where, n, minRelevance, index)
    decreases |projects|
  {
    if projects != [] {
      var init := projects[..|projects| - 1];
      var before := Pool(c, init, query, where, n, minRelevance, index);
      var last := Share(c, projects[|projects| - 1], query, where, n, minRelevance, index);
      PoolHoldsShares(c, init, query, where, n, minRelevance, index);
      assert Pool(c, projects, query, where, n, minRelevance, index) == before + last;
      forall i, x | 0 <= i < |projects| && x in Share(c, projects[i], query, where, n, minRelevance, index)
        ensures x in before + last
      {
        if i < |init| {
          assert init[i] == projects[i];
          assert x in before;
        }
      }
    }
  }

  /** Every hit of every target's capped query that passes the threshold is
      in the pool. */
  lemma PoolComplete(c: Client, projects: seq<string>, i: nat, query: string, where: Option<Filter>,
                     n: int, minRelevance: Option<real>, index: Index)
    requires Inv(c) && IndexSound(index) && i < |projects| && n >= 1
    requires Col(c, CollectionName(projects[i])) != []
    ensures var col := Col(c, CollectionName(projects[i]));
            var hits := index(query, col, where, Cap(n, |col|));
            && (forall j :: 0 <= j < |hits| ==> hits[j].record in col && WellFormed(hits[j].record.metadata))
            && (forall j :: 0 <= j < |hits| && WellFormed(hits[j].record.metadata) &&
                            AboveThreshold(minRelevance, Scored(hits[j])) ==>
                  Scored(hits[j]) in Pool(c, projects, query, where, n, minRelevance, index))
  {
    var col := Col(c, CollectionName(projects[i]));
    var hits := index(query, col, where, Cap(n, |col|));
    assert Answers(col, where, Cap(n, |col|), hits);
    CollectionPlaced(c, projects[i]);
    QueryFacts(col, query, where, n, minRelevance, index);
    PoolHoldsShares(c, projects, query, where, n, minRelevance, index);
  }

  lemma ByRelevanceOrders()
    ensures Sorting.TotalPreorder(ByRelevance)
  {
  }

  /** The sorted pool `recall` truncates. */
  function Ranked(c: Client, query: string, project: Option<string>, tags: Option<seq<string>>,
                  n: int, minRelevance: Option<real>, index: Index): seq<RecallResult>
    requires Inv(c) && IndexSound(index)
  {
    Sorting.Sort(Pool(c, Targets(c, project), query, BuildTagFilter(tags), n, minRelevance, index), ByRelevance)
  }

  /** The result is the first `n_results` of the pool ranked by relevance: it
      holds the pool's elements, each as often, and everything it keeps scores
      at least as high as everything it cuts off. */
  lemma RecallTopN(c: Client, query: string, project: Option<string>, tags: Option<seq<string>>,
                   n: int, minRelevance: Option<real>, index: Index)
    requires Inv(c) && IndexSound(index) && n >= 0
    ensures var ranked := Ranked(c, query, project, tags, n, minRelevance, index);
            var r := RecallSpec(c, query, project, tags, n, minRelevance, index);
            && multiset(ranked) == multiset(Pool(c, Targets(c, project), query, BuildTagFilter(tags), n, minRelevance, index))
            && |r| == (if n < |ranked| then n else |ranked|)
            && r == ranked[..|r|]
            && forall x, y :: x in r && y in ranked[|r|..] ==> x.relevanceScore >= y.relevanceScore
  {
    var pool := Pool(c, Targets(c, project), query, BuildTagFilter(tags), n, minRelevance, index);
    var ranked := Ranked(c, query, project, tags, n, minRelevance, index);
    Sorting.SortPermutes(pool, ByRelevance);
    ByRelevanceOrders();
    Sorting.SortSorted(pool, ByRelevance);
    var k := if n < |ranked| then n else |ranked|;
    Sorting.PrefixDominates(ranked, k, ByRelevance);
    if Targets(c, project) == [] {
      assert pool == [];
    }
  }

  /** A result from the ranked pool is a pooled candidate. */
  lemma RecalledArePooled(c: Client, query: string, project: Option<string>, tags: Option<seq<string>>,
                          n: int, minRelevance: Option<real>, index: Index)
    requires Inv(c) && IndexSound(index)
    ensures forall x :: x in RecallSpec(c, query, project, tags, n, minRelevance, index) ==>
              x in Pool(c, Targets(c, project), query, BuildTagFilter(tags), n, minRelevance, index)
  {
    var pool := Pool(c, Targets(c, project), query, BuildTagFilter(tags), n, minRelevance, index);
    Sorting.SortPermutes(pool, ByRelevance);
    forall x | x in RecallSpec(c, query, project, tags, n, minRelevance, index)
      ensures x in pool
    {
      assert x in multiset(Sorting.Sort(pool, ByRelevance));
    }
  }

  /** At most `n_results` results, and none at all when `n_results < 1`. */
  lemma RecallBounded(c: Client, query: string, project: Option<string>, tags: Option<seq<string>>,
                      n: int, minRelevance: Option<real>, index: Index)
    requires Inv(c) && IndexSound(index)
    ensures n < 1 ==> RecallSpec(c, query, project, tags, n, minRelevance, index) == []
    ensures n >= 0 ==> |RecallSpec(c, query, project, tags, n, minRelevance, index)| <= n
  {
    PoolSound(c, Targets(c, project), query, BuildTagFilter(tags), n, minRelevance, index);
  }

  /** Scores never increase along the result. */
  lemma RecallOrdered(c: Client, query: string, project: Option<string>, tags: Option<seq<string>>,
                      n: int, minRelevance: Option<real>, index: Index)
    requires Inv(c) && IndexSound(index)
    ensures var r := RecallSpec(c, query, project, tags, n, minRelevance, index);
            forall i, j :: 0 <= i < j < |r| ==> r[i].relevanceScore >= r[j].relevanceScore
  {
    var ranked := Ranked(c, query, project, tags, n, minRelevance, index);
    ByRelevanceOrders();
    Sorting.SortSorted(Pool(c, Targets(c, project), query, BuildTagFilter(tags), n, minRelevance, index), ByRelevance);
    PoolSound(c, Targets(c, project), query, BuildTagFilter(tags), n, minRelevance, index);
    var r := RecallSpec(c, query, project, tags, n, minRelevance, index);
    if n >= 0 {
      forall i, j | 0 <= i < j < |r| ensures r[i].relevanceScore >= r[j].relevanceScore {
        assert r[i] == ranked[i] && r[j] == ranked[j];
      }
    }
  }

  /** With a threshold, no result scores below it; every result is the scored
      memory of a record, passing the tag filter, of a target collection. */
  lemma RecallDrawn(c: Client, query: string, project: Option<string>, tags: Option<seq<string>>,
                    n: int, minRelevance: Option<real>, index: Index)
    requires Inv(c) && IndexSound(index)
    ensures forall x :: x in RecallSpec(c, query, project, tags, n, minRelevance, index) ==>
              AboveThreshold(minRelevance, x) && DrawnFrom(c, Targets(c, project), BuildTagFilter(tags), x)
  {
    RecalledArePooled(c, query, project, tags, n, minRelevance, index);
    PoolSound(c, Targets(c, project), query, BuildTagFilter(tags), n, minRelevance, index);
  }

  /** With a project, every result is a memory of that project's collection. */
  lemma RecallScoped(c: Client, query: string, project: Option<string>, tags: Option<seq<string>>,
                     n: int, minRelevance: Option<real>, index: Index)
    requires Inv(c) && IndexSound(index) && Truthy(project)
    ensures forall x :: x in RecallSpec(c, query, project, tags, n, minRelevance, index) ==>
              CollectionName(x.memory.project) == CollectionName(project.value)
  {
    RecallDrawn(c, query, project, tags, n, minRelevance, index);
    CollectionPlaced(c, project.value);
    var name := CollectionName(project.value);
    forall x | x in RecallSpec(c, query, project, tags, n, minRelevance, index)
      ensures CollectionName(x.memory.project) == name
    {
      assert Drawn(Col(c, name), BuildTagFilter(tags), x);
      var r :| r in Col(c, name) && WellFormed(r.metadata) && x.memory == MemoryOf(r);
      MemoryOfFields(r);
    }
  }

  /** With tags, every result is the memory of a stored record carrying the
      flag of every tag, and reads back with each given tag the codec can
      carry (non-empty, no comma) among its tags. */
  lemma RecallTagged(c: Client, query: string, project: Option<string>, tags: Option<seq<string>>,
                     n: int, minRelevance: Option<real>, index: Index)
    requires Inv(c) && IndexSound(index) && Truthy(tags)
    ensures forall x :: x in RecallSpec(c, query, project, tags, n, minRelevance, index) ==>
              exists r :: r in Records(c) && WellFormed(r.metadata) && x.memory == MemoryOf(r) &&
                forall t :: t in tags.value ==> HasFlag(r.metadata, t)
    ensures forall x, t ::
              (x in RecallSpec(c, query, project, tags, n, minRelevance, index) &&
               t in tags.value && t != "" && ',' !in t) ==> t in x.memory.tags
  {
    RecallDrawn(c, query, project, tags, n, minRelevance, index);
    var ps := Targets(c, project);
    forall x | x in RecallSpec(c, query, project, tags, n, minRelevance, index)
      ensures exists r :: r in Records(c) && WellFormed(r.metadata) && x.memory == MemoryOf(r) &&
                forall t :: t in tags.value ==> HasFlag(r.metadata, t)
      ensures forall t :: t in tags.value && t != "" && ',' !in t ==> t in x.memory.tags
    {
      var i :| 0 <= i < |ps| && Drawn(Col(c, CollectionName(ps[i])), BuildTagFilter(tags), x);
      var r :| r in Col(c, CollectionName(ps[i])) && WellFormed(r.metadata) &&
               MatchesWhere(BuildTagFilter(tags), r.metadata) && x.memory == MemoryOf(r);
      TagFilterMatches(tags, r.metadata);
      assert r in Records(c);
      CollectionPlaced(c, ps[i]);
      MemoryOfFields(r);
    }
  }

  /** Every record the client holds, in any collection. */
  ghost function Records(c: Client): iset<Record>
  {
    iset n, r | n in c.cols && r in c.cols[n] :: r
  }

  /** A store with no memory at all recalls nothing. */
  lemma RecallNothingStored(c: Client, query: string, project: Option<string>, tags: Option<seq<string>>,
                            n: int, minRelevance: Option<real>, index: Index)
    requires Inv(c) && IndexSound(index)
    requires forall n :: n in c.cols && HasPrefix(n) ==> c.cols[n] == []
    ensures RecallSpec(c, query, project, tags, n, minRelevance, index) == []
  {
    var ps := Targets(c, project);
    forall i | 0 <= i < |ps| ensures Col(c, CollectionName(ps[i])) == [] {
      CollectionNameRoundTrip(ps[i]);
    }
    PoolSound(c, ps, query, BuildTagFilter(tags), n, minRelevance, index);
  }
}
