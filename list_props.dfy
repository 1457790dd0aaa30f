/** What `list_memories` returns: a page of every fetched memory sorted newest
    first, the size of that merged set, and per-project counts. */
module ListProps {
  import opened Wrappers
  import opened Seqs
  import opened Chroma
  import opened Models
  import opened Naming
  import opened TagCodec
  import opened Storage
  import Strings
  import Sorting

  function Min(a: int, b: int): int
  {
    if a < b then a else b
  }

  // ---------------------------------------------------------------------------
  // Pages of any sequence.

  /** Page `page`, `page_size` to a page, is `s[start:start + page_size]` with
      `start = (page - 1) * page_size`, cut at the end of `s`. */
  lemma PageIsSlice<T>(s: seq<T>, page: int, pageSize: int)
    requires page >= 1 && pageSize >= 1
    ensures var start := (page - 1) * pageSize;
            && start >= 0
            && Page(s, page, pageSize) ==
                 if start >= |s| then [] else s[start..Min(start + pageSize, |s|)]
  {
    PageStartIsProduct(page, pageSize);
  }

  /** Pages 1 to `k` one after the other. */
  function PagesUpTo<T>(s: seq<T>, k: nat, pageSize: int): seq<T>
    requires pageSize >= 1
  {
    if k == 0 then [] else PagesUpTo(s, k - 1, pageSize) + Page(s, k, pageSize)
  }

  /** Pages 1 to `k` together are the first `k * page_size` elements (or all of
      them): no element is skipped or repeated, and once `k * page_size`
      reaches the length, every element has been on exactly one page. */
  lemma {:induction false} PagesConcatenate<T>(s: seq<T>, k: nat, pageSize: int)
    requires pageSize >= 1
    ensures PagesUpTo(s, k, pageSize) == s[..Min(PageStart(k + 1, pageSize), |s|)]
  {
    if k > 0 {
      PagesConcatenate(s, k - 1, pageSize);
      var start := PageStart(k, pageSize);
      if start < |s| {
        assert s[..start] + s[start..Min(start + pageSize, |s|)] == s[..Min(start + pageSize, |s|)];
      }
    }
  }

  /** The page index of a later page starts after the earlier page ends. */
  lemma {:induction false} PageStartMonotone(p: int, q: int, pageSize: int)
    requires 1 <= p < q && pageSize >= 1
    ensures PageStart(p, pageSize) + pageSize <= PageStart(q, pageSize)
    decreases q
  {
    if q > p + 1 {
      PageStartMonotone(p, q - 1, pageSize);
    }
  }

  /** Where an element of a page sits in `s`. */
  lemma PageMember<T>(s: seq<T>, page: int, pageSize: int, x: T)
    requires page >= 1 && pageSize >= 1 && x in Page(s, page, pageSize)
    ensures exists i :: PageStart(page, pageSize) <= i < PageStart(page, pageSize) + pageSize &&
                        i < |s| && s[i] == x
  {
    var start := PageStart(page, pageSize);
    var part := Page(s, page, pageSize);
    var j :| 0 <= j < |part| && part[j] == x;
    assert s[start + j] == x;
  }

  /** Two different pages of a sequence whose elements have distinct keys
      share no key (and so no element). */
  lemma PagesDisjoint<T, K>(s: seq<T>, key: T -> K, p: int, q: int, pageSize: int)
    requires Sorting.DistinctBy(s, key) && p >= 1 && q >= 1 && p != q && pageSize >= 1
    ensures forall x, y :: x in Page(s, p, pageSize) && y in Page(s, q, pageSize) ==> key(x) != key(y)
  {
    forall x, y | x in Page(s, p, pageSize) && y in Page(s, q, pageSize)
      ensures key(x) != key(y)
    {
      PageMember(s, p, pageSize, x);
      PageMember(s, q, pageSize, y);
      var i :| PageStart(p, pageSize) <= i < PageStart(p, pageSize) + pageSize && i < |s| && s[i] == x;
      var j :| PageStart(q, pageSize) <= j < PageStart(q, pageSize) + pageSize && j < |s| && s[j] == y;
      if p < q {
        PageStartMonotone(p, q, pageSize);
      } else {
        PageStartMonotone(q, p, pageSize);
      }
    }
  }

  // ---------------------------------------------------------------------------
  // The merged set.

  /** The memories read from some records are exactly theirs. */
  lemma {:induction false} MemoriesOfMembers(rs: seq<Record>, m: Memory)
    requires forall r :: r in rs ==> WellFormed(r.metadata)
    ensures m in MemoriesOf(rs) <==> exists r :: r in rs && m == MemoryOf(r)
    decreases |rs|
  {
    if rs != [] {
      var init := rs[..|rs| - 1];
      assert forall r :: r in rs <==> r in init || r == rs[|rs| - 1];
      MemoriesOfMembers(init, m);
    }
  }

  /** `m` is the memory of one of the records. */
  predicate ReadFrom(rs: seq<Record>, m: Memory)
  {
    exists r :: r in rs && WellFormed(r.metadata) && m == MemoryOf(r)
  }

  /** `m` is the memory of a record fetched from the collection of one of the projects. */
  predicate Fetched(c: Client, projects: seq<string>, where: Option<Filter>, m: Memory)
  {
    exists i :: 0 <= i < |projects| && ReadFrom(Fetch(Col(c, CollectionName(projects[i])), where), m)
  }

  /** Splitting off the last project. */
  lemma FetchedSplit(c: Client, projects: seq<string>, where: Option<Filter>, m: Memory)
    requires projects != []
    ensures Fetched(c, projects, where, m) <==>
              Fetched(c, projects[..|projects| - 1], where, m) ||
              ReadFrom(Fetch(Col(c, CollectionName(projects[|projects| - 1])), where), m)
  {
    var init := projects[..|projects| - 1];
    assert forall i :: 0 <= i < |init| ==> init[i] == projects[i];
  }

  /** The gathered memories are exactly those of the fetched records. */
  lemma {:induction false} GatheredMembers(c: Client, projects: seq<string>, where: Option<Filter>, m: Memory)
    requires Inv(c)
    ensures m in Gathered(c, projects, where) <==> Fetched(c, projects, where, m)
    decreases |projects|
  {
    if projects != [] {
      var init := projects[..|projects| - 1];
      var p := projects[|projects| - 1];
      var rs := Fetch(Col(c, CollectionName(p)), where);
      GatheredMembers(c, init, where, m);
      CollectionPlaced(c, p);
      MemoriesOfMembers(rs, m);
      FetchedSplit(c, projects, where, m);
    }
  }

  /** A memory gathered from the other projects' collections has no id of a
      record of `p`'s collection. */
  lemma GatheredApart(c: Client, projects: seq<string>, p: string, where: Option<Filter>, m: Memory, r: Record)
    requires Inv(c)
    requires forall i :: 0 <= i < |projects| ==> CollectionName(projects[i]) != CollectionName(p)
    requires m in Gathered(c, projects, where) && r in Col(c, CollectionName(p))
    ensures m.id != r.id
  {
    GatheredMembers(c, projects, where, m);
    var i :| 0 <= i < |projects| && ReadFrom(Fetch(Col(c, CollectionName(projects[i])), where), m);
    var s :| s in Fetch(Col(c, CollectionName(projects[i])), where) && WellFormed(s.metadata) && m == MemoryOf(s);
    ApartIds(c, projects[i], p, s, r);
  }

  /** Records with distinct ids read back as memories with distinct ids. */
  lemma MemoriesOfDistinct(rs: seq<Record>)
    requires forall r :: r in rs ==> WellFormed(r.metadata)
    requires DistinctIds(rs)
    ensures Sorting.DistinctBy(MemoriesOf(rs), MemoryId)
  {
    var ms := MemoriesOf(rs);
    forall i, j | 0 <= i < j < |ms|
      ensures MemoryId(ms[i]) != MemoryId(ms[j])
    {
      assert ms[i] == MemoryOf(rs[i]) && ms[j] == MemoryOf(rs[j]);
    }
  }

  /** Memories gathered from collections no two projects share have
      distinct ids. */
  lemma {:induction false} GatheredIdsDistinct(c: Client, projects: seq<string>, where: Option<Filter>)
    requires Inv(c) && SeparateCollections(projects)
    ensures Sorting.DistinctBy(Gathered(c, projects, where), MemoryId)
    decreases |projects|
  {
    if projects != [] {
      var init := projects[..|projects| - 1];
      var p := projects[|projects| - 1];
      assert forall i :: 0 <= i < |init| ==> init[i] == projects[i];
      GatheredIdsDistinct(c, init, where);
      CollectionPlaced(c, p);
      var rs := Fetch(Col(c, CollectionName(p)), where);
      FetchContents(Col(c, CollectionName(p)), where);
      var g0 := Gathered(c, init, where);
      var ms := MemoriesOf(rs);
      MemoriesOfDistinct(rs);
      forall i, j | 0 <= i < |g0| && 0 <= j < |ms|
        ensures MemoryId(g0[i]) != MemoryId(ms[j])
      {
        assert ms[j] == MemoryOf(rs[j]) && rs[j] in rs;
        GatheredApart(c, init, p, where, g0[i], rs[j]);
      }
      Sorting.DistinctByConcat(g0, ms, MemoryId);
    }
  }

  /** Summed counts of the projects, one term per listed project. */
  function CountSum(c: Client, projects: seq<string>, where: Option<Filter>): nat
  {
    if projects == [] then 0
    else CountSum(c, projects[..|projects| - 1], where) + Count(c, projects[|projects| - 1], where)
  }

  lemma {:induction false} GatheredSize(c: Client, projects: seq<string>, where: Option<Filter>)
    requires Inv(c)
    ensures |Gathered(c, projects, where)| == CountSum(c, projects, where)
    decreases |projects|
  {
    if projects != [] {
      GatheredSize(c, projects[..|projects| - 1], where);
    }
  }

  lemma ByNewestOrders()
    ensures Sorting.TotalPreorder(ByNewest)
  {
    forall a: Memory, b: Memory ensures ByNewest(a, b) || ByNewest(b, a) {
      Strings.LexLeTotal(a.timestamp, b.timestamp);
    }
    forall a: Memory, b: Memory, d: Memory | ByNewest(a, b) && ByNewest(b, d)
      ensures ByNewest(a, d)
    {
      Strings.LexLeTransitive(d.timestamp, b.timestamp, a.timestamp);
    }
  }

  /** The merged set, before the page is cut, holds every fetched memory as
      often as it was fetched, newest first. */
  lemma ListOrderFacts(c: Client, project: Option<string>, tags: Option<seq<string>>)
    requires Inv(c)
    ensures multiset(ListOrder(c, project, tags)) == multiset(Gathered(c, Targets(c, project), BuildTagFilter(tags)))
    ensures forall i, j :: 0 <= i < j < |ListOrder(c, project, tags)| ==>
              Strings.LexLe(ListOrder(c, project, tags)[j].timestamp, ListOrder(c, project, tags)[i].timestamp)
    ensures forall m :: m in ListOrder(c, project, tags) <==> Fetched(c, Targets(c, project), BuildTagFilter(tags), m)
  {
    var g := Gathered(c, Targets(c, project), BuildTagFilter(tags));
    Sorting.SortPermutes(g, ByNewest);
    ListSorted(c, project, tags);
    forall m ensures m in ListOrder(c, project, tags) <==> Fetched(c, Targets(c, project), BuildTagFilter(tags), m) {
      GatheredMembers(c, Targets(c, project), BuildTagFilter(tags), m);
      assert m in ListOrder(c, project, tags) <==> m in multiset(ListOrder(c, project, tags));
    }
  }

  /** No id occurs twice in the merged set. */
  lemma ListIdsDistinct(c: Client, project: Option<string>, tags: Option<seq<string>>)
    requires Inv(c)
    ensures var all := ListOrder(c, project, tags);
            forall i, j :: 0 <= i < j < |all| ==> all[i].id != all[j].id
  {
    var g := Gathered(c, Targets(c, project), BuildTagFilter(tags));
    TargetsSeparate(c, project);
    GatheredIdsDistinct(c, Targets(c, project), BuildTagFilter(tags));
    Sorting.SortDistinctBy(g, ByNewest, MemoryId);
    var all := ListOrder(c, project, tags);
    forall i, j | 0 <= i < j < |all|
      ensures all[i].id != all[j].id
    {
      assert MemoryId(all[i]) != MemoryId(all[j]);
    }
  }

  // ---------------------------------------------------------------------------
  // list_memories.

  /** Two different pages of a listing share no memory id. */
  lemma ListPagesShareNoId(c: Client, project: Option<string>, tags: Option<seq<string>>,
                           p: int, q: int, pageSize: int)
    requires Inv(c) && p >= 1 && q >= 1 && p != q && pageSize >= 1
    ensures forall x, y ::
              (x in ListSpec(c, project, tags, p, pageSize).memories &&
               y in ListSpec(c, project, tags, q, pageSize).memories) ==> x.id != y.id
  {
    ListIdsDistinct(c, project, tags);
    PagesShareNoId(ListOrder(c, project, tags), p, q, pageSize);
  }

  /** Two different pages of memories with distinct ids share no id. */
  lemma PagesShareNoId(all: seq<Memory>, p: int, q: int, pageSize: int)
    requires forall i, j :: 0 <= i < j < |all| ==> all[i].id != all[j].id
    requires p >= 1 && q >= 1 && p != q && pageSize >= 1
    ensures forall x, y :: x in Page(all, p, pageSize) && y in Page(all, q, pageSize) ==> x.id != y.id
  {
    assert Sorting.DistinctBy(all, MemoryId) by {
      forall i, j | 0 <= i < j < |all|
        ensures MemoryId(all[i]) != MemoryId(all[j])
      {
      }
    }
    PagesDisjoint(all, MemoryId, p, q, pageSize);
  }

  /** The page is the slice `[(page-1)*page_size, (page-1)*page_size + page_size)`
      of the merged set sorted newest first, and `total` is the size of that set
      before the cut. */
  lemma ListPage(c: Client, project: Option<string>, tags: Option<seq<string>>, page: int, pageSize: int)
    requires Inv(c) && page >= 1 && pageSize >= 1
    ensures var l := ListSpec(c, project, tags, page, pageSize);
            var all := ListOrder(c, project, tags);
            var start := (page - 1) * pageSize;
            && l.total == |all| == |Gathered(c, Targets(c, project), BuildTagFilter(tags))|
            && start >= 0
            && l.memories == if start >= |all| then [] else all[start..Min(start + pageSize, |all|)]
  {
    PageIsSlice(ListOrder(c, project, tags), page, pageSize);
  }

  /** The pages of a sorted sequence are sorted, and a later page holds
      nothing that may come before anything of an earlier page. */
  lemma SortedPages<T>(s: seq<T>, le: (T, T) -> bool, p: int, q: int, pageSize: int)
    requires Sorting.SortedBy(s, le) && 1 <= p < q && pageSize >= 1
    ensures Sorting.SortedBy(Page(s, p, pageSize), le)
    ensures forall x, y :: x in Page(s, p, pageSize) && y in Page(s, q, pageSize) ==> le(x, y)
  {
    var mp := Page(s, p, pageSize);
    var start := PageStart(p, pageSize);
    forall i, j | 0 <= i < j < |mp| ensures le(mp[i], mp[j]) {
      assert mp[i] == s[start + i] && mp[j] == s[start + j];
    }
    PageStartMonotone(p, q, pageSize);
    forall x, y | x in Page(s, p, pageSize) && y in Page(s, q, pageSize)
      ensures le(x, y)
    {
      PageMember(s, p, pageSize, x);
      PageMember(s, q, pageSize, y);
    }
  }

  /** Within a page and from one page to the next, memories never get newer. */
  lemma ListNewestFirst(c: Client, project: Option<string>, tags: Option<seq<string>>,
                        p: int, q: int, pageSize: int)
    requires Inv(c) && 1 <= p < q && pageSize >= 1
    ensures var mp := ListSpec(c, project, tags, p, pageSize).memories;
            forall i, j :: 0 <= i < j < |mp| ==> Strings.LexLe(mp[j].timestamp, mp[i].timestamp)
    ensures forall x, y :: x in ListSpec(c, project, tags, p, pageSize).memories &&
                           y in ListSpec(c, project, tags, q, pageSize).memories ==>
              Strings.LexLe(y.timestamp, x.timestamp)
  {
    ListSorted(c, project, tags);
    NewestFirstPages(ListOrder(c, project, tags), p, q, pageSize);
  }

  /** Pages of memories sorted newest first never get newer, within a page or
      from a page to a later one. */
  lemma NewestFirstPages(all: seq<Memory>, p: int, q: int, pageSize: int)
    requires Sorting.SortedBy(all, ByNewest) && 1 <= p < q && pageSize >= 1
    ensures var mp := Page(all, p, pageSize);
            forall i, j :: 0 <= i < j < |mp| ==> Strings.LexLe(mp[j].timestamp, mp[i].timestamp)
    ensures forall x, y :: x in Page(all, p, pageSize) && y in Page(all, q, pageSize) ==>
              Strings.LexLe(y.timestamp, x.timestamp)
  {
    SortedPages(all, ByNewest, p, q, pageSize);
  }

  /** The merged set, sorted, is newest first. */
  lemma ListSorted(c: Client, project: Option<string>, tags: Option<seq<string>>)
    requires Inv(c)
    ensures Sorting.SortedBy(ListOrder(c, project, tags), ByNewest)
  {
    ByNewestOrders();
    Sorting.SortSorted(Gathered(c, Targets(c, project), BuildTagFilter(tags)), ByNewest);
  }

  /** Pages 1 to `k` of the listing, one after the other, are a prefix of the
      merged set, and all of it once `k * page_size >= total`. */
  lemma ListPagesConcatenate(c: Client, project: Option<string>, tags: Option<seq<string>>,
                             k: nat, pageSize: int)
    requires Inv(c) && pageSize >= 1
    ensures var all := ListOrder(c, project, tags);
            var upTo := PageStart(k + 1, pageSize);
            && upTo == k * pageSize
            && PagesUpTo(all, k, pageSize) == all[..Min(upTo, |all|)]
            && (upTo >= |all| ==> PagesUpTo(all, k, pageSize) == all)
  {
    var all := ListOrder(c, project, tags);
    PagesConcatenate(all, k, pageSize);
    PageStartIsProduct(k + 1, pageSize);
    assert all[..|all|] == all;
  }

  /** `m` is the memory of a record held in the collection of one of the
      projects and, when tags are given, carrying the flag of every tag. */
  predicate Carried(c: Client, projects: seq<string>, tags: Option<seq<string>>, m: Memory)
  {
    exists i, r :: 0 <= i < |projects| && r in Col(c, CollectionName(projects[i])) &&
                   WellFormed(r.metadata) && m == MemoryOf(r) &&
                   (Truthy(tags) ==> forall t :: t in tags.value ==> HasFlag(r.metadata, t))
  }

  /** A record passes the tag filter exactly when it carries every tag. */
  lemma FetchedIsCarried(c: Client, projects: seq<string>, tags: Option<seq<string>>, m: Memory)
    ensures Fetched(c, projects, BuildTagFilter(tags), m) <==> Carried(c, projects, tags, m)
  {
    var where := BuildTagFilter(tags);
    if Fetched(c, projects, where, m) {
      var i :| 0 <= i < |projects| && ReadFrom(Fetch(Col(c, CollectionName(projects[i])), where), m);
      var r :| r in Fetch(Col(c, CollectionName(projects[i])), where) && WellFormed(r.metadata) && m == MemoryOf(r);
      TagFilterMatches(tags, r.metadata);
    }
    if Carried(c, projects, tags, m) {
      var i, r :| 0 <= i < |projects| && r in Col(c, CollectionName(projects[i])) &&
                  WellFormed(r.metadata) && m == MemoryOf(r) &&
                  (Truthy(tags) ==> forall t :: t in tags.value ==> HasFlag(r.metadata, t));
      TagFilterMatches(tags, r.metadata);
      assert r in Fetch(Col(c, CollectionName(projects[i])), where);
      assert ReadFrom(Fetch(Col(c, CollectionName(projects[i])), where), m);
    }
  }

  /** The membership half of `ListDrawn`. */
  lemma ListCarried(c: Client, project: Option<string>, tags: Option<seq<string>>)
    requires Inv(c)
    ensures forall m :: m in ListOrder(c, project, tags) <==> Carried(c, Targets(c, project), tags, m)
  {
    ListOrderFacts(c, project, tags);
    forall m ensures Fetched(c, Targets(c, project), BuildTagFilter(tags), m) <==> Carried(c, Targets(c, project), tags, m) {
      FetchedIsCarried(c, Targets(c, project), tags, m);
    }
  }

  /** The merged set is exactly the memories of the target collections'
      records that carry every given tag; each of them reads back with every
      given tag among its tags, when the codec can carry that tag (non-empty,
      no comma). */
  lemma ListDrawn(c: Client, project: Option<string>, tags: Option<seq<string>>)
    requires Inv(c)
    ensures forall m :: m in ListOrder(c, project, tags) <==> Carried(c, Targets(c, project), tags, m)
    ensures Truthy(tags) ==>
              forall m, t :: m in ListOrder(c, project, tags) && t in tags.value && t != "" && ',' !in t ==>
                t in m.tags
  {
    ListCarried(c, project, tags);
    var ps := Targets(c, project);
    if Truthy(tags) {
      forall m, t | m in ListOrder(c, project, tags) && t in tags.value && t != "" && ',' !in t
        ensures t in m.tags
      {
        var i, r :| 0 <= i < |ps| && r in Col(c, CollectionName(ps[i])) &&
                    WellFormed(r.metadata) && m == MemoryOf(r) &&
                    (Truthy(tags) ==> forall t :: t in tags.value ==> HasFlag(r.metadata, t));
        CollectionPlaced(c, ps[i]);
        MemoryOfFields(r);
      }
    }
  }

  /** With a project, every listed memory belongs to that project's collection. */
  lemma ListScoped(c: Client, project: Option<string>, tags: Option<seq<string>>)
    requires Inv(c) && Truthy(project)
    ensures forall m :: m in ListOrder(c, project, tags) ==> CollectionName(m.project) == CollectionName(project.value)
  {
    ListOrderFacts(c, project, tags);
    var where := BuildTagFilter(tags);
    var ps := Targets(c, project);
    forall m | m in ListOrder(c, project, tags)
      ensures CollectionName(m.project) == CollectionName(project.value)
    {
      var i :| 0 <= i < |ps| && ReadFrom(Fetch(Col(c, CollectionName(ps[i])), where), m);
      var r :| r in Fetch(Col(c, CollectionName(ps[i])), where) && WellFormed(r.metadata) && m == MemoryOf(r);
      CollectionPlaced(c, ps[i]);
      MemoryOfFields(r);
    }
  }

  /** A listed page holds only memories of the merged set. */
  lemma ListPageWithin(c: Client, project: Option<string>, tags: Option<seq<string>>, page: int, pageSize: int)
    requires Inv(c) && page >= 1 && pageSize >= 1
    ensures forall m :: m in ListSpec(c, project, tags, page, pageSize).memories ==>
              m in ListOrder(c, project, tags)
  {
    forall m | m in Page(ListOrder(c, project, tags), page, pageSize)
      ensures m in ListOrder(c, project, tags)
    {
      PageMember(ListOrder(c, project, tags), page, pageSize, m);
    }
  }

  /** `total` adds up the per-project counts; `stats` has an entry for each
      target project and no other, holding the number of records fetched from
      its collection: all of them without tags, the ones carrying every tag
      with tags. */
  lemma ListCounts(c: Client, project: Option<string>, tags: Option<seq<string>>, page: int, pageSize: int)
    requires Inv(c) && page >= 1 && pageSize >= 1
    ensures var l := ListSpec(c, project, tags, page, pageSize);
            var ps := Targets(c, project);
            && l.total == CountSum(c, ps, BuildTagFilter(tags))
            && l.stats.Keys == set p | p in ps
            && (forall p :: p in ps && !Truthy(tags) ==> l.stats[p] == |Col(c, CollectionName(p))|)
            && (forall p :: p in ps && Truthy(tags) ==>
                  l.stats[p] == |Matching(Col(c, CollectionName(p)), BuildTagFilter(tags).value)|)
  {
    GatheredSize(c, Targets(c, project), BuildTagFilter(tags));
    Sorting.SortPermutes(Gathered(c, Targets(c, project), BuildTagFilter(tags)), ByNewest);
  }

  /** Each counted record of a tag listing carries the flag of every tag, and
      every record that does is counted. */
  lemma TagCountMeaning(col: seq<Record>, tags: Option<seq<string>>)
    requires Truthy(tags)
    ensures forall r :: r in Matching(col, BuildTagFilter(tags).value) <==>
              r in col && forall t :: t in tags.value ==> HasFlag(r.metadata, t)
  {
    forall r ensures r in Matching(col, BuildTagFilter(tags).value) <==>
                     r in col && forall t :: t in tags.value ==> HasFlag(r.metadata, t)
    {
      TagFilterMatches(tags, r.metadata);
    }
  }

  lemma {:induction false} CountSumZero(c: Client, projects: seq<string>, where: Option<Filter>)
    requires forall i :: 0 <= i < |projects| ==> Col(c, CollectionName(projects[i])) == []
    ensures CountSum(c, projects, where) == 0
    decreases |projects|
  {
    if projects != [] {
      var init := projects[..|projects| - 1];
      assert forall i :: 0 <= i < |init| ==> init[i] == projects[i];
      CountSumZero(c, init, where);
    }
  }

  /** Without a single stored memory, every page is empty and `total` is 0. */
  lemma ListNothingStored(c: Client, project: Option<string>, tags: Option<seq<string>>, page: int, pageSize: int)
    requires Inv(c) && page >= 1 && pageSize >= 1
    requires forall n :: n in c.cols && HasPrefix(n) ==> c.cols[n] == []
    ensures ListSpec(c, project, tags, page, pageSize).total == 0
    ensures ListSpec(c, project, tags, page, pageSize).memories == []
  {
    var ps := Targets(c, project);
    forall i | 0 <= i < |ps| ensures Col(c, CollectionName(ps[i])) == [] {
      CollectionNameRoundTrip(ps[i]);
    }
    CountSumZero(c, ps, BuildTagFilter(tags));
    GatheredSize(c, ps, BuildTagFilter(tags));
  }
}
