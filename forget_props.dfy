/** What `forget` does to the store and reports, mode by mode. */
module ForgetProps {
  import opened Wrappers
  import opened Chroma
  import opened Naming
  import opened TagCodec
  import opened Storage
  import Seqs

  /** The collections a list of projects maps to. */
  function CollectionsOf(projects: seq<string>): set<string>
  {
    set p | p in projects :: CollectionName(p)
  }

  /** What deleting the selected ids leaves of a collection. */
  function Remaining(col: seq<Record>, sel: Selector): seq<Record>
  {
    WithoutIds(col, Ids(Selected(col, sel)))
  }

  /** The fan-out deletion loop visits each collection once: the visited ones
      lose what was selected in them, the others stay as they were. */
  lemma {:induction false} PurgeEffect(c: Client, projects: seq<string>, sel: Selector)
    requires SeparateCollections(projects)
    ensures Purge(c, projects, sel).0.cols.Keys == c.cols.Keys + CollectionsOf(projects)
    ensures forall n :: n in CollectionsOf(projects) ==> Purge(c, projects, sel).0.cols[n] == Remaining(Col(c, n), sel)
    ensures forall n :: n in c.cols && n !in CollectionsOf(projects) ==> Purge(c, projects, sel).0.cols[n] == c.cols[n]
    ensures CollectionsOf(projects) <= c.cols.Keys ==> Purge(c, projects, sel).0.names == c.names
    decreases |projects|
  {
    if projects == [] {
      assert CollectionsOf(projects) == {};
    } else {
      var init := projects[..|projects| - 1];
      var name := CollectionName(projects[|projects| - 1]);
      PurgeFacts(projects);
      PurgeEffect(c, init, sel);
      var before := Purge(c, init, sel);
      var c2 := GetOrCreate(before.0, name);
      var found := Ids(Selected(c2.cols[name], sel));
      assert Purge(c, projects, sel).0 == if found == [] then c2 else DeleteIds(c2, name, found);
      PurgeStepEffect(c, before.0, CollectionsOf(init), name, sel);
    }
  }

  /** One visit of the deletion loop, on a client where the collections
      `done` have been visited already. */
  lemma PurgeStepEffect(c: Client, b: Client, done: set<string>, name: string, sel: Selector)
    requires name !in done
    requires b.cols.Keys == c.cols.Keys + done
    requires forall n :: n in done ==> b.cols[n] == Remaining(Col(c, n), sel)
    requires forall n :: n in c.cols && n !in done ==> b.cols[n] == c.cols[n]
    ensures var c2 := GetOrCreate(b, name);
            var found := Ids(Selected(c2.cols[name], sel));
            var a := if found == [] then c2 else DeleteIds(c2, name, found);
            && a.cols.Keys == c.cols.Keys + (done + {name})
            && (forall n :: n in done + {name} ==> a.cols[n] == Remaining(Col(c, n), sel))
            && (forall n :: n in c.cols && n !in done + {name} ==> a.cols[n] == c.cols[n])
            && (done + {name} <= c.cols.Keys && b.names == c.names ==> a.names == c.names)
  {
    var c2 := GetOrCreate(b, name);
    assert c2.cols[name] == Col(c, name);
    WithoutNothing(Col(c, name));
  }

  /** The deleted list holds exactly the ids selected in the visited collections. */
  lemma {:induction false} PurgeReport(c: Client, projects: seq<string>, sel: Selector)
    requires SeparateCollections(projects)
    ensures forall x :: x in Purge(c, projects, sel).1 <==>
              exists n :: n in CollectionsOf(projects) && x in Ids(Selected(Col(c, n), sel))
    decreases |projects|
  {
    if projects != [] {
      var init := projects[..|projects| - 1];
      var name := CollectionName(projects[|projects| - 1]);
      PurgeFacts(projects);
      PurgeReport(c, init, sel);
      PurgeEffect(c, init, sel);
      var before := Purge(c, init, sel);
      assert Col(before.0, name) == Col(c, name);
      var found := Ids(Selected(Col(c, name), sel));
      forall x ensures x in Purge(c, projects, sel).1 <==>
                         exists n :: n in CollectionsOf(projects) && x in Ids(Selected(Col(c, n), sel))
      {
        if x in found {
          assert name in CollectionsOf(projects);
        }
      }
    }
  }

  /** Splitting off the last project of the loop. */
  lemma PurgeFacts(projects: seq<string>)
    requires projects != [] && SeparateCollections(projects)
    ensures SeparateCollections(projects[..|projects| - 1])
    ensures CollectionsOf(projects) == CollectionsOf(projects[..|projects| - 1]) + {CollectionName(projects[|projects| - 1])}
    ensures CollectionName(projects[|projects| - 1]) !in CollectionsOf(projects[..|projects| - 1])
  {
    var init := projects[..|projects| - 1];
    var p := projects[|projects| - 1];
    assert projects == init + [p];
    forall q | q in init ensures CollectionName(q) != CollectionName(p) {
      var i :| 0 <= i < |init| && init[i] == q;
      assert projects[i] == q;
    }
  }

  lemma {:induction false} WithoutNothing(rs: seq<Record>)
    ensures WithoutIds(rs, []) == rs
  {
    if rs != [] {
      WithoutNothing(rs[1..]);
      assert rs == [rs[0]] + rs[1..];
    }
  }

  /** Deleting what `get(ids=ids)` found removes exactly the records with those ids. */
  lemma RemainingByIds(col: seq<Record>, ids: seq<string>)
    ensures forall r :: r in Remaining(col, ByIds(ids)) <==> r in col && r.id !in ids
    ensures forall x :: x in Ids(Selected(col, ByIds(ids))) <==> x in ids && x in Ids(col)
  {
    var found := WithIds(col, ids);
    forall r | r in col
      ensures r.id in Ids(found) <==> r.id in ids
    {
      InIds(found, r.id);
    }
    forall x
      ensures x in Ids(found) <==> x in ids && x in Ids(col)
    {
      InIds(found, x);
      InIds(col, x);
    }
  }

  /** Deleting what `get(where=f)` found removes exactly the matching records,
      since no two records of a collection share an id. */
  lemma RemainingByFilter(col: seq<Record>, f: Filter)
    requires DistinctIds(col)
    ensures forall r :: r in Remaining(col, ByFilter(f)) <==> r in col && !Matches(f, r.metadata)
  {
    var found := Matching(col, f);
    DistinctIdsIdentify(col);
    forall r | r in col
      ensures r.id in Ids(found) <==> Matches(f, r.metadata)
    {
      InIds(found, r.id);
    }
  }

  /** `forget` raises exactly when ids, project and tags are all missing or empty. */
  lemma ForgetNeedsCriteria(c: Client, ids: Option<seq<string>>, project: Option<string>,
                            tags: Option<seq<string>>)
    ensures ForgetSpec(c, ids, project, tags).Err? <==> !Truthy(ids) && !Truthy(project) && !Truthy(tags)
    ensures ForgetSpec(c, ids, project, tags).Err? ==>
              ForgetSpec(c, ids, project, tags).error == ValueError(NoCriteria)
    ensures ForgetSpec(c, ids, project, tags).Ok? ==>
              ForgetSpec(c, ids, project, tags).value.1.count == |ForgetSpec(c, ids, project, tags).value.1.ids|
  {
  }

  /** Some memory collection holds a record with this id. */
  predicate Held(c: Client, x: string)
  {
    exists n :: n in c.cols && HasPrefix(n) && x in Ids(c.cols[n])
  }

  /** `forget(ids=...)`: every memory collection loses exactly the given ids it
      held, no collection is created or dropped, other collections stay as they
      were, and the report lists exactly the given ids that were held. */
  lemma {:induction false} ForgetByIds(c: Client, ids: Option<seq<string>>, project: Option<string>,
                                       tags: Option<seq<string>>)
    requires Inv(c) && Truthy(ids)
    ensures ForgetSpec(c, ids, project, tags).Ok?
    ensures var (c', f) := ForgetSpec(c, ids, project, tags).value;
            && Inv(c')
            && c'.names == c.names && c'.cols.Keys == c.cols.Keys
            && (forall n :: n in c.cols && HasPrefix(n) ==>
                  forall r :: r in c'.cols[n] <==> r in c.cols[n] && r.id !in ids.value)
            && (forall n :: n in c.cols && !HasPrefix(n) ==> c'.cols[n] == c.cols[n])
            && (forall x :: x in f.ids <==> x in ids.value && Held(c, x))
            && f.count == |f.ids|
  {
    var ps := ProjectNames(c.names);
    var sel := ByIds(ids.value);
    ProjectNamesOfStore(c);
    PurgeEffect(c, ps, sel);
    PurgeReport(c, ps, sel);
    PurgeKeepsInv(c, ps, sel);
    var after := Purge(c, ps, sel);
    assert ForgetSpec(c, ids, project, tags) == Ok((after.0, Forgotten(|after.1|, after.1)));
    forall n ensures n in CollectionsOf(ps) <==> n in c.cols && HasPrefix(n) {
      if n in c.cols && HasPrefix(n) {
        assert StripPrefix(n) in ps;
      }
      if n in CollectionsOf(ps) {
        var p :| p in ps && CollectionName(p) == n;
        CollectionNameRoundTrip(p);
      }
    }
    forall n | n in c.cols && HasPrefix(n)
      ensures forall r :: r in after.0.cols[n] <==> r in c.cols[n] && r.id !in ids.value
    {
      RemainingByIds(c.cols[n], ids.value);
    }
    forall x
      ensures x in after.1 <==> x in ids.value && Held(c, x)
    {
      if x in after.1 {
        var n :| n in CollectionsOf(ps) && x in Ids(Selected(Col(c, n), sel));
        RemainingByIds(Col(c, n), ids.value);
      }
      if x in ids.value && Held(c, x) {
        var n :| n in c.cols && HasPrefix(n) && x in Ids(c.cols[n]);
        RemainingByIds(c.cols[n], ids.value);
        assert n in CollectionsOf(ps) && x in Ids(Selected(Col(c, n), sel));
      }
    }
  }

  /** A collection holding none of the ids: `get(ids=ids)` finds nothing and
      nothing is deleted. */
  lemma UnheldIdsSelectNothing(col: seq<Record>, ids: seq<string>)
    requires forall x :: x in ids ==> x !in Ids(col)
    ensures Ids(Selected(col, ByIds(ids))) == []
    ensures Remaining(col, ByIds(ids)) == col
  {
    RemainingByIds(col, ids);
    WithoutNothing(col);
  }

  /** A deletion loop over existing collections that selects nothing changes
      nothing and deletes nothing. */
  lemma {:induction false} PurgeNothing(c: Client, projects: seq<string>, sel: Selector)
    requires CollectionsOf(projects) <= c.cols.Keys
    requires forall n :: n in CollectionsOf(projects) ==> Ids(Selected(c.cols[n], sel)) == []
    ensures Purge(c, projects, sel) == (c, [])
    decreases |projects|
  {
    if projects != [] {
      var init := projects[..|projects| - 1];
      assert CollectionsOf(init) <= CollectionsOf(projects) by {
        forall q | q in init ensures q in projects {
          var i :| 0 <= i < |init| && init[i] == q;
          assert projects[i] == q;
        }
      }
      PurgeNothing(c, init, sel);
      assert CollectionName(projects[|projects| - 1]) in CollectionsOf(projects);
    }
  }

  /** `forget(ids=...)` with ids the store does not hold changes nothing and
      reports `(0, [])`. */
  lemma ForgetUnknownIds(c: Client, ids: Option<seq<string>>, project: Option<string>,
                         tags: Option<seq<string>>)
    requires Inv(c) && Truthy(ids)
    requires forall x :: x in ids.value ==> !Held(c, x)
    ensures ForgetSpec(c, ids, project, tags) == Ok((c, Forgotten(0, [])))
  {
    var ps := ProjectNames(c.names);
    var sel := ByIds(ids.value);
    ProjectNamesOfStore(c);
    forall n | n in CollectionsOf(ps)
      ensures n in c.cols && Ids(Selected(c.cols[n], sel)) == []
    {
      var p :| p in ps && CollectionName(p) == n;
      CollectionNameRoundTrip(p);
      UnheldIdsSelectNothing(c.cols[n], ids.value);
    }
    PurgeNothing(c, ps, sel);
  }

  /** `forget(project=p)` without tags: the project's collection goes with all
      its records, which are the ones reported; nothing else changes. Without
      such a collection nothing happens and 0 is reported. */
  lemma ForgetWholeProject(c: Client, project: Option<string>, tags: Option<seq<string>>)
    requires Inv(c) && Truthy(project) && !Truthy(tags)
    ensures ForgetSpec(c, None, project, tags).Ok?
    ensures var (c', f) := ForgetSpec(c, None, project, tags).value;
            var name := CollectionName(project.value);
            && Inv(c')
            && (name in c.cols ==>
                  c'.cols == c.cols - {name} && f == Forgotten(|c.cols[name]|, Ids(c.cols[name])))
            && (name !in c.cols ==> c' == c && f == Forgotten(0, []))
  {
    var name := CollectionName(project.value);
    if name in c.cols {
      DeleteCollectionKeepsInv(c, name);
    }
  }

  /** Every given tag's flag is set. */
  predicate Tagged(md: Metadata, tags: seq<string>)
  {
    forall t :: t in tags ==> HasFlag(md, t)
  }

  /** `forget(tags=...)`, scoped to a project when one is given: each target
      collection loses exactly the records carrying every tag (a missing one is
      created empty), other collections stay as they were, and the report lists
      exactly the ids of the records removed. */
  lemma {:induction false} ForgetByTags(c: Client, ids: Option<seq<string>>, project: Option<string>,
                                        tags: Option<seq<string>>)
    requires Inv(c) && !Truthy(ids) && Truthy(tags)
    ensures ForgetSpec(c, ids, project, tags).Ok?
    ensures var (c', f) := ForgetSpec(c, ids, project, tags).value;
            var targets := CollectionsOf(Targets(c, project));
            && Inv(c')
            && c'.cols.Keys == c.cols.Keys + targets
            && (forall n :: n in targets ==>
                  forall r :: r in c'.cols[n] <==> r in Col(c, n) && !Tagged(r.metadata, tags.value))
            && (forall n :: n in c.cols && n !in targets ==> c'.cols[n] == c.cols[n])
            && (forall x :: x in f.ids <==>
                  exists n :: n in targets && x in Ids(Selected(Col(c, n), ByFilter(BuildTagFilter(tags).value))))
            && f.count == |f.ids|
  {
    var ps := Targets(c, project);
    var where := BuildTagFilter(tags).value;
    var sel := ByFilter(where);
    if !Truthy(project) {
      ProjectNamesOfStore(c);
    }
    assert SeparateCollections(ps);
    PurgeEffect(c, ps, sel);
    PurgeReport(c, ps, sel);
    PurgeKeepsInv(c, ps, sel);
    var after := Purge(c, ps, sel);
    assert ForgetSpec(c, ids, project, tags) == Ok((after.0, Forgotten(|after.1|, after.1)));
    forall n | n in CollectionsOf(ps)
      ensures forall r :: r in after.0.cols[n] <==> r in Col(c, n) && !Tagged(r.metadata, tags.value)
    {
      var p :| p in ps && CollectionName(p) == n;
      CollectionPlaced(c, p);
      RemainingByFilter(Col(c, n), where);
      forall r: Record ensures Matches(where, r.metadata) <==> Tagged(r.metadata, tags.value) {
        TagFilterMatches(tags, r.metadata);
      }
    }
  }

  /** The deletion loop reports no id twice: each visited collection holds
      its ids once, and no two memory collections share one. */
  lemma {:induction false} PurgeReportsOnce(c: Client, projects: seq<string>, sel: Selector)
    requires Inv(c) && SeparateCollections(projects)
    ensures Seqs.Distinct(Purge(c, projects, sel).1)
    decreases |projects|
  {
    if projects != [] {
      var init := projects[..|projects| - 1];
      var p := projects[|projects| - 1];
      var name := CollectionName(p);
      PurgeFacts(projects);
      PurgeReportsOnce(c, init, sel);
      PurgeEffect(c, init, sel);
      PurgeReport(c, init, sel);
      var before := Purge(c, init, sel);
      assert Col(before.0, name) == Col(c, name);
      var chosen := Selected(Col(c, name), sel);
      CollectionPlaced(c, p);
      IdsOfDistinct(chosen);
      forall x | x in before.1
        ensures x !in Ids(chosen)
      {
        var n :| n in CollectionsOf(init) && x in Ids(Selected(Col(c, n), sel));
        var q :| q in init && CollectionName(q) == n;
        InIds(Selected(Col(c, n), sel), x);
        var s :| s in Selected(Col(c, n), sel) && s.id == x;
        if x in Ids(chosen) {
          InIds(chosen, x);
          var r :| r in chosen && r.id == x;
          ApartIds(c, q, p, s, r);
        }
      }
      Seqs.DistinctConcat(before.1, Ids(chosen));
    }
  }

  /** Whatever the mode, `forget` reports each deleted id once. */
  lemma ForgetReportsOnce(c: Client, ids: Option<seq<string>>, project: Option<string>,
                          tags: Option<seq<string>>)
    requires Inv(c)
    ensures ForgetSpec(c, ids, project, tags).Ok? ==> Seqs.Distinct(ForgetSpec(c, ids, project, tags).value.1.ids)
  {
    if Truthy(ids) {
      ProjectNamesOfStore(c);
      PurgeReportsOnce(c, ProjectNames(c.names), ByIds(ids.value));
    } else if Truthy(project) && !Truthy(tags) {
      var name := CollectionName(project.value);
      if name in c.cols {
        CollectionPlaced(c, project.value);
        IdsOfDistinct(c.cols[name]);
      }
    } else if Truthy(tags) {
      TargetsSeparate(c, project);
      PurgeReportsOnce(c, Targets(c, project), ByFilter(BuildTagFilter(tags).value));
    }
  }
}
