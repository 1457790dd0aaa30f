/** How tags are kept in record metadata (storage.py, `_tags_to_metadata`,
    `_metadata_to_tags`, `MemoryStore._build_tag_filter`): a sorted comma-joined
    string under "tags" for reading them back, plus one `tag_<t>: True` flag per
    tag so that the vector store can filter on a tag with an equality. */
module TagCodec {
  import opened Wrappers
  import opened Chroma
  import Strings
  import Sorting

  const TagPrefix: string := "tag_"
  const TagsKey: string := "tags"

  /** The metadata key of one tag's flag. */
  function FlagKey(tag: string): string
  {
    TagPrefix + tag
  }

  function FlagEquality(tag: string): Equality
  {
    Equality(FlagKey(tag), VBool(true))
  }

  /** The record carries the flag of `tag`. */
  predicate HasFlag(md: Metadata, tag: string)
  {
    Satisfies(md, FlagEquality(tag))
  }

  /** `sorted(tags)`. */
  function SortTags(tags: seq<string>): seq<string>
  {
    Sorting.Sort(tags, Strings.LexLe)
  }

  lemma SortTagsOrders(tags: seq<string>)
    ensures multiset(SortTags(tags)) == multiset(tags)
    ensures Sorting.SortedBy(SortTags(tags), Strings.LexLe)
  {
    Sorting.SortPermutes(tags, Strings.LexLe);
    forall a, b ensures Strings.LexLe(a, b) || Strings.LexLe(b, a) {
      Strings.LexLeTotal(a, b);
    }
    forall a, b, c | Strings.LexLe(a, b) && Strings.LexLe(b, c) ensures Strings.LexLe(a, c) {
      Strings.LexLeTransitive(a, b, c);
    }
    Sorting.SortSorted(tags, Strings.LexLe);
  }

  /** The tags the codec can carry: non-empty and free of commas. */
  predicate Supported(tags: seq<string>)
  {
    forall t :: t in tags ==> t != "" && ',' !in t
  }

  function FlagKeys(tags: seq<string>): set<string>
  {
    set t | t in tags :: FlagKey(t)
  }

  lemma FlagKeyIsNotTagsKey(tag: string)
    ensures FlagKey(tag) != TagsKey
  {
    assert FlagKey(tag)[3] == '_';
  }

  lemma FlagKeyInjective(a: string, b: string)
    requires FlagKey(a) == FlagKey(b)
    ensures a == b
  {
    assert a == FlagKey(a)[|TagPrefix|..];
    assert b == FlagKey(b)[|TagPrefix|..];
  }

  /** The metadata `_tags_to_metadata(tags)` produces. */
  function TagMetadata(tags: seq<string>): (md: Metadata)
  {
    map k | k in {TagsKey} + FlagKeys(tags) ::
      if k == TagsKey then VStr(Strings.Join(SortTags(tags), ',')) else VBool(true)
  }

  /** `_tags_to_metadata(tags)`: the joined sorted tags, then a flag per tag. */
  method TagsToMetadata(tags: seq<string>) returns (meta: Metadata)
    ensures meta == TagMetadata(tags)
  {
    meta := map[TagsKey := VStr(Strings.Join(SortTags(tags), ','))];
    for i := 0 to |tags|
      invariant meta.Keys == {TagsKey} + FlagKeys(tags[..i])
      invariant meta[TagsKey] == VStr(Strings.Join(SortTags(tags), ','))
      invariant forall k :: k in meta && k != TagsKey ==> meta[k] == VBool(true)
    {
      FlagKeyIsNotTagsKey(tags[i]);
      assert FlagKeys(tags[..i + 1]) == FlagKeys(tags[..i]) + {FlagKey(tags[i])} by {
        assert tags[..i + 1] == tags[..i] + [tags[i]];
      }
      meta := meta[FlagKey(tags[i]) := VBool(true)];
    }
    assert tags[..|tags|] == tags;
  }

  /** `_metadata_to_tags(md)`: split the joined string; missing or empty gives []. */
  function MetadataToTags(md: Metadata): seq<string>
  {
    var joined := if TagsKey in md then StrOf(md[TagsKey]) else "";
    if joined == "" then [] else Strings.Split(joined, ',')
  }

  /** What `_tags_to_metadata` writes: the joined sorted tags, the flag of every
      tag set to True, and no other key. */
  lemma TagMetadataContents(tags: seq<string>)
    ensures TagMetadata(tags).Keys == {TagsKey} + FlagKeys(tags)
    ensures TagMetadata(tags)[TagsKey] == VStr(Strings.Join(SortTags(tags), ','))
    ensures forall t :: t in tags ==> HasFlag(TagMetadata(tags), t)
  {
    forall t | t in tags ensures HasFlag(TagMetadata(tags), t) {
      FlagKeyIsNotTagsKey(t);
    }
  }

  /** A flag is set exactly for the tags that were given. */
  lemma FlagsAreTags(tags: seq<string>, t: string)
    ensures HasFlag(TagMetadata(tags), t) <==> t in tags
  {
    TagMetadataContents(tags);
    if HasFlag(TagMetadata(tags), t) {
      FlagKeyIsNotTagsKey(t);
      var u :| u in tags && FlagKey(u) == FlagKey(t);
      FlagKeyInjective(u, t);
    }
  }

  /** Reading the tags back gives them sorted; no tags read back as []. */
  lemma TagRoundTrip(tags: seq<string>)
    requires Supported(tags)
    ensures MetadataToTags(TagMetadata(tags)) == SortTags(tags)
  {
    var sorted := SortTags(tags);
    SortTagsOrders(tags);
    TagMetadataContents(tags);
    if tags == [] {
      assert sorted == [];
    } else {
      assert tags[0] in multiset(tags);
      assert sorted != [];
      assert sorted[0] in multiset(tags);
      assert sorted[0] in tags;
      Strings.JoinStartsWithFirst(sorted, ',');
      assert Strings.Join(sorted, ',') != "";
      forall x | x in sorted ensures ',' !in x {
        assert x in multiset(sorted);
      }
      Strings.SplitJoin(sorted, ',');
    }
  }

  /** `_build_tag_filter(tags)`: None for no tags, one equality for one tag,
      an `$and` of equalities for several. */
  function BuildTagFilter(tags: Option<seq<string>>): (f: Option<Filter>)
    ensures f.Some? <==> Truthy(tags)
  {
    if !Truthy(tags) then None
    else if |tags.value| == 1 then Some(Where(FlagEquality(tags.value[0])))
    else Some(And(seq(|tags.value|, i requires 0 <= i < |tags.value| => FlagEquality(tags.value[i]))))
  }

  /** The filter exists exactly when tags are given, and a record matches it
      exactly when it carries the flag of every given tag. */
  lemma TagFilterMatches(tags: Option<seq<string>>, md: Metadata)
    ensures BuildTagFilter(tags).Some? <==> Truthy(tags)
    ensures Truthy(tags) ==>
              (Matches(BuildTagFilter(tags).value, md) <==> forall t :: t in tags.value ==> HasFlag(md, t))
  {
    if Truthy(tags) && |tags.value| > 1 {
      var f := BuildTagFilter(tags).value;
      if Matches(f, md) {
        forall t | t in tags.value ensures HasFlag(md, t) {
          var i :| 0 <= i < |tags.value| && tags.value[i] == t;
          assert f.clauses[i] == FlagEquality(t);
        }
      }
      if forall t :: t in tags.value ==> HasFlag(md, t) {
        forall i | 0 <= i < |f.clauses| ensures Satisfies(md, f.clauses[i]) {
          assert tags.value[i] in tags.value;
        }
      }
    } else if Truthy(tags) {
      var x := tags.value[0];
      assert tags.value == [x];
      assert BuildTagFilter(tags) == Some(Where(FlagEquality(x)));
      assert Matches(BuildTagFilter(tags).value, md) == HasFlag(md, x);
      assert (forall t :: t in tags.value ==> HasFlag(md, t)) == HasFlag(md, x);
    }
  }
}
