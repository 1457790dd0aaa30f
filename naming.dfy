/** Project names and collection names (storage.py, `_collection_name` and
    `MemoryStore._list_project_names`). */
module Naming {
  import opened Seqs

  /** The family prefix every memory collection carries. */
  const Prefix: string := "memories_"

  /** `str.lower()` on one character (ASCII letters only). */
  function LowerChar(c: char): char
  {
    if 'A' <= c <= 'Z' then (c as int + 32) as char else c
  }

  /** `s.replace(from, to)` for single characters. */
  function Replace(s: string, from: char, to: char): (r: string)
    ensures |r| == |s|
  {
    seq(|s|, i requires 0 <= i < |s| => if s[i] == from then to else s[i])
  }

  /** `s.lower()`. */
  function Lower(s: string): (r: string)
    ensures |r| == |s|
  {
    seq(|s|, i requires 0 <= i < |s| => LowerChar(s[i]))
  }

  /** The part of `_collection_name` after the prefix:
      `project.replace("-", "_").replace(" ", "_").lower()`. */
  function Normalize(project: string): string
  {
    Lower(Replace(Replace(project, '-', '_'), ' ', '_'))
  }

  /** `_collection_name(project)`. */
  function CollectionName(project: string): string
  {
    Prefix + Normalize(project)
  }

  predicate HasPrefix(name: string)
  {
    |Prefix| <= |name| && name[..|Prefix|] == Prefix
  }

  /** `name[len(prefix):]`. */
  function StripPrefix(name: string): (project: string)
    requires HasPrefix(name)
    ensures Prefix + project == name
  {
    name[|Prefix|..]
  }

  /** A suffix the normalisation leaves as it is: what `store` creates. */
  predicate Canonical(project: string)
  {
    Normalize(project) == project
  }

  /** What the normalisation does to one character: the three rewrites of
      `_collection_name` collapse to one per-character map. */
  function Fold(c: char): char
  {
    if c == '-' || c == ' ' then '_' else LowerChar(c)
  }

  lemma NormalizeAt(project: string, i: int)
    requires 0 <= i < |project|
    ensures |Normalize(project)| == |project| && Normalize(project)[i] == Fold(project[i])
  {
  }

  /** The normalisation is idempotent. */
  lemma {:induction false} NormalizeIdempotent(project: string)
    ensures Canonical(Normalize(project))
  {
    var n := Normalize(project);
    forall i | 0 <= i < |n|
      ensures Normalize(n)[i] == n[i]
    {
      NormalizeAt(project, i);
      NormalizeAt(n, i);
    }
  }

  /** `_collection_name` always gives a memory collection, and stripping the
      prefix and mapping again gives the same collection: the round trip that
      `recall`, `forget` and `list_memories` make through `_list_project_names`. */
  lemma CollectionNameRoundTrip(project: string)
    ensures HasPrefix(CollectionName(project))
    ensures StripPrefix(CollectionName(project)) == Normalize(project)
    ensures CollectionName(StripPrefix(CollectionName(project))) == CollectionName(project)
  {
    var name := CollectionName(project);
    assert name[..|Prefix|] == Prefix;
    assert name[|Prefix|..] == Normalize(project);
    NormalizeIdempotent(project);
  }

  /** Two project names share a collection exactly when they agree character by
      character once case, space, hyphen and underscore are folded together. */
  lemma SameCollection(p: string, q: string)
    ensures CollectionName(p) == CollectionName(q)
            <==> |p| == |q| && forall i :: 0 <= i < |p| ==> Fold(p[i]) == Fold(q[i])
  {
    if CollectionName(p) == CollectionName(q) {
      assert Normalize(p) == CollectionName(p)[|Prefix|..];
      assert Normalize(q) == CollectionName(q)[|Prefix|..];
      forall i | 0 <= i < |p|
        ensures Fold(p[i]) == Fold(q[i])
      {
        NormalizeAt(p, i);
        NormalizeAt(q, i);
      }
    }
    if |p| == |q| && forall i :: 0 <= i < |p| ==> Fold(p[i]) == Fold(q[i]) {
      forall i | 0 <= i < |p|
        ensures Normalize(p)[i] == Normalize(q)[i]
      {
        NormalizeAt(p, i);
        NormalizeAt(q, i);
      }
    }
  }

  /** Distinct canonical projects never share a collection. */
  lemma CanonicalNamesDistinct(p: string, q: string)
    requires Canonical(p) && Canonical(q) && p != q
    ensures CollectionName(p) != CollectionName(q)
  {
    assert CollectionName(p)[|Prefix|..] == p;
    assert CollectionName(q)[|Prefix|..] == q;
  }

  /** `_list_project_names` over the client's listing: the memory collections,
      prefix stripped, in listing order. */
  function ProjectNames(names: seq<string>): (projects: seq<string>)
    ensures forall p :: p in projects <==> Prefix + p in names
    ensures |projects| <= |names|
  {
    if names == [] then []
    else
      var rest := ProjectNames(names[1..]);
      var here := if HasPrefix(names[0]) then [StripPrefix(names[0])] else [];
      assert forall p :: (Prefix + p)[..|Prefix|] == Prefix && (Prefix + p)[|Prefix|..] == p;
      assert forall p :: Prefix + p in names <==> Prefix + p == names[0] || Prefix + p in names[1..];
      here + rest
  }

  /** Distinct collection names give distinct project names. */
  lemma {:induction false} ProjectNamesDistinct(names: seq<string>)
    requires Distinct(names)
    ensures Distinct(ProjectNames(names))
  {
    if names != [] {
      ProjectNamesDistinct(names[1..]);
      var rest := ProjectNames(names[1..]);
      if HasPrefix(names[0]) {
        var p := StripPrefix(names[0]);
        assert names[0] !in names[1..];
        assert p !in rest;
        var ps := ProjectNames(names);
        assert ps == [p] + rest;
        forall j | 0 < j < |ps|
          ensures ps[j] != ps[0]
        {
          assert ps[j] == rest[j - 1];
        }
        forall i, j | 0 < i < j < |ps|
          ensures ps[i] != ps[j]
        {
          assert ps[i] == rest[i - 1] && ps[j] == rest[j - 1];
        }
      } else {
        assert ProjectNames(names) == rest;
      }
    }
  }
}
