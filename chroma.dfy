/** The vector store the memory store runs on, seen only through what the
    store uses: collections of (id, document, metadata) records, metadata
    equality filters, and get / add / delete / delete-collection. Similarity
    search itself is not modelled here: it is an oracle handed to `recall`. */
module Chroma {
  import opened Wrappers
  import Strings
  import opened Seqs

  /** A metadata value. */
  datatype Value = VStr(s: string) | VInt(i: int) | VBool(b: bool)

  type Metadata = map<string, Value>

  /** `str(v)`. */
  function StrOf(v: Value): string
  {
    match v
    case VStr(s) => s
    case VInt(i) => Strings.IntToDecimal(i)
    case VBool(b) => if b then "True" else "False"
  }

  /** `int(v)`; `None` stands for the ValueError of a non-numeric string. */
  function IntOf(v: Value): Option<int>
  {
    match v
    case VStr(s) => Strings.ParseInt(s)
    case VInt(i) => Some(i)
    case VBool(b) => Some(if b then 1 else 0)
  }

  /** One stored item of a collection. */
  datatype Record = Record(id: string, document: string, metadata: Metadata)

  /** One answer of a similarity query: the item and its distance to the query. */
  datatype Hit = Hit(record: Record, distance: real)

  /** A `where` filter: one `{key: value}` equality, or `{"$and": [...]}` of several. */
  datatype Equality = Equality(key: string, value: Value)
  datatype Filter = Where(clause: Equality) | And(clauses: seq<Equality>)

  predicate Satisfies(md: Metadata, e: Equality)
  {
    e.key in md && md[e.key] == e.value
  }

  predicate Matches(f: Filter, md: Metadata)
  {
    match f
    case Where(e) => Satisfies(md, e)
    case And(es) => forall i :: 0 <= i < |es| ==> Satisfies(md, es[i])
  }

  /** `where=None` lets everything through. */
  predicate MatchesWhere(where: Option<Filter>, md: Metadata)
  {
    where.None? || Matches(where.value, md)
  }

  function Ids(rs: seq<Record>): (ids: seq<string>)
    ensures |ids| == |rs|
    ensures forall i :: 0 <= i < |rs| ==> ids[i] == rs[i].id
  {
    if rs == [] then [] else [rs[0].id] + Ids(rs[1..])
  }

  /** `collection.get(where=f)`: the records that match, in collection order. */
  function Matching(rs: seq<Record>, f: Filter): (out: seq<Record>)
    ensures forall r :: r in out <==> r in rs && Matches(f, r.metadata)
    ensures |out| <= |rs|
  {
    if rs == [] then []
    else (if Matches(f, rs[0].metadata) then [rs[0]] else []) + Matching(rs[1..], f)
  }

  /** `collection.get(ids=ids)`: the records whose id is listed, in collection order. */
  function WithIds(rs: seq<Record>, ids: seq<string>): (out: seq<Record>)
    ensures forall r :: r in out <==> r in rs && r.id in ids
    ensures |out| <= |rs|
  {
    if rs == [] then []
    else (if rs[0].id in ids then [rs[0]] else []) + WithIds(rs[1..], ids)
  }

  /** What `collection.delete(ids=ids)` leaves: the records whose id is not listed. */
  function WithoutIds(rs: seq<Record>, ids: seq<string>): (out: seq<Record>)
    ensures forall r :: r in out <==> r in rs && r.id !in ids
    ensures |out| <= |rs|
  {
    if rs == [] then []
    else (if rs[0].id in ids then [] else [rs[0]]) + WithoutIds(rs[1..], ids)
  }

  /** No two records share an id. */
  predicate DistinctIds(rs: seq<Record>)
  {
    forall i, j :: 0 <= i < j < |rs| ==> rs[i].id != rs[j].id
  }

  /** Distinct ids list without repeats. */
  lemma IdsOfDistinct(rs: seq<Record>)
    requires DistinctIds(rs)
    ensures Distinct(Ids(rs))
  {
    forall i, j | 0 <= i < j < |rs|
      ensures Ids(rs)[i] != Ids(rs)[j]
    {
    }
  }

  /** Under distinct ids a record is known by its id. */
  lemma DistinctIdsIdentify(rs: seq<Record>)
    requires DistinctIds(rs)
    ensures forall r, s :: r in rs && s in rs && r.id == s.id ==> r == s
  {
    forall r, s | r in rs && s in rs && r.id == s.id
      ensures r == s
    {
      var i :| 0 <= i < |rs| && rs[i] == r;
      var j :| 0 <= j < |rs| && rs[j] == s;
      assert !(i < j) && !(j < i);
    }
  }

  /** Keeping or dropping the first record in front of a filtered rest drawn
      from the others keeps ids distinct. */
  lemma DistinctIdsFront(rs: seq<Record>, keep: bool, rest: seq<Record>)
    requires rs != [] && DistinctIds(rs) && DistinctIds(rest)
    requires forall r :: r in rest ==> r in rs[1..]
    ensures DistinctIds((if keep then [rs[0]] else []) + rest)
  {
    if keep {
      var out := [rs[0]] + rest;
      forall j | 0 < j < |out|
        ensures out[0].id != out[j].id
      {
        assert out[j] in rs[1..];
        var k :| 0 <= k < |rs[1..]| && rs[1..][k] == out[j];
        assert rs[k + 1] == out[j];
      }
      forall i, j | 0 < i < j < |out|
        ensures out[i].id != out[j].id
      {
        assert out[i] == rest[i - 1] && out[j] == rest[j - 1];
      }
    }
  }

  /** Appending a record with a new id keeps ids distinct. */
  lemma AppendDistinct(rs: seq<Record>, r: Record)
    requires DistinctIds(rs) && forall s :: s in rs ==> s.id != r.id
    ensures DistinctIds(rs + [r])
  {
    var out := rs + [r];
    forall i, j | 0 <= i < j < |out|
      ensures out[i].id != out[j].id
    {
      assert out[i] == rs[i];
      if j < |rs| {
        assert out[j] == rs[j];
      }
    }
  }

  lemma {:induction false} MatchingDistinct(rs: seq<Record>, f: Filter)
    requires DistinctIds(rs)
    ensures DistinctIds(Matching(rs, f))
    decreases |rs|
  {
    if rs != [] {
      MatchingDistinct(rs[1..], f);
      DistinctIdsFront(rs, Matches(f, rs[0].metadata), Matching(rs[1..], f));
    }
  }

  lemma {:induction false} WithIdsDistinct(rs: seq<Record>, ids: seq<string>)
    requires DistinctIds(rs)
    ensures DistinctIds(WithIds(rs, ids))
    decreases |rs|
  {
    if rs != [] {
      WithIdsDistinct(rs[1..], ids);
      DistinctIdsFront(rs, rs[0].id in ids, WithIds(rs[1..], ids));
    }
  }

  lemma {:induction false} WithoutIdsDistinct(rs: seq<Record>, ids: seq<string>)
    requires DistinctIds(rs)
    ensures DistinctIds(WithoutIds(rs, ids))
    decreases |rs|
  {
    if rs != [] {
      WithoutIdsDistinct(rs[1..], ids);
      DistinctIdsFront(rs, rs[0].id !in ids, WithoutIds(rs[1..], ids));
    }
  }

  /** An id is among the ids of some records exactly when one of them has it. */
  lemma InIds(rs: seq<Record>, x: string)
    ensures x in Ids(rs) <==> exists r :: r in rs && r.id == x
  {
    if x in Ids(rs) {
      var i :| 0 <= i < |rs| && Ids(rs)[i] == x;
      assert rs[i] in rs;
    }
  }

  /** What the client holds: its collections in listing order, and their contents. */
  datatype Client = Client(names: seq<string>, cols: map<string, seq<Record>>)

  /** Collection names are unique and `names` lists exactly the collections. */
  predicate Listed(c: Client)
  {
    && Distinct(c.names)
    && (forall n :: n in c.cols ==> n in c.names)
    && (forall i :: 0 <= i < |c.names| ==> c.names[i] in c.cols)
  }


  /** The contents of a collection; one that does not exist yet reads as empty,
      which is what `get_or_create_collection` then gives. */
  function Col(c: Client, name: string): seq<Record>
  {
    if name in c.cols then c.cols[name] else []
  }

  /** `get_or_create_collection(name)`: a missing collection is created empty,
      at the end of the listing. */
  function GetOrCreate(c: Client, name: string): (c': Client)
    ensures name in c'.cols && c'.cols[name] == Col(c, name)
    ensures forall n :: n in c.cols ==> n in c'.cols && c'.cols[n] == c.cols[n]
    ensures c'.cols.Keys == c.cols.Keys + {name}
    ensures Listed(c) ==> Listed(c')
  {
    if name in c.cols then c else Client(c.names + [name], c.cols[name := []])
  }

  /** `collection.add(...)` of one record. */
  function Add(c: Client, name: string, r: Record): (c': Client)
    requires name in c.cols
  {
    Client(c.names, c.cols[name := c.cols[name] + [r]])
  }

  /** `collection.delete(ids=ids)`. */
  function DeleteIds(c: Client, name: string, ids: seq<string>): (c': Client)
    requires name in c.cols
  {
    Client(c.names, c.cols[name := WithoutIds(c.cols[name], ids)])
  }

  function Unlist(names: seq<string>, name: string): (out: seq<string>)
    ensures forall n :: n in out <==> n in names && n != name
    ensures Distinct(names) ==> Distinct(out)
  {
    if names == [] then []
    else
      var rest := Unlist(names[1..], name);
      assert Distinct(names) ==> Distinct(names[1..]) && names[0] !in names[1..];
      (if names[0] == name then [] else [names[0]]) + rest
  }

  /** `delete_collection(name)`. */
  function DeleteCollection(c: Client, name: string): (c': Client)
    requires name in c.cols
    ensures c'.cols == c.cols - {name}
    ensures forall n :: n in c'.names <==> n in c.names && n != name
    ensures Listed(c) ==> Listed(c')
  {
    var names := Unlist(c.names, name);
    assert forall i :: 0 <= i < |names| ==> names[i] in names;
    Client(names, c.cols - {name})
  }
}
