/** The ChromaDB adapter `VectorStore` over an in-memory collection: the
    collection is the sequence of stored records, in insertion order. The
    engine's similarity ranking, its uuid generation, `json.dumps` and the
    success or failure of each engine call are inputs. */
module VectorStorage {
  import opened Common

  /** One stored chunk: its id, its text and its flat metadata. */
  datatype Record = Record(id: string, text: string, metadata: Metadata)

  /** A chunk dict handed to `add_documents`: its `"text"` entry (`None` when
      the key is missing, which raises `KeyError`) and its `"metadata"` entry
      (`None` when missing, read as `{}`). */
  datatype ChunkIn = ChunkIn(text: Option<string>, metadata: Option<Metadata>)

  /** One formatted search hit; `distance` is `None` when the engine gave no distances. */
  datatype SearchResult = SearchResult(id: string, text: string, metadata: Option<Metadata>, distance: Option<real>)

  /** The engine's `query` answer for one query text. Each field is the list
      of per-query lists; an absent or `None` list is `[]`. */
  datatype QueryAnswer = QueryAnswer(
    ids: seq<seq<string>>,
    documents: seq<seq<string>>,
    metadatas: seq<seq<Option<Metadata>>>,
    distances: seq<seq<real>>)

  /** What `get_collection_info` reports. Python's `list(documents)` has no
      fixed order, so the names are a set. */
  datatype CollectionInfo = CollectionInfo(
    totalChunks: nat,
    storageType: string,
    collectionName: string,
    uniqueDocuments: nat,
    documentNames: set<Value>)

  // ----- Metadata flattening -----

  /** A `str`, `int`, `float` or `bool`: a value ChromaDB stores as is. */
  predicate IsScalar(v: Value)
  {
    v.Str? || v.Int? || v.Float? || v.Bool?
  }

  /** `json.dumps` can encode every list and dict value of `m`. `dumps` gives
      the JSON text of a value, or `None` where `json.dumps` raises
      `TypeError` (a list or dict holding a set, bytes or some other object
      JSON cannot represent). */
  predicate Encodable(m: Metadata, dumps: Value -> Option<string>)
  {
    forall k :: k in m && (m[k].List? || m[k].Dict?) ==> dumps(m[k]).Some?
  }

  /** One value of `_flatten_metadata`: scalars unchanged, lists and dicts as
      their JSON text, anything else as `str(value)`. */
  function FlattenValue(v: Value, dumps: Value -> Option<string>): Value
    requires (v.List? || v.Dict?) ==> dumps(v).Some?
  {
    match v
    case Str(_) => v
    case Int(_) => v
    case Float(_) => v
    case Bool(_) => v
    case List(_) => Str(dumps(v).value)
    case Dict(_) => Str(dumps(v).value)
    case Other(repr) => Str(repr)
  }

  /** `_flatten_metadata` as a value; `None` when `json.dumps` raises. */
  function Flatten(m: Metadata, dumps: Value -> Option<string>): Option<Metadata>
  {
    if Encodable(m, dumps) then Some(map k | k in m :: FlattenValue(m[k], dumps)) else None
  }

  /** `_flatten_metadata`: fills the flat dict one key at a time; the
      `TypeError` of `json.dumps` escapes as `None`. */
  method FlattenMetadata(metadata: Metadata, dumps: Value -> Option<string>) returns (flat: Option<Metadata>)
    ensures flat.None? <==> exists k :: k in metadata && (metadata[k].List? || metadata[k].Dict?) && dumps(metadata[k]).None?
    ensures flat.Some? ==> flat.value.Keys == metadata.Keys
    ensures flat.Some? ==> forall k :: k in flat.value ==> IsScalar(flat.value[k])
    ensures flat.Some? ==> forall k :: k in flat.value && IsScalar(metadata[k]) ==> flat.value[k] == metadata[k]
    ensures flat.Some? ==> forall k :: k in flat.value && (metadata[k].List? || metadata[k].Dict?) ==>
      dumps(metadata[k]).Some? && flat.value[k] == Str(dumps(metadata[k]).value)
    ensures flat.Some? ==> forall k :: k in flat.value && metadata[k].Other? ==> flat.value[k] == Str(metadata[k].repr)
    ensures flat == Flatten(metadata, dumps)
  {
    var result: Metadata := map[];
    var todo := metadata.Keys;
    while todo != {}
      invariant todo <= metadata.Keys
      invariant result.Keys == metadata.Keys - todo
      invariant forall k :: k in result ==>
        ((metadata[k].List? || metadata[k].Dict?) ==> dumps(metadata[k]).Some?) &&
        result[k] == FlattenValue(metadata[k], dumps)
      decreases todo
    {
      var key :| key in todo;
      var value := metadata[key];
      if value.Str? || value.Int? || value.Float? || value.Bool? {
        result := result[key := value];
      } else if value.List? || value.Dict? {
        var text := dumps(value);
        if text.None? {
          return None;
        }
        result := result[key := Str(text.value)];
      } else {
        result := result[key := Str(value.repr)];
      }
      todo := todo - {key};
    }
    assert Encodable(metadata, dumps);
    assert result == map k | k in metadata :: FlattenValue(metadata[k], dumps);
    flat := Some(result);
  }

  /** Flattening an already flat dict changes nothing. */
  lemma FlattenIdempotent(m: Metadata, dumps: Value -> Option<string>)
    ensures Flatten(m, dumps).Some? ==> Flatten(Flatten(m, dumps).value, dumps) == Flatten(m, dumps)
  {
    if Flatten(m, dumps).Some? {
      var f := Flatten(m, dumps).value;
      forall k | k in f
        ensures IsScalar(f[k])
      {
        assert f[k] == FlattenValue(m[k], dumps);
      }
      assert Encodable(f, dumps);
      assert (map k | k in f :: FlattenValue(f[k], dumps)) == f;
    }
  }

  /** A dict of scalars is its own flattening, whatever `json.dumps` does. */
  lemma FlattenKeepsFlat(m: Metadata, dumps: Value -> Option<string>)
    requires forall k :: k in m ==> IsScalar(m[k])
    ensures Flatten(m, dumps) == Some(m)
  {
    assert Encodable(m, dumps);
    assert (map k | k in m :: FlattenValue(m[k], dumps)) == m;
  }

  // ----- Collection contents -----

  /** No two records share an id. */
  ghost predicate DistinctIds(rs: seq<Record>)
  {
    forall i, j :: 0 <= i < j < |rs| ==> rs[i].id != rs[j].id
  }

  /** The ids of the records. */
  function Ids(rs: seq<Record>): set<string>
  {
    set r | r in rs :: r.id
  }

  /** The ids in a list of ids. */
  function AsSet(ids: seq<string>): set<string>
  {
    set id | id in ids
  }

  /** Every chunk dict has a `"text"` entry. */
  predicate AllHaveText(chunks: seq<ChunkIn>)
  {
    forall i :: 0 <= i < |chunks| ==> chunks[i].text.Some?
  }

  /** The chunk's `metadata` entry, `{}` when it has none. */
  function MetadataOf(c: ChunkIn): Metadata
  {
    if c.metadata.Some? then c.metadata.value else map[]
  }

  /** Every chunk's metadata can be flattened. */
  predicate AllEncodable(chunks: seq<ChunkIn>, dumps: Value -> Option<string>)
  {
    forall i :: 0 <= i < |chunks| ==> Encodable(MetadataOf(chunks[i]), dumps)
  }

  /** The records that `add_documents` hands to the engine: chunk `i` under
      the `i`-th fresh id, with its text and its flattened metadata. */
  function NewRecords(chunks: seq<ChunkIn>, ids: seq<string>, dumps: Value -> Option<string>): seq<Record>
    requires |ids| == |chunks| && AllHaveText(chunks) && AllEncodable(chunks, dumps)
  {
    seq(|chunks|, i requires 0 <= i < |chunks| =>
      Record(ids[i], chunks[i].text.value, Flatten(MetadataOf(chunks[i]), dumps).value))
  }

  /** The record's `document_name` metadata equals `name`. */
  predicate FromDocument(r: Record, name: string)
  {
    "document_name" in r.metadata && r.metadata["document_name"] == Str(name)
  }

  /** The records of document `name`, in collection order. */
  function OfDocument(rs: seq<Record>, name: string): (r: seq<Record>)
    ensures |r| <= |rs|
  {
    if rs == [] then []
    else (if FromDocument(rs[0], name) then [rs[0]] else []) + OfDocument(rs[1..], name)
  }

  /** The records not of document `name`, in collection order. */
  function NotOfDocument(rs: seq<Record>, name: string): seq<Record>
  {
    if rs == [] then []
    else (if FromDocument(rs[0], name) then [] else [rs[0]]) + NotOfDocument(rs[1..], name)
  }

  /** The records whose id is not in `ids`, in collection order. */
  function WithoutIds(rs: seq<Record>, ids: set<string>): seq<Record>
  {
    if rs == [] then []
    else (if rs[0].id in ids then [] else [rs[0]]) + WithoutIds(rs[1..], ids)
  }

  /** The `document_name` values among the sampled metadata dicts. */
  function DocumentNames(sample: seq<Metadata>): set<Value>
  {
    set m | m in sample && "document_name" in m :: m["document_name"]
  }

  /** A set of values drawn one from each element of a sequence has at most as many elements. */
  lemma {:induction false} DocumentNamesBound(sample: seq<Metadata>)
    ensures |DocumentNames(sample)| <= |sample|
  {
    if sample != [] {
      var rest := sample[1..];
      DocumentNamesBound(rest);
      var m := sample[0];
      var extra := if "document_name" in m then {m["document_name"]} else {};
      assert DocumentNames(sample) <= DocumentNames(rest) + extra by {
        forall v | v in DocumentNames(sample)
          ensures v in DocumentNames(rest) + extra
        {
          var m' :| m' in sample && "document_name" in m' && m'["document_name"] == v;
          if m' != m {
            assert m' in rest;
          }
        }
      }
      assert |DocumentNames(rest) + extra| <= |DocumentNames(rest)| + |extra|;
      SubsetCard(DocumentNames(sample), DocumentNames(rest) + extra);
    }
  }

  /** `delete_by_document` when the engine's `where` query found the ids of
      the document's records (all of them when there are at most 10000):
      deleting those ids removes exactly the document's records and keeps
      every other record, in order. */
  lemma DeleteRemovesDocument(rs: seq<Record>, name: string, found: seq<string>)
    requires DistinctIds(rs)
    requires AsSet(found) <= Ids(OfDocument(rs, name))
    requires |OfDocument(rs, name)| <= 10000 && Ids(OfDocument(rs, name)) <= AsSet(found)
    ensures WithoutIds(rs, AsSet(found)) == NotOfDocument(rs, name)
  {
    DocumentIdsSelectDocument(rs, name);
    WithoutIdsIsFilter(rs, AsSet(found), name);
  }

  /** With distinct ids, a record's id is one of the document's ids exactly
      when the record is of the document. */
  lemma DocumentIdsSelectDocument(rs: seq<Record>, name: string)
    requires DistinctIds(rs)
    ensures forall r :: r in rs ==> (r.id in Ids(OfDocument(rs, name)) <==> FromDocument(r, name))
  {
    OfDocumentIn(rs, name);
    forall r | r in rs && r.id in Ids(OfDocument(rs, name))
      ensures FromDocument(r, name)
    {
      var r' :| r' in OfDocument(rs, name) && r'.id == r.id;
      var i :| 0 <= i < |rs| && rs[i] == r;
      var j :| 0 <= j < |rs| && rs[j] == r';
      assert i == j;
    }
  }

  /** Removing the ids that select exactly the document's records keeps the
      other records, in order. */
  lemma {:induction false} WithoutIdsIsFilter(rs: seq<Record>, ids: set<string>, name: string)
    requires forall r :: r in rs ==> (r.id in ids <==> FromDocument(r, name))
    ensures WithoutIds(rs, ids) == NotOfDocument(rs, name)
  {
    if rs != [] {
      assert forall r :: r in rs[1..] ==> r in rs;
      WithoutIdsIsFilter(rs[1..], ids, name);
    }
  }

  /** The records of a document are records of the collection, and a record
      of the collection that is of the document is among them. */
  lemma {:induction false} OfDocumentIn(rs: seq<Record>, name: string)
    ensures forall r :: r in OfDocument(rs, name) <==> r in rs && FromDocument(r, name)
  {
    if rs != [] {
      OfDocumentIn(rs[1..], name);
      forall r | r in rs && FromDocument(r, name)
        ensures r in OfDocument(rs, name)
      {
        if r != rs[0] {
          assert r in rs[1..];
        }
      }
    }
  }

  /** Appending records under fresh, pairwise distinct ids keeps every id of
      the collection unique. */
  lemma AppendFreshDistinct(prev: seq<Record>, chunks: seq<ChunkIn>, ids: seq<string>, dumps: Value -> Option<string>)
    requires DistinctIds(prev)
    requires |ids| == |chunks| && AllHaveText(chunks) && AllEncodable(chunks, dumps)
    requires forall i, j :: 0 <= i < j < |ids| ==> ids[i] != ids[j]
    requires forall i :: 0 <= i < |ids| ==> ids[i] !in Ids(prev)
    ensures DistinctIds(prev + NewRecords(chunks, ids, dumps))
  {
    var all := prev + NewRecords(chunks, ids, dumps);
    var n := |prev|;
    forall p, q | 0 <= p < q < |all|
      ensures all[p].id != all[q].id
    {
      if q < n {
        assert all[p] == prev[p] && all[q] == prev[q];
      } else if p >= n {
        assert all[p].id == ids[p - n] && all[q].id == ids[q - n];
      } else {
        assert all[p] == prev[p] && prev[p] in prev;
        assert all[q].id == ids[q - n];
      }
    }
  }

  /** Dropping the first record keeps the ids distinct. */
  lemma DistinctTail(rs: seq<Record>)
    requires DistinctIds(rs) && rs != []
    ensures DistinctIds(rs[1..])
  {
    var rest := rs[1..];
    forall i, j | 0 <= i < j < |rest|
      ensures rest[i].id != rest[j].id
    {
      assert rest[i] == rs[i + 1] && rest[j] == rs[j + 1];
    }
  }

  /** Removing records keeps the remaining ids distinct. */
  lemma {:induction false} WithoutIdsDistinct(rs: seq<Record>, ids: set<string>)
    requires DistinctIds(rs)
    ensures DistinctIds(WithoutIds(rs, ids))
    ensures forall r :: r in WithoutIds(rs, ids) ==> r in rs && r.id !in ids
  {
    if rs != [] {
      var rest := rs[1..];
      DistinctTail(rs);
      WithoutIdsDistinct(rest, ids);
      var w := WithoutIds(rest, ids);
      forall r | r in w
        ensures r.id != rs[0].id
      {
        var k :| 0 < k < |rs| && rs[k] == r;
      }
    }
  }

  /** The adapter: the collection's records and the settings it was made with. */
  class VectorStore {
    const storageType: string
    const collectionName: string
    var records: seq<Record>

    ghost predicate Valid()
      reads this
    {
      DistinctIds(records)
    }

    /** `VectorStore(storage_type)`: the storage type falls back to the
        configured one; an in-memory client starts empty and a persistent
        client opens the collection found on disk, `persisted`. */
    constructor(storageType: Option<string>, configured: string, persisted: seq<Record>)
      requires DistinctIds(persisted)
      ensures this.storageType == OrString(storageType, configured)
      ensures collectionName == "pdf_documents"
      ensures records == if this.storageType == "memory" then [] else persisted
      ensures Valid()
    {
      this.storageType := OrString(storageType, configured);
      collectionName := "pdf_documents";
      records := if OrString(storageType, configured) == "memory" then [] else persisted;
    }

    /** `add_documents`: `freshIds` are the uuids drawn for the chunks and
        `accepted` whether the engine's `add` succeeded. A missing `"text"`
        (`KeyError`) or metadata that `json.dumps` cannot encode
        (`TypeError`) is caught like a failing `add`. Either every chunk is
        stored, in order, or the collection is unchanged. */
    method AddDocuments(chunks: seq<ChunkIn>, freshIds: seq<string>, dumps: Value -> Option<string>, accepted: bool)
      returns (ok: bool)
      requires Valid()
      requires |freshIds| == |chunks|
      requires forall i, j :: 0 <= i < j < |freshIds| ==> freshIds[i] != freshIds[j]
      requires forall i :: 0 <= i < |freshIds| ==> freshIds[i] !in Ids(records)
      modifies this
      ensures Valid()
      ensures ok <==> chunks != [] && AllHaveText(chunks) && AllEncodable(chunks, dumps) && accepted
      ensures records == if ok then old(records) + NewRecords(chunks, freshIds, dumps) else old(records)
    {
      if chunks == [] {
        return false;
      }
      var documents: seq<string> := [];
      var metadatas: seq<Metadata> := [];
      var ids: seq<string> := [];
      var i := 0;
      while i < |chunks|
        invariant 0 <= i <= |chunks|
        invariant records == old(records)
        invariant AllHaveText(chunks[..i]) && AllEncodable(chunks[..i], dumps)
        invariant ids == freshIds[..i]
        invariant |documents| == i && |metadatas| == i
        invariant forall k :: 0 <= k < i ==> documents[k] == chunks[k].text.value
        invariant forall k :: 0 <= k < i ==>
          Flatten(MetadataOf(chunks[k]), dumps).Some? && metadatas[k] == Flatten(MetadataOf(chunks[k]), dumps).value
      {
        if chunks[i].text.None? {
          assert !AllHaveText(chunks);
          return false;
        }
        ids := ids + [freshIds[i]];
        documents := documents + [chunks[i].text.value];
        var flat := FlattenMetadata(MetadataOf(chunks[i]), dumps);
        if flat.None? {
          assert !AllEncodable(chunks, dumps);
          return false;
        }
        metadatas := metadatas + [flat.value];
        i := i + 1;
      }
      assert chunks[..i] == chunks;
      if !accepted {
        return false;
      }
      var added := seq(|ids|, k requires 0 <= k < |ids| => Record(ids[k], documents[k], metadatas[k]));
      assert added == NewRecords(chunks, freshIds, dumps);
      AppendFreshDistinct(records, chunks, freshIds, dumps);
      records := records + added;
      ok := true;
    }

    /** `search`: formats the engine's answer hit by hit, in the engine's
        order. An engine error, or a hit whose id, metadata or distance is
        missing (an `IndexError`), gives `[]`. */
    method Search(answer: Result<QueryAnswer>) returns (results: seq<SearchResult>)
      ensures answer.Err? ==> results == []
      ensures answer.Ok? && !Complete(answer.value) ==> results == []
      ensures answer.Ok? && Complete(answer.value) ==>
        |results| == HitCount(answer.value) &&
        forall i :: 0 <= i < |results| ==> results[i] == Hit(answer.value, i)
      ensures results == Formatted(answer)
    {
      if answer.Err? {
        return [];
      }
      var a := answer.value;
      results := [];
      if |a.documents| > 0 && |a.documents[0]| > 0 {
        var i := 0;
        while i < |a.documents[0]|
          invariant 0 <= i <= |a.documents[0]|
          invariant HitsIndexable(a, i)
          invariant |results| == i
          invariant forall k :: 0 <= k < i ==> results[k] == Hit(a, k)
        {
          if |a.ids| == 0 || i >= |a.ids[0]| || |a.metadatas| == 0 || i >= |a.metadatas[0]| {
            return [];
          }
          if |a.distances| > 0 && i >= |a.distances[0]| {
            return [];
          }
          var distance := if |a.distances| > 0 then Some(a.distances[0][i]) else None;
          results := results + [SearchResult(a.ids[0][i], a.documents[0][i], a.metadatas[0][i], distance)];
          i := i + 1;
        }
      }
    }

    /** `delete_by_document`: `found` is the engine's answer to the query for
        the document's records (up to 10000 of them) and `deleted` whether the
        engine's `delete` succeeded. */
    method DeleteByDocument(name: string, found: Result<seq<string>>, deleted: bool) returns (ok: bool)
      requires Valid()
      modifies this
      ensures Valid()
      ensures ok <==> found.Ok? && (found.value == [] || deleted)
      ensures records == if found.Ok? && found.value != [] && deleted then WithoutIds(old(records), AsSet(found.value))
        else old(records)
    {
      if found.Err? {
        return false;
      }
      if found.value == [] {
        return true;
      }
      if !deleted {
        return false;
      }
      var ids := AsSet(found.value);
      WithoutIdsDistinct(records, ids);
      records := WithoutIds(records, ids);
      ok := true;
    }

    /** `get_collection_info`: `sample` is what the engine's sample query of
        `min(5, count)` records gives (asked only when the collection is not
        empty), or the error it raised. */
    method GetCollectionInfo(sample: Result<seq<Metadata>>) returns (info: Result<CollectionInfo>)
      requires sample.Ok? ==> |sample.value| <= Min(5, |records|)
      ensures |records| > 0 && sample.Err? ==> info == Err(sample.message)
      ensures info.Ok? ==> (info.value.totalChunks == |records|
        && info.value.storageType == storageType
        && info.value.collectionName == collectionName
        && info.value.uniqueDocuments == |info.value.documentNames| <= Min(5, |records|))
      ensures |records| == 0 ==> info.Ok? && info.value.documentNames == {}
      ensures |records| > 0 && sample.Ok? ==> info.Ok? && info.value.documentNames == DocumentNames(sample.value)
    {
      var count := |records|;
      var documents: set<Value> := {};
      if count > 0 {
        if sample.Err? {
          return Err(sample.message);
        }
        var metadatas := sample.value;
        var i := 0;
        while i < |metadatas|
          invariant 0 <= i <= |metadatas|
          invariant documents == DocumentNames(metadatas[..i])
        {
          assert metadatas[..i + 1] == metadatas[..i] + [metadatas[i]];
          if "document_name" in metadatas[i] {
            documents := documents + {metadatas[i]["document_name"]};
          }
          i := i + 1;
        }
        assert metadatas[..i] == metadatas;
        DocumentNamesBound(metadatas);
      }
      return Ok(CollectionInfo(count, storageType, collectionName, |documents|, documents));
    }

    /** `clear_collection`: the engine drops the collection (`deleted`) and
        makes a new empty one (`created`). */
    method ClearCollection(deleted: bool, created: bool) returns (ok: bool)
      requires Valid()
      modifies this
      ensures Valid()
      ensures ok <==> deleted && created
      ensures records == if deleted then [] else old(records)
    {
      if !deleted {
        return false;
      }
      records := [];
      return created;
    }
  }

  /** The number of hits: the length of the first list of documents. */
  function HitCount(a: QueryAnswer): nat
  {
    if |a.documents| > 0 then |a.documents[0]| else 0
  }

  /** The first `n` hits have an id, a metadata entry and, when distances
      were returned, a distance. */
  predicate HitsIndexable(a: QueryAnswer, n: nat)
  {
    n <= HitCount(a) &&
    (n > 0 ==>
      |a.ids| > 0 && n <= |a.ids[0]| && |a.metadatas| > 0 && n <= |a.metadatas[0]| &&
      (|a.distances| > 0 ==> n <= |a.distances[0]|))
  }

  /** Every hit can be formatted without an `IndexError`. */
  predicate Complete(a: QueryAnswer)
  {
    HitsIndexable(a, HitCount(a))
  }

  /** The list `search` returns for an engine answer: every hit in engine
      order, or `[]` after an engine error or an `IndexError`. */
  function Formatted(answer: Result<QueryAnswer>): seq<SearchResult>
  {
    if answer.Err? || !Complete(answer.value) then []
    else seq(HitCount(answer.value), i requires 0 <= i < HitCount(answer.value) => Hit(answer.value, i))
  }

  /** Hit `i`, formatted. */
  function Hit(a: QueryAnswer, i: nat): SearchResult
    requires i < HitCount(a) && HitsIndexable(a, i + 1)
  {
    SearchResult(a.ids[0][i], a.documents[0][i], a.metadatas[0][i],
      if |a.distances| > 0 then Some(a.distances[0][i]) else None)
  }
}
