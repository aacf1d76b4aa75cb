/** The records the vector store keeps: `Document` and the knowledge-base wrapper
    `KnowledgeDocument` with its metadata, and `from_dict`. The store itself and
    the embedding are not modelled. */
module VectorStore {
  import opened Wrappers
  import opened Sequences
  import opened Values

  /** A stored document: its content, metadata dictionary and id. */
  datatype Document = Document(content: Value, metadata: seq<Entry>, docId: string)

  /** Whether `Document` has to call `_generate_id`: no id, or an empty one. */
  predicate NeedsId(docId: Option<string>) {
    docId.None? || docId.value == ""
  }

  /** `Document(content, metadata, doc_id)`. `generatedId` stands for what
      `_generate_id` would return: an empty or absent id is replaced by it, and
      absent or empty metadata becomes an empty dictionary. `_generate_id` hashes
      `content.encode()`, so it raises `AttributeError` for content that is not a
      string. */
  function NewDocument(content: Value, metadata: Option<seq<Entry>>, docId: Option<string>,
                       generatedId: string): (r: Result<Document>)
    ensures r.Failure? <==> NeedsId(docId) && !content.Str?
    ensures r.Failure? ==> r.error == "AttributeError: '" + TypeName(content) + "' object has no attribute 'encode'"
    ensures r.Success? ==> r.value.content == content && r.value.metadata == metadata.GetOr([])
    ensures r.Success? && !NeedsId(docId) ==> r.value.docId == docId.value
    ensures r.Success? && NeedsId(docId) ==> r.value.docId == generatedId
  {
    var md := if metadata.Some? && metadata.value != [] then metadata.value else [];
    if !NeedsId(docId) then Success(Document(content, md, docId.value))
    else if content.Str? then Success(Document(content, md, generatedId))
    else Failure("AttributeError: '" + TypeName(content) + "' object has no attribute 'encode'")
  }

  /** The five keyword parameters of `KnowledgeDocument`. */
  const NamedFields: set<string> := {"content", "category", "title", "tags", "source"}

  /** A knowledge document, holding the `Document` built when it was created. */
  datatype KnowledgeDocument = KnowledgeDocument(content: Value, category: Value, title: Value, tags: Value,
                                                 source: Value, document: Document)

  /** `x or default`. */
  function OrElse(x: Value, default: Value): Value {
    if Truthy(x) then x else default
  }

  /** The metadata dictionary: the four named fields first, then the extra keywords
      in their order. */
  function KnowledgeMetadata(category: Value, title: Value, tags: Value, source: Value,
                             extras: seq<Entry>): seq<Entry>
  {
    [Entry("category", category), Entry("title", title), Entry("tags", tags), Entry("source", source)] + extras
  }

  /** `KnowledgeDocument(content, category, title, tags, source, **kwargs)`; an
      absent argument is `Null`, and `generatedId` is the id `_generate_id` makes.
      Python's calling convention keeps the keyword parameters out of `kwargs`.
      The inner `Document` is built without an id, so content that is not a
      string raises `AttributeError` there. */
  function NewKnowledgeDocument(content: Value, category: Value, title: Value, tags: Value, source: Value,
                                extras: seq<Entry>, generatedId: string): (r: Result<KnowledgeDocument>)
    requires forall i :: 0 <= i < |extras| ==> extras[i].key !in NamedFields
    ensures r.Success? <==> content.Str?
    ensures r.Failure? ==> r.error == "AttributeError: '" + TypeName(content) + "' object has no attribute 'encode'"
    ensures r.Success? ==> r.value.content == content && r.value.category == category
    ensures r.Success? ==> r.value.title == (if Truthy(title) then title else Str(""))
    ensures r.Success? ==> r.value.tags == (if Truthy(tags) then tags else List([]))
    ensures r.Success? ==> r.value.source == (if Truthy(source) then source else Str(""))
    ensures r.Success? ==> r.value.document.content == content && r.value.document.docId == generatedId
    ensures r.Success? ==> r.value.document.metadata
                           == KnowledgeMetadata(r.value.category, r.value.title, r.value.tags, r.value.source, extras)
  {
    var t := OrElse(title, Str(""));
    var tg := OrElse(tags, List([]));
    var s := OrElse(source, Str(""));
    var md := KnowledgeMetadata(category, t, tg, s, extras);
    match NewDocument(content, Some(md), None, generatedId)
    case Failure(e) => Failure(e)
    case Success(d) => Success(KnowledgeDocument(content, category, t, tg, s, d))
  }

  /** `to_document`: the document built at construction. */
  function ToDocument(k: KnowledgeDocument): Document {
    k.document
  }

  /** `d.get(k)` on a dictionary that starts with a given entry. */
  lemma GetCons(e: Entry, rest: seq<Entry>, k: string)
    ensures Get([e] + rest, k) == if e.key == k then Some(e.val) else Get(rest, k)
  {
    assert ([e] + rest)[1..] == rest;
  }

  /** A lookup in the metadata finds the named field or, for any other key, the
      extra keyword. */
  lemma MetadataGet(category: Value, title: Value, tags: Value, source: Value, extras: seq<Entry>, key: string)
    ensures Get(KnowledgeMetadata(category, title, tags, source, extras), key) ==
      if key == "category" then Some(category)
      else if key == "title" then Some(title)
      else if key == "tags" then Some(tags)
      else if key == "source" then Some(source)
      else Get(extras, key)
  {
    var tail3 := [Entry("source", source)] + extras;
    var tail2 := [Entry("tags", tags)] + tail3;
    var tail := [Entry("title", title)] + tail2;
    assert KnowledgeMetadata(category, title, tags, source, extras) == [Entry("category", category)] + tail;
    GetCons(Entry("category", category), tail, key);
    GetCons(Entry("title", title), tail2, key);
    GetCons(Entry("tags", tags), tail3, key);
    GetCons(Entry("source", source), extras, key);
  }

  /** `to_document` gives back a document carrying the knowledge document's content
      and, under their own keys, its category, title, tags and source. */
  lemma ToDocumentCarriesFields(content: Value, category: Value, title: Value, tags: Value, source: Value,
                                extras: seq<Entry>, generatedId: string)
    requires forall i :: 0 <= i < |extras| ==> extras[i].key !in NamedFields
    requires content.Str?
    ensures var k := NewKnowledgeDocument(content, category, title, tags, source, extras, generatedId).value;
      var d := ToDocument(k);
      d.content == k.content && d.docId == generatedId
      && Get(d.metadata, "category") == Some(k.category) && Get(d.metadata, "title") == Some(k.title)
      && Get(d.metadata, "tags") == Some(k.tags) && Get(d.metadata, "source") == Some(k.source)
  {
    var r := NewKnowledgeDocument(content, category, title, tags, source, extras, generatedId);
    assert r.Success?;
    var k := r.value;
    assert ToDocument(k).metadata == KnowledgeMetadata(k.category, k.title, k.tags, k.source, extras);
    KnowledgeMetadataContents(k.category, k.title, k.tags, k.source, extras);
  }

  /** The metadata's keys: the four named fields, then the extra keywords. */
  lemma MetadataKeys(category: Value, title: Value, tags: Value, source: Value, extras: seq<Entry>)
    ensures Keys(KnowledgeMetadata(category, title, tags, source, extras)) ==
            ["category", "title", "tags", "source"] + Keys(extras)
  {
    var md := KnowledgeMetadata(category, title, tags, source, extras);
    var ks := ["category", "title", "tags", "source"] + Keys(extras);
    forall i | 0 <= i < |ks| ensures Keys(md)[i] == ks[i] {
      if i >= 4 {
        assert md[i] == extras[i - 4];
      }
    }
  }

  /** The metadata has no key twice when the extra keywords have none. */
  lemma MetadataDistinct(category: Value, title: Value, tags: Value, source: Value, extras: seq<Entry>)
    requires forall i :: 0 <= i < |extras| ==> extras[i].key !in NamedFields
    requires DistinctKeys(extras)
    ensures DistinctKeys(KnowledgeMetadata(category, title, tags, source, extras))
  {
    var md := KnowledgeMetadata(category, title, tags, source, extras);
    forall i, j | 0 <= i < j < |md| ensures Keys(md)[i] != Keys(md)[j] {
      if 4 <= i {
        assert Keys(extras)[i - 4] != Keys(extras)[j - 4];
      } else if 4 <= j {
        assert extras[j - 4].key !in NamedFields;
      }
    }
  }

  /** The metadata holds the four named fields, then every extra keyword with its
      value; `content` is not in it, and no key occurs twice. */
  lemma KnowledgeMetadataContents(category: Value, title: Value, tags: Value, source: Value, extras: seq<Entry>)
    requires forall i :: 0 <= i < |extras| ==> extras[i].key !in NamedFields
    ensures var md := KnowledgeMetadata(category, title, tags, source, extras);
      Get(md, "category") == Some(category) && Get(md, "title") == Some(title)
      && Get(md, "tags") == Some(tags) && Get(md, "source") == Some(source)
      && !HasKey(md, "content")
      && Keys(md) == ["category", "title", "tags", "source"] + Keys(extras)
      && (forall key :: key !in NamedFields ==> Get(md, key) == Get(extras, key))
      && (DistinctKeys(extras) ==> DistinctKeys(md))
  {
    var md := KnowledgeMetadata(category, title, tags, source, extras);
    forall key | key !in NamedFields ensures Get(md, key) == Get(extras, key) {
      MetadataGet(category, title, tags, source, extras, key);
    }
    MetadataGet(category, title, tags, source, extras, "category");
    MetadataGet(category, title, tags, source, extras, "title");
    MetadataGet(category, title, tags, source, extras, "tags");
    MetadataGet(category, title, tags, source, extras, "source");
    MetadataGet(category, title, tags, source, extras, "content");
    assert Get(extras, "content") == None;
    MetadataKeys(category, title, tags, source, extras);
    if DistinctKeys(extras) {
      MetadataDistinct(category, title, tags, source, extras);
    }
  }

  /** The entries of `data` whose key is not one of the named parameters, in order. */
  function Extras(data: seq<Entry>): (r: seq<Entry>)
    ensures forall i :: 0 <= i < |r| ==> r[i].key !in NamedFields
    decreases |data|
  {
    if data == [] then []
    else if data[0].key in NamedFields then Extras(data[1..])
    else [data[0]] + Extras(data[1..])
  }

  /** A key outside the named five keeps its value in `Extras`; a named one is gone. */
  lemma {:induction false} ExtrasGet(data: seq<Entry>, key: string)
    ensures key !in NamedFields ==> Get(Extras(data), key) == Get(data, key)
    ensures key in NamedFields ==> !HasKey(Extras(data), key)
    decreases |data|
  {
    if data != [] && key !in NamedFields {
      var rest := data[1..];
      assert data == [data[0]] + rest;
      ExtrasGet(rest, key);
      GetCons(data[0], rest, key);
      if data[0].key !in NamedFields {
        GetCons(data[0], Extras(rest), key);
      }
    }
  }

  /** Prepending an entry with a fresh key keeps the keys distinct, and conversely. */
  lemma DistinctKeysCons(e: Entry, rest: seq<Entry>)
    ensures DistinctKeys([e] + rest) <==> DistinctKeys(rest) && !HasKey(rest, e.key)
  {
    var es := [e] + rest;
    if DistinctKeys(es) {
      forall i, j | 0 <= i < j < |rest| ensures Keys(rest)[i] != Keys(rest)[j] {
        assert Keys(es)[i + 1] != Keys(es)[j + 1];
      }
      forall j | 0 <= j < |rest| ensures rest[j].key != e.key {
        assert Keys(es)[0] != Keys(es)[j + 1];
      }
    }
    if DistinctKeys(rest) && !HasKey(rest, e.key) {
      forall i, j | 0 <= i < j < |es| ensures Keys(es)[i] != Keys(es)[j] {
        if i > 0 {
          assert Keys(rest)[i - 1] != Keys(rest)[j - 1];
        }
      }
    }
  }

  /** Dropping entries keeps the keys of a dictionary distinct. */
  lemma {:induction false} ExtrasDistinct(data: seq<Entry>)
    requires DistinctKeys(data)
    ensures DistinctKeys(Extras(data))
    decreases |data|
  {
    if data != [] {
      var rest := data[1..];
      assert data == [data[0]] + rest;
      DistinctKeysCons(data[0], rest);
      ExtrasDistinct(rest);
      if data[0].key !in NamedFields {
        ExtrasGet(rest, data[0].key);
        DistinctKeysCons(data[0], Extras(rest));
      }
    }
  }

  /** `KnowledgeDocument.from_dict(data)`: `content` and `category` are required
      (a missing one raises `KeyError`), and the content must be a string (the
      constructor raises `AttributeError` otherwise); every other key outside the
      named five is passed on as extra metadata. */
  function FromDict(data: seq<Entry>, generatedId: string): (r: Result<KnowledgeDocument>)
    ensures r.Failure? <==> !HasKey(data, "content") || !HasKey(data, "category") || !Get(data, "content").value.Str?
    ensures !HasKey(data, "content") ==> r == Failure("KeyError: 'content'")
    ensures HasKey(data, "content") && !HasKey(data, "category") ==> r == Failure("KeyError: 'category'")
  {
    if !HasKey(data, "content") then Failure("KeyError: 'content'")
    else if !HasKey(data, "category") then Failure("KeyError: 'category'")
    else
      NewKnowledgeDocument(Get(data, "content").value, Get(data, "category").value,
                           Get(data, "title").GetOr(Null), Get(data, "tags").GetOr(Null),
                           Get(data, "source").GetOr(Null), Extras(data), generatedId)
  }

  /** What `from_dict` keeps: the content and category, the title, tags and source
      with their defaults, and in the metadata every other key of `data` with its
      value, and no key twice. */
  lemma FromDictContents(data: seq<Entry>, generatedId: string)
    requires DistinctKeys(data) && HasKey(data, "content") && HasKey(data, "category")
    requires Get(data, "content").value.Str?
    ensures var k := FromDict(data, generatedId).value;
      var md := ToDocument(k).metadata;
      k.content == Get(data, "content").value && ToDocument(k).content == k.content
      && k.category == Get(data, "category").value
      && k.title == OrElse(Get(data, "title").GetOr(Null), Str(""))
      && k.tags == OrElse(Get(data, "tags").GetOr(Null), List([]))
      && k.source == OrElse(Get(data, "source").GetOr(Null), Str(""))
      && Get(md, "category") == Some(k.category) && Get(md, "title") == Some(k.title)
      && Get(md, "tags") == Some(k.tags) && Get(md, "source") == Some(k.source)
      && !HasKey(md, "content")
      && (forall key :: key !in NamedFields ==> Get(md, key) == Get(data, key))
      && DistinctKeys(md)
  {
    var k := FromDict(data, generatedId).value;
    var extras := Extras(data);
    KnowledgeMetadataContents(k.category, k.title, k.tags, k.source, extras);
    ExtrasDistinct(data);
    forall key | key !in NamedFields ensures Get(ToDocument(k).metadata, key) == Get(data, key) {
      ExtrasGet(data, key);
    }
  }
}
