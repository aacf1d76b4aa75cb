/** The decisions the knowledge-base builder makes while ingesting files: which
    handler a file goes to, which category it is filed under, what text is taken
    from a record, whether a record is stored, and the text of song and event
    entries. Reading files and writing to the stores are not modelled. */
module KnowledgeBuilder {
  import opened Wrappers
  import opened Strings
  import opened Values
  import opened VectorStore

  // ---------------------------------------------------------------------------
  // Suffix dispatch
  // ---------------------------------------------------------------------------

  datatype Handler = JsonHandler | YamlHandler | CsvHandler | TextHandler | Skipped

  /** `_process_file`: the handler for a file's suffix, compared lower-cased. */
  function Dispatch(suffix: string): (h: Handler)
    ensures h == JsonHandler <==> Lower(suffix) == ".json"
    ensures h == YamlHandler <==> Lower(suffix) == ".yaml" || Lower(suffix) == ".yml"
    ensures h == CsvHandler <==> Lower(suffix) == ".csv"
    ensures h == TextHandler <==> Lower(suffix) == ".txt" || Lower(suffix) == ".md"
  {
    var s := Lower(suffix);
    if s == ".json" then JsonHandler
    else if s == ".yaml" || s == ".yml" then YamlHandler
    else if s == ".csv" then CsvHandler
    else if s == ".txt" || s == ".md" then TextHandler
    else Skipped
  }

  /** Suffixes equal up to case go to the same handler. */
  lemma DispatchIgnoresCase(a: string, b: string)
    requires Lower(a) == Lower(b)
    ensures Dispatch(a) == Dispatch(b)
  {
  }

  // ---------------------------------------------------------------------------
  // Category inference
  // ---------------------------------------------------------------------------

  /** The categories `_infer_category` can return. */
  const InferredCategories: set<string> :=
    {"songs", "events", "persona", "collaborations", "social", "interviews", "general"}

  /** `_infer_category(file_path, data)`: keyword tests on the lower-cased file name
      in a fixed order, then, when `data` is a dictionary, on its lower-cased
      `str()` form, and `general` when nothing matched. */
  function InferCategory(fileName: string, data: Value): (c: string)
    ensures c in InferredCategories && c != "fanart"
  {
    var name := Lower(fileName);
    if Contains(name, "song") || Contains(name, "music") then "songs"
    else if Contains(name, "event") || Contains(name, "concert") then "events"
    else if Contains(name, "persona") || Contains(name, "character") then "persona"
    else if Contains(name, "collab") then "collaborations"
    else if Contains(name, "social") || Contains(name, "weibo") then "social"
    else if Contains(name, "interview") then "interviews"
    else if data.Dict? then
      var text := Lower(Repr(data));
      if Contains(text, "歌曲") || Contains(text, "音乐") then "songs"
      else if Contains(text, "演出") || Contains(text, "演唱会") then "events"
      else if Contains(text, "性格") || Contains(text, "设定") then "persona"
      else "general"
    else "general"
  }

  /** A keyword rule: the category chosen when any of the keywords occurs. */
  datatype Rule = Rule(keywords: seq<string>, category: string)

  /** The file-name rules, in the order they are tried. */
  const NameRules: seq<Rule> := [
    Rule(["song", "music"], "songs"),
    Rule(["event", "concert"], "events"),
    Rule(["persona", "character"], "persona"),
    Rule(["collab"], "collaborations"),
    Rule(["social", "weibo"], "social"),
    Rule(["interview"], "interviews")
  ]

  /** The content rules, in the order they are tried. */
  const ContentRules: seq<Rule> := [
    Rule(["歌曲", "音乐"], "songs"),
    Rule(["演出", "演唱会"], "events"),
    Rule(["性格", "设定"], "persona")
  ]

  predicate RuleMatches(text: string, r: Rule) {
    exists k :: 0 <= k < |r.keywords| && Contains(text, r.keywords[k])
  }

  /** The category of the first rule that matches `text`. */
  function FirstRule(text: string, rules: seq<Rule>): (c: Option<string>)
    ensures c.None? <==> forall i :: 0 <= i < |rules| ==> !RuleMatches(text, rules[i])
    ensures c.Some? ==> exists i :: 0 <= i < |rules| && RuleMatches(text, rules[i]) && c.value == rules[i].category
                                    && forall j :: 0 <= j < i ==> !RuleMatches(text, rules[j])
    decreases |rules|
  {
    if rules == [] then None
    else if RuleMatches(text, rules[0]) then Some(rules[0].category)
    else
      var c := FirstRule(text, rules[1..]);
      assert forall i :: 0 < i < |rules| ==> rules[i] == rules[1..][i - 1];
      if c.Some? then
        assert exists i :: 0 <= i < |rules| && RuleMatches(text, rules[i]) && c.value == rules[i].category
                            && forall j :: 0 <= j < i ==> !RuleMatches(text, rules[j]) by {
          var i :| 0 <= i < |rules[1..]| && RuleMatches(text, rules[1..][i]) && c.value == rules[1..][i].category
                   && forall j :: 0 <= j < i ==> !RuleMatches(text, rules[1..][j]);
          assert rules[i + 1] == rules[1..][i];
          assert forall j :: 0 < j < i + 1 ==> rules[j] == rules[1..][j - 1];
        }
        c
      else c
  }

  /** The file-name rules are tried first and the first match wins; the content
      rules apply only when none matched and the data is a dictionary; the fallback
      is `general`. */
  lemma InferCategoryByRules(fileName: string, data: Value)
    ensures InferCategory(fileName, data) ==
      match FirstRule(Lower(fileName), NameRules)
      case Some(c) => c
      case None => if data.Dict? then FirstRule(Lower(Repr(data)), ContentRules).GetOr("general") else "general"
  {
    NameRulesChoice(Lower(fileName));
    NameRulesTail(Lower(fileName));
    if data.Dict? {
      ContentRulesChoice(Lower(Repr(data)));
    }
  }

  /** The file-name rules as the chain of tests `_infer_category` makes. */
  lemma NameRulesChoice(name: string)
    ensures FirstRule(name, NameRules) ==
      if Contains(name, "song") || Contains(name, "music") then Some("songs")
      else if Contains(name, "event") || Contains(name, "concert") then Some("events")
      else if Contains(name, "persona") || Contains(name, "character") then Some("persona")
      else FirstRule(name, NameRules[3..])
  {
    RuleMatchesPair(name, "song", "music", "songs");
    RuleMatchesPair(name, "event", "concert", "events");
    RuleMatchesPair(name, "persona", "character", "persona");
    var r := NameRules;
    FirstRuleUnfold(name, r);
    FirstRuleUnfold(name, r[1..]);
    FirstRuleUnfold(name, r[2..]);
    assert r[2..][1..] == r[3..];
  }

  /** The last three file-name rules as the rest of that chain. */
  lemma NameRulesTail(name: string)
    ensures FirstRule(name, NameRules[3..]) ==
      if Contains(name, "collab") then Some("collaborations")
      else if Contains(name, "social") || Contains(name, "weibo") then Some("social")
      else if Contains(name, "interview") then Some("interviews")
      else None
  {
    RuleMatchesOne(name, "collab", "collaborations");
    RuleMatchesPair(name, "social", "weibo", "social");
    RuleMatchesOne(name, "interview", "interviews");
    var r := NameRules[3..];
    assert r == [Rule(["collab"], "collaborations"), Rule(["social", "weibo"], "social"),
                 Rule(["interview"], "interviews")];
    FirstRuleUnfold(name, r);
    FirstRuleUnfold(name, r[1..]);
    FirstRuleUnfold(name, r[2..]);
    assert r[2..][1..] == [];
  }

  /** The content rules as the chain of tests `_infer_category` makes. */
  lemma ContentRulesChoice(text: string)
    ensures FirstRule(text, ContentRules) ==
      if Contains(text, "歌曲") || Contains(text, "音乐") then Some("songs")
      else if Contains(text, "演出") || Contains(text, "演唱会") then Some("events")
      else if Contains(text, "性格") || Contains(text, "设定") then Some("persona")
      else None
  {
    RuleMatchesPair(text, "歌曲", "音乐", "songs");
    RuleMatchesPair(text, "演出", "演唱会", "events");
    RuleMatchesPair(text, "性格", "设定", "persona");
    var r := ContentRules;
    FirstRuleUnfold(text, r);
    FirstRuleUnfold(text, r[1..]);
    FirstRuleUnfold(text, r[2..]);
    assert r[2..][1..] == [];
  }

  lemma RuleMatchesPair(text: string, a: string, b: string, c: string)
    ensures RuleMatches(text, Rule([a, b], c)) <==> Contains(text, a) || Contains(text, b)
  {
    if Contains(text, a) {
      assert Rule([a, b], c).keywords[0] == a;
    }
    if Contains(text, b) {
      assert Rule([a, b], c).keywords[1] == b;
    }
  }

  lemma RuleMatchesOne(text: string, a: string, c: string)
    ensures RuleMatches(text, Rule([a], c)) <==> Contains(text, a)
  {
    if Contains(text, a) {
      assert Rule([a], c).keywords[0] == a;
    }
  }

  /** One step of the first-match search. */
  lemma FirstRuleUnfold(text: string, rules: seq<Rule>)
    ensures FirstRule(text, rules) ==
      if rules == [] then None
      else if RuleMatches(text, rules[0]) then Some(rules[0].category)
      else FirstRule(text, rules[1..])
  {
  }

  // ---------------------------------------------------------------------------
  // Content extraction
  // ---------------------------------------------------------------------------

  /** The fields `_extract_content` tries, in priority order. */
  const ContentFields: seq<string> :=
    ["content", "text", "description", "lyrics", "summary", "abstract", "body", "message"]

  /** `field in item and item[field]`. */
  predicate FieldSet(item: seq<Entry>, field: string) {
    HasKey(item, field) && Truthy(Get(item, field).value)
  }

  /** The value of the first field of `fields` that is set in `item`. */
  function FirstSetField(item: seq<Entry>, fields: seq<string>): (v: Option<Value>)
    ensures v.None? <==> forall i :: 0 <= i < |fields| ==> !FieldSet(item, fields[i])
    ensures v.Some? ==> Truthy(v.value)
    decreases |fields|
  {
    if fields == [] then None
    else if FieldSet(item, fields[0]) then Get(item, fields[0])
    else
      assert forall i :: 0 < i < |fields| ==> fields[i] == fields[1..][i - 1];
      FirstSetField(item, fields[1..])
  }

  /** The `"key: value"` lines for the string values that are not blank, in order. */
  function TextParts(item: seq<Entry>): (parts: seq<string>)
    ensures forall i :: 0 <= i < |parts| ==> parts[i] != ""
    ensures |parts| <= |item|
  {
    if item == [] then []
    else
      var e := item[|item| - 1];
      TextParts(item[..|item| - 1]) + (if e.val.Str? && Strip(e.val.s) != "" then [e.key + ": " + e.val.s] else [])
  }

  /** What `_extract_content` returns. */
  function ExtractContentSpec(item: seq<Entry>): string {
    match FirstSetField(item, ContentFields)
    case Some(v) => StrForm(v)
    case None => Join(TextParts(item), "\n")
  }

  /** `_extract_content(item_data)`: the first set priority field, as a string;
      otherwise the non-blank string fields joined line by line. */
  method ExtractContent(item: seq<Entry>) returns (content: string)
    ensures content == ExtractContentSpec(item)
  {
    for k := 0 to |ContentFields|
      invariant forall j :: 0 <= j < k ==> !FieldSet(item, ContentFields[j])
    {
      var field := ContentFields[k];
      if HasKey(item, field) && Truthy(Get(item, field).value) {
        FirstSetFieldAt(item, ContentFields, k);
        return StrForm(Get(item, field).value);
      }
    }
    var parts: seq<string> := [];
    for k := 0 to |item|
      invariant parts == TextParts(item[..k])
    {
      assert item[..k + 1][..k] == item[..k];
      var value := item[k].val;
      if value.Str? && Strip(value.s) != "" {
        parts := parts + [item[k].key + ": " + value.s];
      }
    }
    assert item[..|item|] == item;
    return Join(parts, "\n");
  }

  /** The first set field is the one found by scanning the fields in order. */
  lemma {:induction false} FirstSetFieldAt(item: seq<Entry>, fields: seq<string>, k: int)
    requires 0 <= k < |fields| && FieldSet(item, fields[k])
    requires forall j :: 0 <= j < k ==> !FieldSet(item, fields[j])
    ensures FirstSetField(item, fields) == Get(item, fields[k])
    decreases k
  {
    if k > 0 {
      assert !FieldSet(item, fields[0]);
      forall j | 0 <= j < k - 1 ensures !FieldSet(item, fields[1..][j]) {
        assert fields[1..][j] == fields[j + 1];
      }
      FirstSetFieldAt(item, fields[1..], k - 1);
    }
  }

  /** A joined list of non-empty parts is empty exactly when the list is. */
  lemma JoinEmpty(parts: seq<string>, sep: string)
    requires forall i :: 0 <= i < |parts| ==> parts[i] != ""
    ensures Join(parts, sep) == "" <==> parts == []
  {
    if |parts| > 1 {
      assert |parts[0] + sep + Join(parts[1..], sep)| >= |parts[0]|;
    }
  }

  /** The extracted content is empty exactly when no priority field is set and no
      string field holds more than white space. */
  lemma ExtractContentEmpty(item: seq<Entry>)
    ensures ExtractContentSpec(item) == "" <==>
            (forall i :: 0 <= i < |ContentFields| ==> !FieldSet(item, ContentFields[i])) && TextParts(item) == []
  {
    match FirstSetField(item, ContentFields)
    case Some(v) =>
      TruthyStrFormNonEmpty(v);
    case None =>
      JoinEmpty(TextParts(item), "\n");
  }

  // ---------------------------------------------------------------------------
  // Calling the KnowledgeDocument constructor
  // ---------------------------------------------------------------------------

  /** The first keyword-argument key that is also one of the constructor's named
      parameters. */
  function FirstCollision(kwargs: seq<Entry>): (k: Option<string>)
    ensures k.None? <==> forall i :: 0 <= i < |kwargs| ==> kwargs[i].key !in NamedFields
    ensures k.Some? ==> k.value in NamedFields && HasKey(kwargs, k.value)
    decreases |kwargs|
  {
    if kwargs == [] then None
    else if kwargs[0].key in NamedFields then Some(kwargs[0].key)
    else
      assert forall i :: 0 < i < |kwargs| ==> kwargs[i] == kwargs[1..][i - 1];
      var k := FirstCollision(kwargs[1..]);
      if k.Some? then
        assert HasKey(kwargs, k.value) by {
          var j := Find(kwargs[1..], k.value);
          assert kwargs[j + 1].key == k.value;
        }
        k
      else k
  }

  /** `KnowledgeDocument(content=..., category=..., title=..., tags=..., source=..., **kwargs)`:
      Python raises `TypeError` when `kwargs` repeats a named parameter, before the
      constructor runs; otherwise the constructor's own outcome. */
  function CallKnowledgeDocument(content: Value, category: Value, title: Value, tags: Value, source: Value,
                                 kwargs: seq<Entry>, generatedId: string): (r: Result<KnowledgeDocument>)
    ensures r.Failure? <==> (exists i :: 0 <= i < |kwargs| && kwargs[i].key in NamedFields) || !content.Str?
    ensures (exists i :: 0 <= i < |kwargs| && kwargs[i].key in NamedFields) ==>
              r.Failure? && StartsWith(r.error, "TypeError: ")
    ensures r.Success? ==> r.value == NewKnowledgeDocument(content, category, title, tags, source, kwargs, generatedId).value
  {
    match FirstCollision(kwargs)
    case Some(k) =>
      var head := "TypeError: ";
      var e := head + ("got multiple values for keyword argument '" + k + "'");
      assert e[..|head|] == head;
      Failure(e)
    case None => NewKnowledgeDocument(content, category, title, tags, source, kwargs, generatedId)
  }

  /** The item fields `_add_knowledge_item` forwards: all but content, title and tags. */
  function Forwarded(item: seq<Entry>): (r: seq<Entry>)
    ensures forall i :: 0 <= i < |r| ==> r[i].key !in {"content", "title", "tags"}
    ensures forall i :: 0 <= i < |r| ==> r[i] in item
    ensures forall i :: 0 <= i < |item| && item[i].key !in {"content", "title", "tags"} ==> item[i] in r
    decreases |item|
  {
    if item == [] then []
    else
      var rest := Forwarded(item[1..]);
      assert forall i :: 0 < i < |item| ==> item[i] == item[1..][i - 1];
      if item[0].key in {"content", "title", "tags"} then rest else [item[0]] + rest
  }

  // ---------------------------------------------------------------------------
  // Adding a knowledge item
  // ---------------------------------------------------------------------------

  /** What happens to one item: nothing, an error that is logged, or a document
      handed to the vector store. */
  datatype AddOutcome = NotStored | Failed(error: string) | Stored(doc: KnowledgeDocument)

  /** `_add_knowledge_item(item, category, source)` as written: an item with empty
      content is dropped; otherwise every field but content, title and tags is
      forwarded next to the explicit `category` and `source`, so an item holding
      either key makes the call fail. */
  function AddKnowledgeItemAsWritten(item: seq<Entry>, category: string, source: string,
                                     generatedId: string): AddOutcome
  {
    var content := ExtractContentSpec(item);
    if content == "" then NotStored
    else
      match CallKnowledgeDocument(Str(content), Str(category), Get(item, "title").GetOr(Str("")),
                                  Get(item, "tags").GetOr(List([])), Str(source), Forwarded(item), generatedId)
      case Failure(e) => Failed(e)
      case Success(doc) => Stored(doc)
  }

  /** The item `_process_text_file` builds from a text file. */
  function TextItem(content: string, stem: string, path: string): seq<Entry> {
    [Entry("content", Str(content)), Entry("title", Str(stem)), Entry("source", Str(path))]
  }

  /** As written, an item that has a `category` or `source` field is never stored:
      the field is forwarded next to the explicit argument of the same name. */
  lemma CollidingItemsNotStored(item: seq<Entry>, category: string, source: string, generatedId: string)
    requires HasKey(item, "category") || HasKey(item, "source")
    ensures !AddKnowledgeItemAsWritten(item, category, source, generatedId).Stored?
  {
    var j := if HasKey(item, "category") then Find(item, "category") else Find(item, "source");
    var fw := Forwarded(item);
    assert item[j] in fw;
    var i :| 0 <= i < |fw| && fw[i] == item[j];
    assert fw[i].key in NamedFields;
  }

  /** As written, no text or markdown file is ever stored: its item always carries
      a `source` field. */
  lemma TextFilesNeverStored(content: string, stem: string, path: string, category: string, generatedId: string)
    ensures !AddKnowledgeItemAsWritten(TextItem(content, stem, path), category, path, generatedId).Stored?
  {
    var item := TextItem(content, stem, path);
    assert item[2].key == "source";
    CollidingItemsNotStored(item, category, path, generatedId);
  }

  /** `_add_knowledge_item` with the collision removed: the named parameters are
      not forwarded, and an item is stored exactly when its content is not empty. */
  function AddKnowledgeItem(item: seq<Entry>, category: string, source: string, generatedId: string): (o: AddOutcome)
    ensures o.Failed? == false
    ensures o.Stored? <==> ExtractContentSpec(item) != ""
    ensures o.Stored? ==> o.doc.content == Str(ExtractContentSpec(item)) && o.doc.category == Str(category)
                          && o.doc.source == Str(source)
  {
    var content := ExtractContentSpec(item);
    if content == "" then NotStored
    else
      OrElseString(source);
      Stored(NewKnowledgeDocument(Str(content), Str(category), Get(item, "title").GetOr(Str("")),
                                  Get(item, "tags").GetOr(List([])), Str(source), Extras(item), generatedId).value)
  }

  /** `s or ""` is `s` for every string. */
  lemma OrElseString(s: string)
    ensures OrElse(Str(s), Str("")) == Str(s)
  {
  }

  /** A stored item's metadata carries its category, title and source, and every
      other field of the item with its value. */
  lemma AddKnowledgeItemMetadata(item: seq<Entry>, category: string, source: string, generatedId: string)
    requires AddKnowledgeItem(item, category, source, generatedId).Stored?
    ensures var md := ToDocument(AddKnowledgeItem(item, category, source, generatedId).doc).metadata;
      Get(md, "category") == Some(Str(category)) && Get(md, "source") == Some(Str(source))
      && (forall key :: key !in NamedFields ==> Get(md, key) == Get(item, key))
  {
    var doc := AddKnowledgeItem(item, category, source, generatedId).doc;
    KnowledgeMetadataContents(doc.category, doc.title, doc.tags, doc.source, Extras(item));
    forall key | key !in NamedFields ensures Get(Extras(item), key) == Get(item, key) {
      ExtrasGet(item, key);
    }
  }

  // ---------------------------------------------------------------------------
  // Songs and events
  // ---------------------------------------------------------------------------

  /** An optional line: the data key it shows and its caption. */
  datatype Line = Line(key: string, caption: string)

  const SongLines: seq<Line> := [Line("lyrics", "歌词: "), Line("album", "专辑: "), Line("release_date", "发行日期: ")]
  const EventLines: seq<Line> := [Line("date", "日期: "), Line("location", "地点: "), Line("description", "描述: ")]

  /** The line shown for one optional key, or nothing when the key is absent. */
  function LineText(data: seq<Entry>, l: Line): string {
    if HasKey(data, l.key) then l.caption + StrForm(Get(data, l.key).value) + "\n" else ""
  }

  /** The lines for the keys present in `data`, in the order of `lines`. */
  function OptionalLines(data: seq<Entry>, lines: seq<Line>): string
    decreases |lines|
  {
    if lines == [] then "" else LineText(data, lines[0]) + OptionalLines(data, lines[1..])
  }

  /** With none of the optional keys present, no line is added. */
  lemma {:induction false} OptionalLinesNone(data: seq<Entry>, lines: seq<Line>)
    requires forall i :: 0 <= i < |lines| ==> !HasKey(data, lines[i].key)
    ensures OptionalLines(data, lines) == ""
    decreases |lines|
  {
    if lines != [] {
      assert forall i :: 0 <= i < |lines| - 1 ==> lines[1..][i] == lines[i + 1];
      OptionalLinesNone(data, lines[1..]);
    }
  }

  /** Every added line ends with a newline, so the text does when it is not empty. */
  lemma {:induction false} OptionalLinesEnd(data: seq<Entry>, lines: seq<Line>)
    ensures OptionalLines(data, lines) == "" || EndsWith(OptionalLines(data, lines), "\n")
    decreases |lines|
  {
    if lines != [] {
      OptionalLinesEnd(data, lines[1..]);
      var rest := OptionalLines(data, lines[1..]);
      var t := LineText(data, lines[0]) + rest;
      if rest != "" {
        assert t[|t| - 1..] == rest[|rest| - 1..];
      } else if t != "" {
        assert t == LineText(data, lines[0]);
      }
    }
  }

  /** The optional text for a three-line table, line by line. */
  lemma OptionalLinesThree(data: seq<Entry>, lines: seq<Line>)
    requires |lines| == 3
    ensures OptionalLines(data, lines) == LineText(data, lines[0]) + (LineText(data, lines[1]) + LineText(data, lines[2]))
  {
    var r1, r2 := lines[1..], lines[1..][1..];
    assert r1[0] == lines[1] && r2[0] == lines[2] && r2[1..] == [];
    assert OptionalLines(data, r2) == LineText(data, lines[2]) + OptionalLines(data, r2[1..]);
    assert OptionalLines(data, r1) == LineText(data, lines[1]) + OptionalLines(data, r2);
  }

  /** Appending three pieces one by one appends their concatenation. */
  lemma AppendThree(h: string, a: string, b: string, c: string)
    ensures h + a + b + c == h + (a + (b + c))
  {
  }

  /** The text `add_song_knowledge` builds: the title line, then lyrics, album and
      release-date lines for the keys present. */
  method SongContent(data: seq<Entry>) returns (content: string)
    requires HasKey(data, "title")
    ensures content == "歌曲: " + StrForm(Get(data, "title").value) + "\n" + OptionalLines(data, SongLines)
  {
    content := "歌曲: " + StrForm(Get(data, "title").value) + "\n";
    ghost var header := content;
    if HasKey(data, "lyrics") {
      content := content + ("歌词: " + StrForm(Get(data, "lyrics").value) + "\n");
    }
    assert content == header + LineText(data, SongLines[0]);
    if HasKey(data, "album") {
      content := content + ("专辑: " + StrForm(Get(data, "album").value) + "\n");
    }
    assert content == header + LineText(data, SongLines[0]) + LineText(data, SongLines[1]);
    if HasKey(data, "release_date") {
      content := content + ("发行日期: " + StrForm(Get(data, "release_date").value) + "\n");
    }
    assert content == header + LineText(data, SongLines[0]) + LineText(data, SongLines[1]) + LineText(data, SongLines[2]);
    OptionalLinesThree(data, SongLines);
    AppendThree(header, LineText(data, SongLines[0]), LineText(data, SongLines[1]), LineText(data, SongLines[2]));
  }

  /** The text `add_event_knowledge` builds: the title line, then date, location
      and description lines for the keys present. */
  method EventContent(data: seq<Entry>) returns (content: string)
    requires HasKey(data, "title")
    ensures content == "活动: " + StrForm(Get(data, "title").value) + "\n" + OptionalLines(data, EventLines)
  {
    content := "活动: " + StrForm(Get(data, "title").value) + "\n";
    ghost var header := content;
    if HasKey(data, "date") {
      content := content + ("日期: " + StrForm(Get(data, "date").value) + "\n");
    }
    assert content == header + LineText(data, EventLines[0]);
    if HasKey(data, "location") {
      content := content + ("地点: " + StrForm(Get(data, "location").value) + "\n");
    }
    assert content == header + LineText(data, EventLines[0]) + LineText(data, EventLines[1]);
    if HasKey(data, "description") {
      content := content + ("描述: " + StrForm(Get(data, "description").value) + "\n");
    }
    assert content == header + LineText(data, EventLines[0]) + LineText(data, EventLines[1]) + LineText(data, EventLines[2]);
    OptionalLinesThree(data, EventLines);
    AppendThree(header, LineText(data, EventLines[0]), LineText(data, EventLines[1]), LineText(data, EventLines[2]));
  }

  /** `add_song_knowledge` / `add_event_knowledge` as written: data without a title
      or content is skipped; otherwise the call passes `title` and `content` both
      by name and inside `**data`, which always raises `TypeError`. */
  function AddEntryAsWritten(data: seq<Entry>, content: string, category: string, generatedId: string): AddOutcome
  {
    if !HasKey(data, "title") || !HasKey(data, "content") then NotStored
    else
      match CallKnowledgeDocument(Str(content), Str(category), Get(data, "title").value,
                                  Get(data, "tags").GetOr(List([])), Str("manual_input"), data, generatedId)
      case Failure(e) => Failed(e)
      case Success(doc) => Stored(doc)
  }

  /** As written, a song or event that passes the field check is never stored. */
  lemma AddEntryAlwaysFails(data: seq<Entry>, content: string, category: string, generatedId: string)
    requires HasKey(data, "title") && HasKey(data, "content")
    ensures AddEntryAsWritten(data, content, category, generatedId).Failed?
  {
    var i := Find(data, "title");
    assert data[i].key in NamedFields;
  }

  /** The song or event entry with the collision removed: skipped without a title
      or content, otherwise stored with the built text, its category, the title,
      `manual_input` as source, and the remaining fields as metadata. */
  function AddEntry(data: seq<Entry>, content: string, category: string, generatedId: string): (o: AddOutcome)
    ensures o.Failed? == false
    ensures o.Stored? <==> HasKey(data, "title") && HasKey(data, "content")
    ensures o.Stored? ==> o.doc.content == Str(content) && o.doc.category == Str(category)
                          && o.doc.source == Str("manual_input")
                          && o.doc.title == OrElse(Get(data, "title").value, Str(""))
  {
    if !HasKey(data, "title") || !HasKey(data, "content") then NotStored
    else
      Stored(NewKnowledgeDocument(Str(content), Str(category), Get(data, "title").value,
                                  Get(data, "tags").GetOr(List([])), Str("manual_input"), Extras(data), generatedId).value)
  }

  /** `add_song_knowledge(song_data)` with the collision removed. */
  method AddSongKnowledge(data: seq<Entry>, generatedId: string) returns (o: AddOutcome)
    ensures o.Stored? <==> HasKey(data, "title") && HasKey(data, "content")
    ensures o.Stored? ==> o.doc.category == Str("songs") && o.doc.source == Str("manual_input")
    ensures o.Stored? ==> ToDocument(o.doc).content
                          == Str("歌曲: " + StrForm(Get(data, "title").value) + "\n" + OptionalLines(data, SongLines))
  {
    if !HasKey(data, "title") || !HasKey(data, "content") {
      return NotStored;
    }
    var content := SongContent(data);
    o := AddEntry(data, content, "songs", generatedId);
  }

  /** `add_event_knowledge(event_data)` with the collision removed. */
  method AddEventKnowledge(data: seq<Entry>, generatedId: string) returns (o: AddOutcome)
    ensures o.Stored? <==> HasKey(data, "title") && HasKey(data, "content")
    ensures o.Stored? ==> o.doc.category == Str("events") && o.doc.source == Str("manual_input")
    ensures o.Stored? ==> ToDocument(o.doc).content
                          == Str("活动: " + StrForm(Get(data, "title").value) + "\n" + OptionalLines(data, EventLines))
  {
    if !HasKey(data, "title") || !HasKey(data, "content") {
      return NotStored;
    }
    var content := EventContent(data);
    o := AddEntry(data, content, "events", generatedId);
  }
}
