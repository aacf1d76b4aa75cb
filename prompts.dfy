/** The prompt template registry: templates kept by name, added, removed, listed
    and looked up, loaded from parsed YAML records, and chosen by intent. A template
    is its name and text; whether Jinja compiles a text, and what it renders, are
    parameters (`compiles`, `render`). */
module Prompts {
  import opened Wrappers
  import opened Sequences
  import opened Strings

  /** A `PromptTemplate`: its name and its template text. */
  datatype PromptTemplate = PromptTemplate(name: string, templateStr: string)

  /** The registry's contents: the templates by name, and the names in the order
      the dictionary iterates them (insertion order). */
  datatype Registry = Registry(templates: map<string, PromptTemplate>, order: seq<string>)

  /** The registry's invariant: `order` lists each registered name exactly once,
      and every template is stored under its own name. */
  ghost predicate Coherent(r: Registry) {
    Distinct(r.order)
    && (forall k :: k in r.templates <==> k in r.order)
    && (forall k :: k in r.templates ==> r.templates[k].name == k)
  }

  /** `templates[name] = PromptTemplate(template_str, name)`: a new name goes to the
      end of the iteration order, an existing one keeps its place. */
  function Upsert(r: Registry, name: string, templateStr: string): Registry {
    Registry(r.templates[name := PromptTemplate(name, templateStr)],
             if name in r.templates then r.order else r.order + [name])
  }

  /** `del templates[name]`. */
  function Without(r: Registry, name: string): Registry {
    Registry(r.templates - {name}, Remove(r.order, name))
  }

  /** The sequence without any occurrence of `x`. */
  function Remove(xs: seq<string>, x: string): (ys: seq<string>)
    ensures forall y :: y in ys <==> y in xs && y != x
    ensures Distinct(xs) ==> Distinct(ys)
  {
    if xs == [] then []
    else
      var rest := Remove(xs[1..], x);
      assert forall i, j :: 0 <= i < j < |xs[1..]| ==> xs[1..][i] == xs[i + 1] && xs[1..][j] == xs[j + 1];
      if xs[0] == x then rest
      else
        var ys := [xs[0]] + rest;
        assert Distinct(xs) ==> Distinct(ys) by {
          if Distinct(xs) {
            assert Distinct(xs[1..]);
            forall j | 0 <= j < |rest| ensures rest[j] != xs[0] {
              assert rest[j] in xs[1..];
            }
            forall i', j' | 0 <= i' < j' < |ys| ensures ys[i'] != ys[j'] {
              assert ys[j'] == rest[j' - 1];
              if i' > 0 {
                assert ys[i'] == rest[i' - 1];
              }
            }
          }
        }
        ys
  }

  /** Adding a template keeps the invariant, stores it under its name, and leaves
      every other entry as it was. */
  lemma UpsertCoherent(r: Registry, name: string, templateStr: string)
    requires Coherent(r)
    ensures var r' := Upsert(r, name, templateStr);
      Coherent(r')
      && r'.templates[name] == PromptTemplate(name, templateStr)
      && r'.templates.Keys == r.templates.Keys + {name}
      && (forall k :: k != name && k in r.templates ==> r'.templates[k] == r.templates[k])
  {
    var r' := Upsert(r, name, templateStr);
    if name !in r.templates {
      forall i, j | 0 <= i < j < |r'.order| ensures r'.order[i] != r'.order[j] {
        if j == |r.order| {
          assert r.order[i] in r.order;
        }
      }
    }
  }

  /** Removing a name keeps the invariant and drops exactly that entry. */
  lemma WithoutCoherent(r: Registry, name: string)
    requires Coherent(r)
    ensures var r' := Without(r, name);
      Coherent(r')
      && r'.templates.Keys == r.templates.Keys - {name}
      && (forall k :: k in r'.templates ==> r'.templates[k] == r.templates[k])
  {
  }

  // ---------------------------------------------------------------------------
  // Loading templates from a directory
  // ---------------------------------------------------------------------------

  /** One `*.yaml` file of the template directory after parsing: its stem, and the
      `name` and `template` fields when the document is a mapping; `Malformed` when
      it is not, so that `.get` raises and the file is skipped. */
  datatype TemplateFile =
    | TemplateFile(stem: string, name: Option<string>, template: Option<string>)
    | Malformed(stem: string)

  /** Whether loading registers the file: its template text must not be empty, and
      it must compile (`PromptTemplate` raises `TemplateSyntaxError` otherwise, and
      the loader's `except` skips the file). */
  predicate Registers(f: TemplateFile, compiles: string -> bool) {
    f.TemplateFile? && f.template.Some? && f.template.value != "" && compiles(f.template.value)
  }

  /** The key a file is registered under: its `name` field, else its stem. */
  function KeyOf(f: TemplateFile): string
    requires f.TemplateFile?
  {
    f.name.GetOr(f.stem)
  }

  /** `_load_templates_from_dir` over the parsed files, in order. */
  function LoadFiles(r: Registry, files: seq<TemplateFile>, compiles: string -> bool): Registry
    decreases |files|
  {
    if files == [] then r
    else
      var r' := LoadFiles(r, files[..|files| - 1], compiles);
      var f := files[|files| - 1];
      if Registers(f, compiles) then Upsert(r', KeyOf(f), f.template.value) else r'
  }

  /** Loading keeps the invariant; afterwards the registered names are the earlier
      ones plus the key of every file with a non-empty template that compiles, and a
      name no such file registers keeps its template. */
  lemma {:induction false} LoadFilesCoherent(r: Registry, files: seq<TemplateFile>, compiles: string -> bool)
    requires Coherent(r)
    ensures var r' := LoadFiles(r, files, compiles);
      Coherent(r')
      && (forall k :: k in r'.templates <==>
            k in r.templates || exists i :: 0 <= i < |files| && Registers(files[i], compiles) && KeyOf(files[i]) == k)
      && (forall k :: k in r.templates && (forall i :: 0 <= i < |files| && Registers(files[i], compiles) ==> KeyOf(files[i]) != k)
            ==> r'.templates[k] == r.templates[k])
    decreases |files|
  {
    if files != [] {
      var init := files[..|files| - 1];
      var f := files[|files| - 1];
      LoadFilesCoherent(r, init, compiles);
      var r0 := LoadFiles(r, init, compiles);
      assert forall i :: 0 <= i < |init| ==> init[i] == files[i];
      if Registers(f, compiles) {
        UpsertCoherent(r0, KeyOf(f), f.template.value);
      }
    }
  }

  /** Every registered template has non-empty text. */
  ghost predicate NonEmptyTexts(templates: map<string, PromptTemplate>) {
    forall k :: k in templates ==> templates[k].templateStr != ""
  }

  /** Every template that loading adds has non-empty text. */
  lemma {:induction false} LoadFilesNonEmpty(r: Registry, files: seq<TemplateFile>, compiles: string -> bool)
    requires NonEmptyTexts(r.templates)
    ensures NonEmptyTexts(LoadFiles(r, files, compiles).templates)
    decreases |files|
  {
    if files != [] {
      var init := files[..|files| - 1];
      LoadFilesNonEmpty(r, init, compiles);
      var f := files[|files| - 1];
      var t0 := LoadFiles(r, init, compiles).templates;
      if Registers(f, compiles) {
        var t := t0[KeyOf(f) := PromptTemplate(KeyOf(f), f.template.value)];
        assert LoadFiles(r, files, compiles).templates == t;
        forall k | k in t ensures t[k].templateStr != "" {
          if k != KeyOf(f) {
            assert t[k] == t0[k];
          }
        }
      }
    }
  }

  /** A later file that registers a key replaces the earlier template under it. */
  lemma LoadFilesLastWins(r: Registry, files: seq<TemplateFile>, f: TemplateFile, compiles: string -> bool)
    requires Registers(f, compiles)
    ensures LoadFiles(r, files + [f], compiles).templates[KeyOf(f)] == PromptTemplate(KeyOf(f), f.template.value)
  {
    assert (files + [f])[..|files|] == files;
  }

  /** A later file that is malformed, has no template text, or whose text does not
      compile changes nothing: the earlier template under its key survives. */
  lemma LoadFilesSkipsRejected(r: Registry, files: seq<TemplateFile>, f: TemplateFile, compiles: string -> bool)
    requires !Registers(f, compiles)
    ensures LoadFiles(r, files + [f], compiles) == LoadFiles(r, files, compiles)
  {
    assert (files + [f])[..|files|] == files;
  }

  // ---------------------------------------------------------------------------
  // Intent selection
  // ---------------------------------------------------------------------------

  /** `_select_template_by_intent`: the three known intents name their own template,
      anything else, `None` included, selects `daily_chat_prompt`. */
  function SelectTemplateByIntent(intent: Option<string>): (name: string)
    ensures intent.Some? && intent.value in {"greeting", "song_inquiry", "basic_chat"} ==> name == intent.value
    ensures intent.None? || intent.value !in {"greeting", "song_inquiry", "basic_chat"} ==> name == "daily_chat_prompt"
  {
    var table := map["greeting" := "greeting", "song_inquiry" := "song_inquiry", "basic_chat" := "basic_chat"];
    if intent.Some? && intent.value in table then table[intent.value] else "daily_chat_prompt"
  }

  /** Every intent selects one of four templates. */
  lemma SelectedTemplates(intent: Option<string>)
    ensures SelectTemplateByIntent(intent) in {"greeting", "song_inquiry", "basic_chat", "daily_chat_prompt"}
  {
  }

  // ---------------------------------------------------------------------------
  // Template variables
  // ---------------------------------------------------------------------------

  /** `\w` on ASCII text: letters, digits and the underscore. */
  predicate IsWordChar(c: char) {
    ('a' <= c <= 'z') || ('A' <= c <= 'Z') || ('0' <= c <= '9') || c == '_'
  }

  /** The first index from `i` on that does not hold a word character, or `|s|`. */
  function WordEnd(s: string, i: nat): (j: nat)
    requires i <= |s|
    ensures i <= j <= |s| && (j == |s| || !IsWordChar(s[j]))
    ensures forall k :: i <= k < j ==> IsWordChar(s[k])
    decreases |s| - i
  {
    if i < |s| && IsWordChar(s[i]) then WordEnd(s, i + 1) else i
  }

  /** The end of the `(?:\.\w+)*` run starting at `i`. */
  function DottedEnd(s: string, i: nat): (j: nat)
    requires i <= |s|
    ensures i <= j <= |s|
    decreases |s| - i
  {
    if i < |s| && s[i] == '.' && WordEnd(s, i + 1) > i + 1 then DottedEnd(s, WordEnd(s, i + 1)) else i
  }

  /** A match of `\{\{\s*(\w+)(?:\.\w+)*\s*\}\}` starting exactly at `i`: the
      captured name and the index just past the match. Each part of the pattern
      is followed by a character the part cannot take, so greedy matching needs
      no backtracking. */
  function MatchAt(s: string, i: nat): (m: Option<(string, nat)>)
    requires i <= |s|
    ensures m.Some? ==> i + 4 < m.value.1 <= |s| && m.value.0 != ""
                        && (forall k :: 0 <= k < |m.value.0| ==> IsWordChar(m.value.0[k]))
                        && s[i..i + 2] == "{{" && s[m.value.1 - 2..m.value.1] == "}}"
  {
    if !StartsWith(s[i..], "{{") then None
    else
      var a := SpaceRunEnd(s, i + 2);
      var b := WordEnd(s, a);
      if b == a then None
      else
        var d := SpaceRunEnd(s, DottedEnd(s, b));
        if StartsWith(s[d..], "}}") then
          assert s[i..][..2] == s[i..i + 2] && s[d..][..2] == s[d..d + 2];
          Some((s[a..b], d + 2))
        else None
  }

  /** `re.findall` from index `i`: matches are taken left to right without overlap,
      and a failed attempt moves on by one character. */
  function FindAllFrom(s: string, i: nat): (names: seq<string>)
    requires i <= |s|
    ensures forall n :: n in names ==> n != "" && forall k :: 0 <= k < |n| ==> IsWordChar(n[k])
    decreases |s| - i
  {
    if i == |s| then []
    else
      match MatchAt(s, i)
      case Some((name, j)) => [name] + FindAllFrom(s, j)
      case None => FindAllFrom(s, i + 1)
  }

  /** The list with later repetitions dropped. */
  function Dedup(xs: seq<string>): (ys: seq<string>)
    ensures forall x :: x in ys <==> x in xs
    ensures Distinct(ys)
  {
    if xs == [] then []
    else
      var rest := Dedup(xs[..|xs| - 1]);
      var x := xs[|xs| - 1];
      assert forall y :: y in xs <==> y in xs[..|xs| - 1] || y == x;
      if x in rest then rest
      else
        assert forall i :: 0 <= i < |rest| ==> rest[i] != x;
        rest + [x]
  }

  /** `_extract_template_variables`: the names captured by the placeholder
      pattern, each once. `list(set(...))` leaves the order unspecified; first
      occurrence is the order taken here. */
  function ExtractTemplateVariables(templateStr: string): (vars: seq<string>)
    ensures Distinct(vars)
    ensures forall v :: v in vars <==> v in FindAllFrom(templateStr, 0)
    ensures forall v :: v in vars ==> v != "" && forall k :: 0 <= k < |v| ==> IsWordChar(v[k])
  {
    Dedup(FindAllFrom(templateStr, 0))
  }

  /** A placeholder `{{name}}` is matched, and captures `name`. */
  lemma PlaceholderMatches(name: string, rest: string)
    requires name != "" && forall k :: 0 <= k < |name| ==> IsWordChar(name[k])
    ensures MatchAt("{{" + name + "}}" + rest, 0) == Some((name, |name| + 4))
  {
    var s := "{{" + name + "}}" + rest;
    assert !IsSpace(s[2]) by { assert s[2] == name[0]; }
    assert forall k :: 2 <= k < |name| + 2 ==> s[k] == name[k - 2];
    WordEndRun(s, 2, |name| + 2);
    assert s[|name| + 2] == '}';
    assert !IsSpace('}');
    assert s[..|name| + 4][2..|name| + 2] == name;
    assert s[2..|name| + 2] == name;
    assert s[|name| + 2..][..2] == "}}";
  }

  /** A run of word characters followed by a non-word character ends there. */
  lemma {:induction false} WordEndRun(s: string, i: nat, j: nat)
    requires i <= j < |s| && !IsWordChar(s[j])
    requires forall k :: i <= k < j ==> IsWordChar(s[k])
    ensures WordEnd(s, i) == j
    decreases j - i
  {
    if i < j {
      WordEndRun(s, i + 1, j);
    }
  }

  // ---------------------------------------------------------------------------
  // The manager
  // ---------------------------------------------------------------------------

  /** What `get_template_info` returns. */
  datatype TemplateInfo = TemplateInfo(name: string, template: string, variables: seq<string>)

  /** `PromptManager`: the template registry, updated in place. */
  class PromptManager {
    var templates: map<string, PromptTemplate>
    var order: seq<string>

    function State(): Registry
      reads this
    {
      Registry(templates, order)
    }

    ghost predicate Valid()
      reads this
    {
      Coherent(State())
    }

    /** `PromptManager(config)`: empty, then loaded from the template directory's
        parsed files when `config` names a directory that exists. */
    constructor(templateDir: Option<seq<TemplateFile>>, compiles: string -> bool)
      ensures Valid()
      ensures State() == if templateDir.Some? then LoadFiles(Registry(map[], []), templateDir.value, compiles)
                         else Registry(map[], [])
    {
      templates := map[];
      order := [];
      new;
      if templateDir.Some? {
        LoadTemplatesFromDir(templateDir.value, compiles);
      }
    }

    /** `_load_templates_from_dir` over the parsed files; a file whose template
        fails to compile is skipped, as the loop's `except` does. */
    method LoadTemplatesFromDir(files: seq<TemplateFile>, compiles: string -> bool)
      requires Valid()
      modifies this
      ensures Valid()
      ensures State() == LoadFiles(old(State()), files, compiles)
    {
      for k := 0 to |files|
        invariant Valid()
        invariant State() == LoadFiles(old(State()), files[..k], compiles)
      {
        assert files[..k + 1][..k] == files[..k];
        match files[k]
        case Malformed(_) =>
        case TemplateFile(stem, name, template) =>
          var key := name.GetOr(stem);
          var text := template.GetOr("");
          if text != "" {
            var _ := AddTemplate(key, text, compiles);
          }
      }
      assert files[..|files|] == files;
    }

    /** `get_template`: the template registered under `name`, if any. */
    function GetTemplate(name: string): (t: Option<PromptTemplate>)
      reads this
      ensures t.None? <==> name !in templates
      ensures t.Some? ==> t.value == templates[name]
      ensures t.Some? && Valid() ==> t.value.name == name
    {
      if name in templates then Some(templates[name]) else None
    }

    /** `render_template`: a name that is not registered fails before any rendering;
        otherwise the registered template is rendered by `render`, which stands for
        the Jinja engine. */
    function RenderTemplate(name: string, render: PromptTemplate -> Result<string>): (r: Result<string>)
      reads this
      ensures name !in templates ==> r == Failure("模板不存在: " + name)
      ensures name in templates ==> r == render(templates[name])
    {
      match GetTemplate(name)
      case None => Failure("模板不存在: " + name)
      case Some(t) => render(t)
    }

    /** `add_template`: registers the template under `name`, replacing any other,
        when its text compiles. `added` is false where `PromptTemplate` raises
        `TemplateSyntaxError` before the assignment, leaving the registry as it was. */
    method AddTemplate(name: string, templateStr: string, compiles: string -> bool) returns (added: bool)
      requires Valid()
      modifies this
      ensures Valid()
      ensures added == compiles(templateStr)
      ensures added ==> State() == Upsert(old(State()), name, templateStr)
      ensures !added ==> State() == old(State())
    {
      if !compiles(templateStr) {
        return false;
      }
      UpsertCoherent(State(), name, templateStr);
      if name !in templates {
        order := order + [name];
      }
      templates := templates[name := PromptTemplate(name, templateStr)];
      return true;
    }

    /** `remove_template`: true, and the entry gone, exactly when `name` was
        registered; otherwise nothing changes. */
    method RemoveTemplate(name: string) returns (removed: bool)
      requires Valid()
      modifies this
      ensures Valid()
      ensures removed <==> name in old(templates)
      ensures removed ==> State() == Without(old(State()), name)
      ensures !removed ==> State() == old(State())
    {
      if name in templates {
        WithoutCoherent(State(), name);
        templates := templates - {name};
        order := Remove(order, name);
        return true;
      }
      return false;
    }

    /** `list_templates`: every registered name, once each. */
    function ListTemplates(): (names: seq<string>)
      reads this
      ensures Valid() ==> (forall k :: k in names <==> k in templates)
      ensures Valid() ==> Distinct(names)
    {
      order
    }

    /** `get_template_info`: nothing for an unknown name; otherwise the stored name
        and text, unchanged, with the variables the text mentions. */
    function GetTemplateInfo(name: string): (info: Option<TemplateInfo>)
      reads this
      ensures info.None? <==> name !in templates
      ensures info.Some? ==> info.value.template == templates[name].templateStr
                             && info.value.name == templates[name].name
                             && info.value.variables == ExtractTemplateVariables(templates[name].templateStr)
      ensures info.Some? && Valid() ==> info.value.name == name
    {
      match GetTemplate(name)
      case None => None
      case Some(t) => Some(TemplateInfo(t.name, t.templateStr, ExtractTemplateVariables(t.templateStr)))
    }
  }
}
