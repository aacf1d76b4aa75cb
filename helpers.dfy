/** Dictionary and text utilities of `src/utils/helpers.py`: recursive
    dictionary merge, dotted-path lookup, required-key validation and
    windowed text chunking. */
module Helpers {
  import opened Wrappers
  import opened Strings
  import opened Sequences
  import opened Values

  // ---------------------------------------------------------------------------
  // merge_dict

  /** `merge_dict(base, update)`: a copy of `base` into which the entries of
      `update` are written in order; where both sides hold a dictionary under
      the same key the two are merged recursively instead. */
  function MergeDict(base: seq<Entry>, update: seq<Entry>): seq<Entry>
    decreases update
  {
    if update == [] then base
    else
      var e := update[|update| - 1];
      var acc := MergeDict(base, update[..|update| - 1]);
      Put(acc, e.key, MergeValue(Get(acc, e.key), e.val))
  }

  /** The value written for one key of `update`, given what the copy holds. */
  function MergeValue(current: Option<Value>, v: Value): Value
    decreases v
  {
    if current.Some? && current.value.Dict? && v.Dict? then Dict(MergeDict(current.value.items, v.items))
    else v
  }

  /** Looking up an appended entry. */
  lemma GetAppend(es: seq<Entry>, e: Entry, k: string)
    ensures Get(es + [e], k) == if HasKey(es, k) then Get(es, k) else if e.key == k then Some(e.val) else None
    ensures HasKey(es + [e], k) <==> HasKey(es, k) || e.key == k
  {
    var r := es + [e];
    var i := Find(es, k);
    if i >= 0 {
      FindFirst(r, k, i);
    } else if e.key == k {
      FindFirst(r, k, |es|);
    } else {
      assert forall j :: 0 <= j < |r| ==> r[j].key != k;
    }
  }

  lemma DistinctKeysPrefix(es: seq<Entry>)
    requires es != [] && DistinctKeys(es)
    ensures DistinctKeys(es[..|es| - 1])
    ensures !HasKey(es[..|es| - 1], es[|es| - 1].key)
  {
    var p := es[..|es| - 1];
    forall i, j | 0 <= i < j < |p| ensures Keys(p)[i] != Keys(p)[j] {
      assert Keys(es)[i] != Keys(es)[j];
    }
    forall j | 0 <= j < |p| ensures p[j].key != es[|es| - 1].key {
      assert Keys(es)[j] != Keys(es)[|es| - 1];
    }
  }

  /** The merged dictionary, key by key: a key of `update` holds `update`'s
      value, or the recursive merge when both values are dictionaries; a key
      only in `base` keeps its value; no other key is present. */
  lemma {:induction false} MergeDictGet(base: seq<Entry>, update: seq<Entry>, k: string)
    requires DistinctKeys(update)
    ensures Get(MergeDict(base, update), k) ==
      if HasKey(update, k) then Some(MergeValue(Get(base, k), Get(update, k).value)) else Get(base, k)
    ensures HasKey(MergeDict(base, update), k) <==> HasKey(base, k) || HasKey(update, k)
    decreases update
  {
    if update != [] {
      var e := update[|update| - 1];
      var u := update[..|update| - 1];
      DistinctKeysPrefix(update);
      assert update == u + [e];
      GetAppend(u, e, k);
      MergeDictGet(base, u, k);
      MergeDictGet(base, u, e.key);
      var acc := MergeDict(base, u);
      PutGet(acc, e.key, MergeValue(Get(acc, e.key), e.val), k);
    }
  }

  /** Merging into a dictionary with distinct keys keeps them distinct. */
  lemma {:induction false} MergeDictDistinct(base: seq<Entry>, update: seq<Entry>)
    requires DistinctKeys(base)
    ensures DistinctKeys(MergeDict(base, update))
    decreases update
  {
    if update != [] {
      var e := update[|update| - 1];
      MergeDictDistinct(base, update[..|update| - 1]);
      var acc := MergeDict(base, update[..|update| - 1]);
      PutDistinct(acc, e.key, MergeValue(Get(acc, e.key), e.val));
    }
  }

  /** `merge_dict({}, u) == u`, order included. */
  lemma {:induction false} MergeIntoEmpty(update: seq<Entry>)
    requires DistinctKeys(update)
    ensures MergeDict([], update) == update
    decreases update
  {
    if update != [] {
      var e := update[|update| - 1];
      var u := update[..|update| - 1];
      DistinctKeysPrefix(update);
      MergeIntoEmpty(u);
      assert !HasKey(u, e.key);
      assert Get(u, e.key) == None;
      assert MergeDict([], update) == Put(u, e.key, e.val);
      assert update == u + [Entry(e.key, e.val)];
    }
  }

  /** `merge_dict(d, d) == d` for a well-formed dictionary. */
  lemma MergeSelf(v: Value)
    requires v.Dict? && WellFormed(v)
    ensures MergeDict(v.items, v.items) == v.items
    decreases v, 1
  {
    MergeSelfPrefix(v, |v.items|);
    assert v.items[..|v.items|] == v.items;
  }

  lemma {:induction false} MergeSelfPrefix(v: Value, n: nat)
    requires v.Dict? && WellFormed(v) && n <= |v.items|
    ensures MergeDict(v.items, v.items[..n]) == v.items
    decreases v, 0, n
  {
    var d := v.items;
    if n > 0 {
      MergeSelfPrefix(v, n - 1);
      var e := d[n - 1];
      assert d[..n][..n - 1] == d[..n - 1];
      assert Get(d, e.key) == Some(e.val);
      if e.val.Dict? {
        MergeSelf(e.val);
      }
      assert MergeValue(Get(d, e.key), e.val) == e.val;
      FindFirst(d, e.key, n - 1) by {
        forall j | 0 <= j < n - 1 ensures d[j].key != e.key {
          assert Keys(d)[j] != Keys(d)[n - 1];
        }
      }
      assert d[n - 1 := e] == d;
    }
  }

  // ---------------------------------------------------------------------------
  // safe_get

  /** Following `keys` from `v` one subscript at a time; only a dictionary
      holding the key can be subscripted, anything else fails (the source's
      `KeyError` and `TypeError`). */
  function Resolve(v: Value, keys: seq<string>): Option<Value>
    decreases |keys|
  {
    if keys == [] then Some(v)
    else if v.Dict? && HasKey(v.items, keys[0]) then Resolve(Get(v.items, keys[0]).value, keys[1..])
    else None
  }

  /** `safe_get(data, key_path, default)`. */
  function SafeGet(data: Value, keyPath: string, default: Value): Value {
    Resolve(data, Split(keyPath, '.')).GetOr(default)
  }

  /** A path without a dot is a plain dictionary lookup with a default. */
  lemma SafeGetPlainKey(es: seq<Entry>, key: string, default: Value)
    requires '.' !in key
    ensures SafeGet(Dict(es), key, default) == Get(es, key).GetOr(default)
  {
    SplitJoin([key], '.');
    assert Join([key], ".") == key;
    assert Split(key, '.') == [key];
    assert [key][1..] == [];
    if HasKey(es, key) {
      assert Resolve(Dict(es), [key]) == Resolve(Get(es, key).value, []);
    } else {
      assert Resolve(Dict(es), [key]) == None;
    }
  }

  /** A value stored as `None` is returned as `None`, whatever the default. */
  lemma SafeGetStoredNone(data: Value, keyPath: string, default: Value)
    requires Resolve(data, Split(keyPath, '.')) == Some(Null)
    ensures SafeGet(data, keyPath, default) == Null
  {
  }

  lemma {:induction false} SplitConcat(a: string, b: string, sep: char)
    ensures Split(a + [sep] + b, sep) == Split(a, sep) + Split(b, sep)
    decreases |a|
  {
    if a == [] {
      assert a + [sep] + b == [sep] + b;
      SplitCons(sep, b, sep);
    } else {
      var t := a[1..];
      var mid := t + [sep] + b;
      assert a + [sep] + b == [a[0]] + mid;
      assert a == [a[0]] + t;
      SplitConcat(t, b, sep);
      SplitCons(a[0], mid, sep);
      SplitCons(a[0], t, sep);
      SplitGlue(a[0], sep, Split([a[0]] + mid, sep), Split([a[0]] + t, sep),
                Split(t, sep), Split(b, sep), Split(mid, sep));
    }
  }

  /** `Split` of a string with a character in front. */
  lemma SplitCons(c: char, t: string, sep: char)
    ensures Split([c] + t, sep) ==
      if c == sep then [""] + Split(t, sep) else [[c] + Split(t, sep)[0]] + Split(t, sep)[1..]
  {
    var s := [c] + t;
    assert s[0] == c && s[1..] == t;
  }

  lemma SplitGlue(c: char, sep: char, whole: seq<string>, first: seq<string>,
                  rt: seq<string>, sb: seq<string>, mid: seq<string>)
    requires |rt| >= 1 && mid == rt + sb
    requires whole == if c == sep then [""] + mid else [[c] + mid[0]] + mid[1..]
    requires first == if c == sep then [""] + rt else [[c] + rt[0]] + rt[1..]
    ensures whole == first + sb
  {
    assert mid[0] == rt[0];
    assert mid[1..] == rt[1..] + sb;
  }

  lemma {:induction false} ResolveConcat(v: Value, ks1: seq<string>, ks2: seq<string>)
    ensures Resolve(v, ks1 + ks2) == match Resolve(v, ks1) case None => None case Some(w) => Resolve(w, ks2)
    decreases |ks1|
  {
    if ks1 == [] {
      assert ks1 + ks2 == ks2;
    } else {
      var ks := ks1 + ks2;
      assert ks != [] && ks[0] == ks1[0] && ks[1..] == ks1[1..] + ks2;
      if v.Dict? && HasKey(v.items, ks1[0]) {
        ResolveConcat(Get(v.items, ks1[0]).value, ks1[1..], ks2);
      } else {
        assert Resolve(v, ks) == None;
      }
    }
  }

  /** `safe_get(data, "a.b", d)` descends through `a` first: when `a` cannot be
      followed the result is the default, otherwise it is `safe_get` of `b`
      from where `a` led. */
  lemma SafeGetDescends(data: Value, a: string, b: string, default: Value)
    ensures SafeGet(data, a + "." + b, default) ==
      match Resolve(data, Split(a, '.')) case None => default case Some(w) => SafeGet(w, b, default)
  {
    SplitConcat(a, b, '.');
    ResolveConcat(data, Split(a, '.'), Split(b, '.'));
  }

  // ---------------------------------------------------------------------------
  // validate_config

  /** A required key is missing when, dotted, its path leads to no value or to
      `None`, and, plain, when the configuration lacks it. */
  predicate IsMissing(config: seq<Entry>, key: string) {
    if '.' in key then SafeGet(Dict(config), key, Null) == Null else !HasKey(config, key)
  }

  /** The required keys that are missing, in their original order. */
  function MissingKeys(config: seq<Entry>, required: seq<string>): seq<string>
    decreases |required|
  {
    if required == [] then []
    else
      var k := required[|required| - 1];
      MissingKeys(config, required[..|required| - 1]) + (if IsMissing(config, k) then [k] else [])
  }

  /** Exactly the missing required keys are reported, in the order given. */
  lemma {:induction false} MissingKeysSpec(config: seq<Entry>, required: seq<string>)
    ensures forall k :: k in MissingKeys(config, required) <==> k in required && IsMissing(config, k)
    ensures IsSubsequence(MissingKeys(config, required), required)
    decreases |required|
  {
    if required != [] {
      var k := required[|required| - 1];
      var r := required[..|required| - 1];
      MissingKeysSpec(config, r);
      assert required == r + [k];
      var m := MissingKeys(config, r);
      if IsMissing(config, k) {
        assert (m + [k])[..|m + [k]| - 1] == m;
      } else {
        assert m + [] == m;
        SubsequenceSnoc(m, r, k);
      }
    }
  }

  /** Appending to the sequence keeps a subsequence a subsequence. */
  lemma {:induction false} SubsequenceSnoc<T>(a: seq<T>, b: seq<T>, x: T)
    requires IsSubsequence(a, b)
    ensures IsSubsequence(a, b + [x])
    decreases |b|, 1
  {
    var bx := b + [x];
    assert bx[..|bx| - 1] == b;
    if a != [] && a[|a| - 1] == x {
      SubsequenceDropLast(a, b);
    }
  }

  /** Dropping the last element of a subsequence leaves a subsequence. */
  lemma {:induction false} SubsequenceDropLast<T>(a: seq<T>, b: seq<T>)
    requires a != [] && IsSubsequence(a, b)
    ensures IsSubsequence(a[..|a| - 1], b)
    decreases |b|, 0
  {
    var p := a[..|a| - 1];
    var q := b[..|b| - 1];
    assert q + [b[|b| - 1]] == b;
    if a[|a| - 1] == b[|b| - 1] {
      SubsequenceSnoc(p, q, b[|b| - 1]);
    } else {
      SubsequenceDropLast(a, q);
      SubsequenceSnoc(p, q, b[|b| - 1]);
    }
  }

  /** `validate_config(config, required_keys)`. */
  method ValidateConfig(config: seq<Entry>, required: seq<string>) returns (missing: seq<string>)
    ensures missing == MissingKeys(config, required)
    ensures forall k :: k in missing <==> k in required && IsMissing(config, k)
  {
    missing := [];
    for i := 0 to |required|
      invariant missing == MissingKeys(config, required[..i])
    {
      var key := required[i];
      assert required[..i + 1][..i] == required[..i];
      if '.' in key {
        if SafeGet(Dict(config), key, Null) == Null {
          missing := missing + [key];
        }
      } else {
        if !HasKey(config, key) {
          missing := missing + [key];
        }
      }
    }
    assert required[..|required|] == required;
    MissingKeysSpec(config, required);
  }

  // ---------------------------------------------------------------------------
  // split_text_chunks

  function Max(a: int, b: int): int {
    if a >= b then a else b
  }

  /** Python's normalisation of a slice bound against a length `n`: negative
      bounds count from the end, and the result is clamped to `0..n`. */
  function Clamp(i: int, n: nat): (r: nat)
    ensures r <= n
    ensures 0 <= i <= n ==> r == i
  {
    if i < 0 then (if n + i < 0 then 0 else n + i) else if i > n then n else i
  }

  /** `s[i:j]`. */
  function PySlice(s: string, i: int, j: int): (r: string)
    ensures 0 <= i <= j ==> |r| <= j - i
  {
    var lo := Clamp(i, |s|);
    var hi := Clamp(j, |s|);
    if lo < hi then s[lo..hi] else ""
  }

  /** A slice is a piece of the sliced string, found at the normalised lower
      bound. */
  lemma PySliceOccurs(s: string, i: int, j: int)
    ensures OccursAt(s, PySlice(s, i, j), Clamp(i, |s|))
  {
  }

  /** `text.rfind(c, lo, hi)` for bounds already inside the text. */
  function RFind(text: string, c: char, lo: nat, hi: nat): (r: int)
    requires hi <= |text|
    ensures r == -1 || (lo <= r < hi && text[r] == c)
    decreases hi
  {
    if hi <= lo then -1 else if text[hi - 1] == c then hi - 1 else RFind(text, c, lo, hi - 1)
  }

  /** `rfind` finds the last occurrence in `lo..hi`, or reports -1 when there
      is none. */
  lemma {:induction false} RFindLast(text: string, c: char, lo: nat, hi: nat)
    requires hi <= |text|
    ensures var r := RFind(text, c, lo, hi);
      (r >= 0 ==> forall j :: r < j < hi ==> text[j] != c) &&
      (r == -1 ==> forall j :: lo <= j < hi ==> text[j] != c)
    decreases hi
  {
    if lo < hi && text[hi - 1] != c {
      RFindLast(text, c, lo, hi - 1);
    }
  }

  /** The sentence-ending punctuation the chunker prefers to cut after: the
      ideographic full stop, the full-width question and exclamation marks
      and their ASCII counterparts. */
  predicate IsSentenceEnd(c: char) {
    c == '\U{3002}' || c == '\U{FF1F}' || c == '\U{FF01}' || c == '.' || c == '?' || c == '!'
  }

  /** The last index in `lo..hi` holding sentence-ending punctuation, or -1. */
  function LastSentenceEnd(text: string, lo: nat, hi: nat): (r: int)
    requires hi <= |text|
    ensures r == -1 || (lo <= r < hi && IsSentenceEnd(text[r]))
    decreases hi
  {
    if hi <= lo then -1 else if IsSentenceEnd(text[hi - 1]) then hi - 1 else LastSentenceEnd(text, lo, hi - 1)
  }

  /** No sentence end follows the one found, and -1 means there is none. */
  lemma {:induction false} LastSentenceEndIsLast(text: string, lo: nat, hi: nat)
    requires hi <= |text|
    ensures var r := LastSentenceEnd(text, lo, hi);
      (r >= 0 ==> forall j :: r < j < hi ==> !IsSentenceEnd(text[j])) &&
      (r == -1 ==> forall j :: lo <= j < hi ==> !IsSentenceEnd(text[j]))
    decreases hi
  {
    if lo < hi && !IsSentenceEnd(text[hi - 1]) {
      LastSentenceEndIsLast(text, lo, hi - 1);
    }
  }

  /** The maximum of the six `rfind` calls the source makes is the last
      sentence end. */
  lemma {:induction false} SixSearches(text: string, lo: nat, hi: nat)
    requires hi <= |text|
    ensures Max(Max(Max(RFind(text, '\U{3002}', lo, hi), RFind(text, '\U{FF1F}', lo, hi)),
                    Max(RFind(text, '\U{FF01}', lo, hi), RFind(text, '.', lo, hi))),
                Max(RFind(text, '?', lo, hi), RFind(text, '!', lo, hi)))
            == LastSentenceEnd(text, lo, hi)
  {
    RFindBelowLast(text, '\U{3002}', lo, hi);
    RFindBelowLast(text, '\U{FF1F}', lo, hi);
    RFindBelowLast(text, '\U{FF01}', lo, hi);
    RFindBelowLast(text, '.', lo, hi);
    RFindBelowLast(text, '?', lo, hi);
    RFindBelowLast(text, '!', lo, hi);
    LastSentenceEndFound(text, lo, hi);
    MaxOfSix(RFind(text, '\U{3002}', lo, hi), RFind(text, '\U{FF1F}', lo, hi),
             RFind(text, '\U{FF01}', lo, hi), RFind(text, '.', lo, hi),
             RFind(text, '?', lo, hi), RFind(text, '!', lo, hi), LastSentenceEnd(text, lo, hi));
  }

  /** No search for a sentence-ending character finds one after the last sentence end. */
  lemma {:induction false} RFindBelowLast(text: string, c: char, lo: nat, hi: nat)
    requires hi <= |text| && IsSentenceEnd(c)
    ensures RFind(text, c, lo, hi) <= LastSentenceEnd(text, lo, hi)
    decreases hi
  {
    if lo < hi && !IsSentenceEnd(text[hi - 1]) {
      RFindBelowLast(text, c, lo, hi - 1);
    }
  }

  /** The search for the character at the last sentence end finds it. */
  lemma {:induction false} LastSentenceEndFound(text: string, lo: nat, hi: nat)
    requires hi <= |text|
    ensures var r := LastSentenceEnd(text, lo, hi); r >= 0 ==> RFind(text, text[r], lo, hi) == r
    decreases hi
  {
    if lo < hi && !IsSentenceEnd(text[hi - 1]) {
      LastSentenceEndFound(text, lo, hi - 1);
    }
  }

  lemma MaxOfSix(a: int, b: int, c: int, d: int, e: int, f: int, r: int)
    requires -1 <= a <= r && -1 <= b <= r && -1 <= c <= r && -1 <= d <= r && -1 <= e <= r && -1 <= f <= r
    requires r == -1 || r == a || r == b || r == c || r == d || r == e || r == f
    ensures Max(Max(Max(a, b), Max(c, d)), Max(e, f)) == r
  {
  }

  /** One iteration's slice `text[start:end]`; `end` is kept as computed, so it
      may lie past the end of the text. */
  datatype Window = Window(start: nat, end: int)

  /** The `end` one iteration computes for a window opening at `start`. */
  function WindowEnd(text: string, start: nat, maxLength: int): (r: int)
    requires start < |text|
    ensures 0 <= maxLength ==> start <= r <= start + maxLength
    ensures 1 <= maxLength ==> start < r
  {
    var end := start + maxLength;
    if end < |text| then
      var sentenceEnd := LastSentenceEnd(text, start, Clamp(end, |text|));
      if sentenceEnd > start then sentenceEnd + 1 else end
    else end
  }

  /** Where a window closes: when it is not the last and a sentence end lies
      after its first character, just past the last such sentence end;
      otherwise after a full `max_length` characters. */
  lemma WindowEndBoundary(text: string, start: nat, maxLength: int)
    requires start < |text| && 0 <= maxLength
    ensures var r := WindowEnd(text, start, maxLength);
      if start + maxLength < |text| && exists i :: start < i < start + maxLength && IsSentenceEnd(text[i]) then
        start + 1 < r && IsSentenceEnd(text[r - 1]) &&
        forall j :: r <= j < start + maxLength ==> !IsSentenceEnd(text[j])
      else
        r == start + maxLength
  {
    var end := start + maxLength;
    if end < |text| {
      LastSentenceEndIsLast(text, start, end);
    }
  }

  /** The windows the loop visits from `start` on; the next window opens at
      `max(start + 1, end - overlap)`. */
  function Windows(text: string, maxLength: int, overlap: int, start: nat): seq<Window>
    decreases |text| - start
  {
    if start >= |text| then []
    else
      var end := WindowEnd(text, start, maxLength);
      [Window(start, end)] + Windows(text, maxLength, overlap, Max(start + 1, end - overlap))
  }

  /** The stripped, non-empty contents of the windows, in order. */
  function ChunksOf(text: string, ws: seq<Window>): seq<string>
    decreases |ws|
  {
    if ws == [] then []
    else
      var w := ws[|ws| - 1];
      var chunk := Strip(PySlice(text, w.start, w.end));
      if chunk == "" then ChunksOf(text, ws[..|ws| - 1]) else ChunksOf(text, ws[..|ws| - 1]) + [chunk]
  }

  /** `split_text_chunks(text, max_length, overlap)`. */
  function TextChunks(text: string, maxLength: int, overlap: int): seq<string> {
    if |text| <= maxLength then [text] else ChunksOf(text, Windows(text, maxLength, overlap, 0))
  }

  /** The windows open at offsets in `lo..hi`, strictly increasing. */
  predicate OpenInOrder(ws: seq<Window>, lo: int, hi: int) {
    (forall i :: 0 <= i < |ws| ==> lo <= ws[i].start < hi) &&
    (forall i, j :: 0 <= i < j < |ws| ==> ws[i].start < ws[j].start)
  }

  /** Every window opens inside the text, and the windows open at strictly
      increasing offsets. */
  lemma {:induction false} WindowsAdvance(text: string, maxLength: int, overlap: int, start: nat)
    ensures OpenInOrder(Windows(text, maxLength, overlap, start), start, |text|)
    decreases |text| - start
  {
    if start < |text| {
      var end := WindowEnd(text, start, maxLength);
      var next := Max(start + 1, end - overlap);
      WindowsAdvance(text, maxLength, overlap, next);
      var rest := Windows(text, maxLength, overlap, next);
      var ws := Windows(text, maxLength, overlap, start);
      assert ws == [Window(start, end)] + rest;
      assert OpenInOrder(rest, next, |text|);
      forall i | 0 <= i < |ws| ensures start <= ws[i].start < |text| {
        if i > 0 {
          assert ws[i] == rest[i - 1];
        }
      }
      forall i, j | 0 <= i < j < |ws| ensures ws[i].start < ws[j].start {
        assert ws[j] == rest[j - 1];
        if i > 0 {
          assert ws[i] == rest[i - 1];
        }
      }
    }
  }

  /** Some window holds offset `k`. */
  predicate Covered(ws: seq<Window>, k: int) {
    exists i :: 0 <= i < |ws| && ws[i].start <= k < ws[i].end
  }

  /** With a positive `max_length` and a non-negative `overlap` consecutive
      windows touch or overlap, so every character from `start` on lies in
      some window: chunking drops nothing but white space. */
  lemma {:induction false} WindowsCover(text: string, maxLength: int, overlap: int, start: nat)
    requires 1 <= maxLength && 0 <= overlap
    ensures forall k :: start <= k < |text| ==> Covered(Windows(text, maxLength, overlap, start), k)
    decreases |text| - start
  {
    if start < |text| {
      var end := WindowEnd(text, start, maxLength);
      var next := Max(start + 1, end - overlap);
      var rest := Windows(text, maxLength, overlap, next);
      var ws := Windows(text, maxLength, overlap, start);
      assert ws == [Window(start, end)] + rest;
      WindowsCover(text, maxLength, overlap, next);
      forall k | start <= k < |text| ensures Covered(ws, k) {
        if k < end {
          assert ws[0].start <= k < ws[0].end;
        } else {
          assert next <= k;
          assert Covered(rest, k);
          var i :| 0 <= i < |rest| && rest[i].start <= k < rest[i].end;
          assert ws[i + 1] == rest[i];
        }
      }
    }
  }

  /** A window of a non-negative `max_length` holds at most `max_length`
      characters. */
  lemma {:induction false} WindowsBounded(text: string, maxLength: int, overlap: int, start: nat)
    requires 0 <= maxLength
    ensures forall w :: w in Windows(text, maxLength, overlap, start) ==>
      w.start < |text| && |PySlice(text, w.start, w.end)| <= maxLength
    decreases |text| - start
  {
    if start < |text| {
      var end := WindowEnd(text, start, maxLength);
      var next := Max(start + 1, end - overlap);
      var rest := Windows(text, maxLength, overlap, next);
      WindowsBounded(text, maxLength, overlap, next);
      assert Windows(text, maxLength, overlap, start) == [Window(start, end)] + rest;
      WindowSliceBound(text, start, maxLength);
    }
  }

  lemma WindowSliceBound(text: string, start: nat, maxLength: int)
    requires start < |text| && 0 <= maxLength
    ensures |PySlice(text, start, WindowEnd(text, start, maxLength))| <= maxLength
  {
  }

  /** The stripped content of one window is a stripped piece of the text. */
  lemma ChunkInText(text: string, w: Window)
    ensures var chunk := Strip(PySlice(text, w.start, w.end));
      IsStripped(chunk) && |chunk| <= |PySlice(text, w.start, w.end)| && Contains(text, chunk)
  {
    var slice := PySlice(text, w.start, w.end);
    PySliceOccurs(text, w.start, w.end);
    StripIsSlice(slice);
    StripOccurs(text, slice, Clamp(w.start, |text|));
    ContainsIff(text, Strip(slice));
  }

  /** Every chunk is a non-empty, stripped piece of the text no longer than
      its window. */
  lemma {:induction false} ChunksOfShape(text: string, ws: seq<Window>, bound: int)
    requires forall w :: w in ws ==> |PySlice(text, w.start, w.end)| <= bound
    ensures forall c :: c in ChunksOf(text, ws) ==> c != "" && IsStripped(c) && |c| <= bound && Contains(text, c)
    decreases |ws|
  {
    if ws != [] {
      assert forall w :: w in ws[..|ws| - 1] ==> w in ws;
      ChunksOfShape(text, ws[..|ws| - 1], bound);
      ChunkInText(text, ws[|ws| - 1]);
    }
  }

  /** The chunks of `split_text_chunks` for a non-negative `max_length`: each
      is a piece of the text of at most `max_length` characters; once the text
      is longer than `max_length` each is also non-empty and stripped. */
  lemma TextChunksShape(text: string, maxLength: int, overlap: int)
    requires 0 <= maxLength
    ensures forall c :: c in TextChunks(text, maxLength, overlap) ==> |c| <= maxLength && Contains(text, c)
    ensures |text| > maxLength ==>
      forall c :: c in TextChunks(text, maxLength, overlap) ==> c != "" && IsStripped(c)
  {
    if |text| <= maxLength {
      assert OccursAt(text, text, 0);
      ContainsIff(text, text);
    } else {
      WindowsBounded(text, maxLength, overlap, 0);
      ChunksOfShape(text, Windows(text, maxLength, overlap, 0), maxLength);
    }
  }

  /** Where the window after `w` opens. */
  function NextStart(w: Window, overlap: int): int {
    Max(w.start + 1, w.end - overlap)
  }

  /** The first window opens where the loop starts. */
  lemma WindowsFirst(text: string, maxLength: int, overlap: int, start: nat)
    requires start < |text|
    ensures var ws := Windows(text, maxLength, overlap, start);
      |ws| > 0 && ws[0].start == start
  {
  }

  /** Window `i` opens inside the text and closes where `WindowEnd` says;
      the next opens at `max(start + 1, end - overlap)`, and after the last
      one that position lies past the text. */
  lemma {:induction false} WindowsSucc(text: string, maxLength: int, overlap: int, start: nat, i: nat)
    requires i < |Windows(text, maxLength, overlap, start)|
    ensures var ws := Windows(text, maxLength, overlap, start);
      ws[i].start < |text| && ws[i].end == WindowEnd(text, ws[i].start, maxLength) &&
      if i + 1 < |ws| then ws[i + 1].start == NextStart(ws[i], overlap) else NextStart(ws[i], overlap) >= |text|
    decreases |text| - start
  {
    var end := WindowEnd(text, start, maxLength);
    var next := Max(start + 1, end - overlap);
    var rest := Windows(text, maxLength, overlap, next);
    var ws := Windows(text, maxLength, overlap, start);
    assert ws == [Window(start, end)] + rest;
    if i == 0 {
      if |rest| > 0 {
        WindowsFirst(text, maxLength, overlap, next);
      }
    } else {
      WindowsSucc(text, maxLength, overlap, next, i - 1);
      assert ws[i] == rest[i - 1];
    }
  }

  /** Extending the windows by one adds that window's chunk, if it has one. */
  lemma ChunksOfSnoc(text: string, ws: seq<Window>, i: nat)
    requires i < |ws|
    ensures var chunk := Strip(PySlice(text, ws[i].start, ws[i].end));
      ChunksOf(text, ws[..i + 1]) == if chunk == "" then ChunksOf(text, ws[..i]) else ChunksOf(text, ws[..i]) + [chunk]
  {
    assert ws[..i + 1][..i] == ws[..i];
  }

  /** The `end` of one iteration of `split_text_chunks`: `max_length` on from
      `start`, pulled back to just past the last sentence end when the window
      is not the last one and such a sentence end lies after `start`. */
  method ChunkEnd(text: string, start: nat, maxLength: int) returns (end: int)
    requires start < |text|
    ensures end == WindowEnd(text, start, maxLength)
  {
    end := start + maxLength;
    if end < |text| {
      var hi := Clamp(end, |text|);
      var sentenceEnd := Max(Max(Max(RFind(text, '\U{3002}', start, hi), RFind(text, '\U{FF1F}', start, hi)),
                                 Max(RFind(text, '\U{FF01}', start, hi), RFind(text, '.', start, hi))),
                             Max(RFind(text, '?', start, hi), RFind(text, '!', start, hi)));
      SixSearches(text, start, hi);
      if sentenceEnd > start {
        end := sentenceEnd + 1;
      }
    }
  }

  /** `split_text_chunks`, the loop as the source runs it. */
  method SplitTextChunks(text: string, maxLength: int, overlap: int) returns (chunks: seq<string>)
    ensures chunks == TextChunks(text, maxLength, overlap)
  {
    if |text| <= maxLength {
      return [text];
    }
    chunks := [];
    var start: nat := 0;
    ghost var ws := Windows(text, maxLength, overlap, 0);
    ghost var i := 0;
    if |text| > 0 {
      WindowsFirst(text, maxLength, overlap, 0);
    }
    WindowsAdvance(text, maxLength, overlap, 0);
    while start < |text|
      invariant 0 <= i <= |ws|
      invariant i < |ws| ==> start == ws[i].start
      invariant i == |ws| ==> start >= |text|
      invariant chunks == ChunksOf(text, ws[..i])
      decreases |text| - start
    {
      WindowsSucc(text, maxLength, overlap, 0, i);
      ChunksOfSnoc(text, ws, i);
      var end := ChunkEnd(text, start, maxLength);
      assert end == ws[i].end;
      var chunk := Strip(PySlice(text, start, end));
      if chunk != "" {
        chunks := chunks + [chunk];
      }
      start := if start + 1 >= end - overlap then start + 1 else end - overlap;
      i := i + 1;
    }
    assert ws[..i] == ws;
  }
}
