/** The dynamically typed data the core passes around: parsed JSON/YAML
    documents, configuration dictionaries and metadata.  A Python `dict` keeps
    its keys in insertion order, so a dictionary is a sequence of entries. */
module Values {
  import opened Wrappers
  import opened Strings
  import opened Sequences

  datatype Value =
    | Null
    | Bool(b: bool)
    | Int(i: int)
    | Str(s: string)
    | List(elems: seq<Value>)
    | Dict(items: seq<Entry>)

  datatype Entry = Entry(key: string, val: Value)

  /** The keys of a dictionary, in insertion order (`list(d.keys())`). */
  function Keys(es: seq<Entry>): (ks: seq<string>)
    ensures |ks| == |es|
    ensures forall i :: 0 <= i < |es| ==> ks[i] == es[i].key
  {
    seq(|es|, i requires 0 <= i < |es| => es[i].key)
  }

  /** A Python dictionary never holds a key twice. */
  ghost predicate DistinctKeys(es: seq<Entry>) {
    Distinct(Keys(es))
  }

  /** Position of key `k`, or -1 when it is absent. */
  function Find(es: seq<Entry>, k: string): (i: int)
    ensures -1 <= i < |es|
    ensures 0 <= i ==> es[i].key == k && forall j :: 0 <= j < i ==> es[j].key != k
    ensures i == -1 ==> forall j :: 0 <= j < |es| ==> es[j].key != k
  {
    if es == [] then -1
    else if es[0].key == k then 0
    else
      var r := Find(es[1..], k);
      if r < 0 then -1 else r + 1
  }

  /** `k in d`. */
  predicate HasKey(es: seq<Entry>, k: string) {
    Find(es, k) >= 0
  }

  lemma HasKeyIff(es: seq<Entry>, k: string)
    ensures HasKey(es, k) <==> k in Keys(es)
  {
    if k in Keys(es) {
      var i :| 0 <= i < |es| && Keys(es)[i] == k;
    }
  }

  /** `d.get(k)`: the value stored under `k`, if any. */
  function Get(es: seq<Entry>, k: string): (r: Option<Value>)
    ensures r.Some? <==> HasKey(es, k)
    ensures forall i :: 0 <= i < |es| && es[i].key == k && DistinctKeys(es) ==> r == Some(es[i].val)
  {
    var i := Find(es, k);
    assert forall j :: 0 <= j < |es| && es[j].key == k && DistinctKeys(es) ==> j == i by {
      forall j | 0 <= j < |es| && es[j].key == k && DistinctKeys(es) ensures j == i {
        assert Keys(es)[j] == Keys(es)[i];
      }
    }
    if i >= 0 then Some(es[i].val) else None
  }

  /** `d[k] = v`: overwrites in place when `k` is present, appends otherwise. */
  function Put(es: seq<Entry>, k: string, v: Value): (r: seq<Entry>)
    ensures HasKey(es, k) ==> |r| == |es| && Keys(r) == Keys(es)
    ensures !HasKey(es, k) ==> r == es + [Entry(k, v)]
  {
    var i := Find(es, k);
    if i < 0 then es + [Entry(k, v)] else es[i := Entry(k, v)]
  }

  /** `Find` is determined by where the key first occurs. */
  lemma FindFirst(es: seq<Entry>, k: string, i: int)
    requires 0 <= i < |es| && es[i].key == k
    requires forall j :: 0 <= j < i ==> es[j].key != k
    ensures Find(es, k) == i
  {
  }

  /** After `d[k] = v`, `k` holds `v` and every other key keeps its value. */
  lemma PutGet(es: seq<Entry>, k: string, v: Value, k': string)
    ensures Get(Put(es, k, v), k') == if k' == k then Some(v) else Get(es, k')
  {
    var r := Put(es, k, v);
    var i := Find(es, k);
    var j := Find(es, k');
    if k' == k {
      FindFirst(r, k, if i >= 0 then i else |es|);
    } else if j >= 0 {
      FindFirst(r, k', j);
    } else {
      assert forall m :: 0 <= m < |r| ==> r[m].key != k';
    }
  }

  /** `d[k] = v` keeps the keys of a dictionary distinct. */
  lemma PutDistinct(es: seq<Entry>, k: string, v: Value)
    requires DistinctKeys(es)
    ensures DistinctKeys(Put(es, k, v))
  {
    if !HasKey(es, k) {
      var r := Put(es, k, v);
      forall i, j | 0 <= i < j < |r| ensures Keys(r)[i] != Keys(r)[j] {
        if j == |es| { assert es[i].key != k; } else { assert Keys(es)[i] != Keys(es)[j]; }
      }
    }
  }

  /** A document whose dictionaries, at every level, have distinct keys. */
  ghost predicate WellFormed(v: Value)
    decreases v
  {
    match v
    case List(xs) => forall i :: 0 <= i < |xs| ==> WellFormed(xs[i])
    case Dict(es) => DistinctKeys(es) && forall i :: 0 <= i < |es| ==> WellFormed(es[i].val)
    case _ => true
  }

  /** Python truthiness: `None`, `False`, `0`, `""`, `[]` and `{}` are false. */
  predicate Truthy(v: Value) {
    match v
    case Null => false
    case Bool(b) => b
    case Int(i) => i != 0
    case Str(s) => s != ""
    case List(xs) => xs != []
    case Dict(es) => es != []
  }

  /** `type(v).__name__`. */
  function TypeName(v: Value): (n: string)
    ensures n == "str" <==> v.Str?
  {
    match v
    case Null => "NoneType"
    case Bool(_) => "bool"
    case Int(_) => "int"
    case Str(_) => "str"
    case List(_) => "list"
    case Dict(_) => "dict"
  }

  /** `str(v)`: a string is itself, everything else its `repr`. */
  function StrForm(v: Value): string {
    if v.Str? then v.s else Repr(v)
  }

  /** `repr(v)`, with string literals always in single quotes and unescaped. */
  function Repr(v: Value): (r: string)
    ensures r != ""
    decreases v
  {
    match v
    case Null => "None"
    case Bool(b) => if b then "True" else "False"
    case Int(i) => IntToString(i)
    case Str(s) => "'" + s + "'"
    case List(xs) => "[" + ReprElems(xs) + "]"
    case Dict(es) => "{" + ReprItems(es) + "}"
  }

  function ReprElems(xs: seq<Value>): string
    decreases xs
  {
    if xs == [] then ""
    else if |xs| == 1 then Repr(xs[0])
    else Repr(xs[0]) + ", " + ReprElems(xs[1..])
  }

  function ReprItems(es: seq<Entry>): string
    decreases es
  {
    if es == [] then ""
    else
      var item := "'" + es[0].key + "': " + Repr(es[0].val);
      if |es| == 1 then item else item + ", " + ReprItems(es[1..])
  }

  /** Every truthy value has a non-empty string form. */
  lemma TruthyStrFormNonEmpty(v: Value)
    requires Truthy(v)
    ensures StrForm(v) != ""
  {
  }
}
