/** The JavaScript values the SpaceAPI controller reads and builds: the
    JSON-shaped records the document store returns and the object it
    serializes. Only the parts of the language the controller relies on are
    modelled: `String(x)`, truthiness, own-property reads and writes,
    `Object.entries`, `Object.fromEntries` and `Array.prototype.filter`. */
module JsValue {

  datatype Option<+T> = None | Some(value: T)

  /** A value of JSON shape. `None` of an `Option<Json>` stands for
      `undefined`. Object entries keep their insertion order, which
      `Object.entries` and the serializer expose. JavaScript lists keys that
      look like array indices first, in ascending order; no key the
      controller whitelists or writes looks like one, so the model does not
      reorder them. Numbers are integers: the
      controller only copies them, except timestamps, which are integral. */
  datatype Json =
    | JNull
    | JBool(b: bool)
    | JNum(n: int)
    | JStr(s: string)
    | JArr(items: seq<Json>)
    | JObj(fields: seq<(string, Json)>)

  /** The entries of an object, in insertion order. */
  type Entries = seq<(string, Json)>

  function Keys(es: Entries): (ks: seq<string>)
    ensures |ks| == |es|
    ensures forall i :: 0 <= i < |es| ==> ks[i] == es[i].0
  {
    if es == [] then [] else [es[0].0] + Keys(es[1..])
  }

  /** No key occurs twice: true of the entries of every JavaScript object. */
  predicate DistinctKeys(es: Entries)
  {
    forall i, j :: 0 <= i < j < |es| ==> es[i].0 != es[j].0
  }

  /** `o[k]` for an own property of `o`; `None` is `undefined`. */
  function Lookup(es: Entries, k: string): (r: Option<Json>)
    ensures r.Some? ==> (k, r.value) in es
    ensures r.None? <==> forall i :: 0 <= i < |es| ==> es[i].0 != k
  {
    if es == [] then None
    else if es[0].0 == k then Some(es[0].1)
    else Lookup(es[1..], k)
  }

  /** `v.k`, `v?.k` and the destructuring `({k}) => k` on a value that is
      neither null nor undefined: an own property of an object, `undefined`
      on a boolean, number, string or array. None of the names the
      controller reads is an inherited property, an array index or `length`. */
  function Prop(v: Json, k: string): Option<Json>
  {
    if v.JObj? then Lookup(v.fields, k) else None
  }

  /** `o[k] = v` on a plain object: an existing key keeps its position and
      takes the new value, a new key is appended at the end (as it is in
      JavaScript for every key that does not look like an array index). */
  function SetField(es: Entries, k: string, v: Json): (r: Entries)
    ensures Lookup(es, k).Some? ==> |r| == |es| && forall i :: 0 <= i < |es| ==> r[i].0 == es[i].0
    ensures Lookup(es, k).None? ==> r == es + [(k, v)]
    ensures Lookup(r, k) == Some(v)
    ensures forall k' :: k' != k ==> Lookup(r, k') == Lookup(es, k')
    ensures forall p :: p in r ==> p in es || p == (k, v)
  {
    if es == [] then [(k, v)]
    else if es[0].0 == k then
      var r := [(k, v)] + es[1..];
      assert r[1..] == es[1..];
      r
    else
      var t := SetField(es[1..], k, v);
      var r := [es[0]] + t;
      assert r[1..] == t;
      r
  }

  /** Assigning a property of an object leaves its keys distinct. */
  lemma SetFieldKeepsDistinctKeys(es: Entries, k: string, v: Json)
    requires DistinctKeys(es)
    ensures DistinctKeys(SetField(es, k, v))
  {
    var r := SetField(es, k, v);
    if Lookup(es, k).None? {
      assert r == es + [(k, v)];
      forall i, j | 0 <= i < j < |r| ensures r[i].0 != r[j].0 {
        assert r[i] == es[i];
        if j < |es| {
          assert r[j] == es[j];
        }
      }
    } else {
      SameKeysDistinct(es, r);
    }
  }

  /** Assigning a property twice is assigning the second value: the key keeps
      the position of the first assignment. */
  lemma {:induction false} SetFieldTwice(es: Entries, k: string, v: Json, w: Json)
    ensures SetField(SetField(es, k, v), k, w) == SetField(es, k, w)
  {
    if es != [] && es[0].0 != k {
      SetFieldTwice(es[1..], k, v, w);
      var t := SetField(es[1..], k, v);
      assert ([es[0]] + t)[1..] == t;
    }
  }

  /** `Object.fromEntries(es)`: the pairs assigned in order to a fresh object. */
  function FromEntries(es: Entries): (r: Entries)
    ensures DistinctKeys(r)
    ensures forall p :: p in r ==> p in es
    ensures forall k :: Lookup(es, k).Some? ==> Lookup(r, k).Some?
    decreases |es|
  {
    if es == [] then []
    else
      var init := es[..|es| - 1];
      var last := es[|es| - 1];
      assert es == init + [last];
      var r := SetField(FromEntries(init), last.0, last.1);
      SetFieldKeepsDistinctKeys(FromEntries(init), last.0, last.1);
      assert forall k :: Lookup(es, k).Some? ==> Lookup(r, k).Some? by {
        forall k | Lookup(es, k).Some? ensures Lookup(r, k).Some? {
          LookupAppend(init, [last], k);
        }
      }
      r
  }

  /** On the entries of an object, which never repeat a key, `fromEntries`
      rebuilds the same object. */
  lemma {:induction false} FromEntriesOfDistinct(es: Entries)
    requires DistinctKeys(es)
    ensures FromEntries(es) == es
    decreases |es|
  {
    if es != [] {
      var init := es[..|es| - 1];
      var last := es[|es| - 1];
      assert DistinctKeys(init);
      FromEntriesOfDistinct(init);
      assert Lookup(init, last.0).None?;
      assert SetField(init, last.0, last.1) == init + [last];
      assert init + [last] == es;
    }
  }

  /** Entries with the same keys in the same order as an object's are an object's. */
  lemma SameKeysDistinct(a: Entries, b: Entries)
    requires DistinctKeys(a)
    requires |a| == |b| && forall i :: 0 <= i < |a| ==> a[i].0 == b[i].0
    ensures DistinctKeys(b)
  {
  }

  /** Within an object, a key determines its value. */
  lemma DistinctKeysUnique(es: Entries, k: string, v: Json, w: Json)
    requires DistinctKeys(es) && (k, v) in es && (k, w) in es
    ensures v == w
  {
    var i :| 0 <= i < |es| && es[i] == (k, v);
    var j :| 0 <= j < |es| && es[j] == (k, w);
    assert i == j;
  }

  /** In an object, `o[k]` is the value of the entry whose key is `k`. */
  lemma LookupOfDistinct(es: Entries, k: string, v: Json)
    requires DistinctKeys(es) && (k, v) in es
    ensures Lookup(es, k) == Some(v)
  {
    var i :| 0 <= i < |es| && es[i] == (k, v);
    assert Keys(es)[i] == k;
    DistinctKeysUnique(es, k, v, Lookup(es, k).value);
  }

  /** Reading a key of two concatenated entry lists finds the first one. */
  lemma {:induction false} LookupAppend(a: Entries, b: Entries, k: string)
    ensures Lookup(a + b, k) == if Lookup(a, k).Some? then Lookup(a, k) else Lookup(b, k)
  {
    if a != [] {
      assert (a + b)[1..] == a[1..] + b;
      LookupAppend(a[1..], b, k);
    } else {
      assert a + b == b;
    }
  }

  /** `s.filter(keep)`. */
  function Filter<T(!new)>(s: seq<T>, keep: T -> bool): (r: seq<T>)
    ensures |r| <= |s|
    ensures forall x :: x in r <==> x in s && keep(x)
  {
    if s == [] then []
    else
      assert forall x :: x in s <==> x == s[0] || x in s[1..];
      (if keep(s[0]) then [s[0]] else []) + Filter(s[1..], keep)
  }

  /** `a` is obtained from `b` by leaving out elements, keeping the order. */
  ghost predicate IsSubsequence<T>(a: seq<T>, b: seq<T>)
    decreases |b|
  {
    if b == [] then a == []
    else (a != [] && a[0] == b[0] && IsSubsequence(a[1..], b[1..])) || IsSubsequence(a, b[1..])
  }

  lemma {:induction false} FilterIsSubsequence<T(!new)>(s: seq<T>, keep: T -> bool)
    ensures IsSubsequence(Filter(s, keep), s)
  {
    if s != [] {
      FilterIsSubsequence(s[1..], keep);
      var rest := Filter(s[1..], keep);
      if keep(s[0]) {
        assert ([s[0]] + rest)[0] == s[0] && ([s[0]] + rest)[1..] == rest;
      } else {
        assert [] + rest == rest;
      }
    }
  }

  /** Two filters in a row are one filter on both conditions. */
  lemma {:induction false} FilterFilter<T(!new)>(s: seq<T>, p: T -> bool, q: T -> bool, both: T -> bool)
    requires forall x :: both(x) == (p(x) && q(x))
    ensures Filter(Filter(s, p), q) == Filter(s, both)
  {
    if s != [] {
      FilterFilter(s[1..], p, q, both);
      var rest := Filter(s[1..], p);
      if p(s[0]) {
        assert ([s[0]] + rest)[0] == s[0] && ([s[0]] + rest)[1..] == rest;
      } else {
        assert [] + rest == rest;
      }
    }
  }

  /** A filter that keeps every element changes nothing. */
  lemma {:induction false} FilterKeepingAll<T(!new)>(s: seq<T>, keep: T -> bool)
    requires forall x :: x in s ==> keep(x)
    ensures Filter(s, keep) == s
  {
    if s != [] {
      assert forall x :: x in s[1..] ==> x in s;
      FilterKeepingAll(s[1..], keep);
      assert [s[0]] + s[1..] == s;
    }
  }

  /** Filtering the entries of an object yields the entries of an object. */
  lemma {:induction false} FilterKeepsDistinctKeys(es: Entries, keep: ((string, Json)) -> bool)
    requires DistinctKeys(es)
    ensures DistinctKeys(Filter(es, keep))
  {
    if es != [] {
      FilterKeepsDistinctKeys(es[1..], keep);
      var rest := Filter(es[1..], keep);
      if keep(es[0]) {
        forall j | 0 <= j < |rest| ensures rest[j].0 != es[0].0 {
          assert rest[j] in es[1..];
          var i :| 0 <= i < |es[1..]| && es[1..][i] == rest[j];
          assert es[i + 1] == rest[j];
        }
      }
    }
  }

  /** The decimal digits of a natural number, most significant first. */
  function NatToString(n: nat): (s: string)
    ensures |s| > 0
    decreases n
  {
    var digit := "0123456789"[n % 10];
    if n < 10 then [digit] else NatToString(n / 10) + [digit]
  }

  /** `String(n)` for an integer (below 10^21, where JavaScript switches to
      exponent notation). */
  function IntToString(n: int): (s: string)
    ensures |s| > 0
  {
    if n < 0 then "-" + NatToString(-n) else NatToString(n)
  }

  /** `Object.entries(v)` for a value that is neither null nor undefined: an
      object's own entries, an array's or string's index entries, and none
      for a boolean or a number. */
  function ObjectEntries(v: Json): (es: Entries)
    ensures v.JObj? ==> es == v.fields
    ensures v.JArr? ==> |es| == |v.items|
    ensures v.JStr? ==> |es| == |v.s|
    ensures v.JBool? || v.JNum? || v.JNull? ==> es == []
  {
    match v
    case JObj(fields) => fields
    case JArr(items) => seq(|items|, i requires 0 <= i < |items| => (NatToString(i), items[i]))
    case JStr(s) => seq(|s|, i requires 0 <= i < |s| => (NatToString(i), JStr([s[i]])))
    case _ => []
  }

  /** `String(v)`, also what a template literal inserts. */
  function JsString(v: Json): string
    decreases v, 1, 0
  {
    match v
    case JNull => "null"
    case JBool(b) => if b then "true" else "false"
    case JNum(n) => IntToString(n)
    case JStr(s) => s
    case JArr(items) => Join(items, 0)
    case JObj(_) => "[object Object]"
  }

  /** `items.join(",")` from index `i` on, as `Array.prototype.toString`
      does it: a null element contributes the empty string. */
  function Join(items: seq<Json>, i: nat): string
    requires i <= |items|
    decreases JArr(items), 0, |items| - i
  {
    if i == |items| then ""
    else
      var head := if items[i] == JNull then "" else JsString(items[i]);
      if i + 1 == |items| then head else head + "," + Join(items, i + 1)
  }

  /** `String(x)` where `x` may be undefined. */
  function ToJsString(x: Option<Json>): string
  {
    if x.None? then "undefined" else JsString(x.value)
  }

  /** Whether `x` counts as true in a condition. */
  predicate Truthy(x: Option<Json>)
  {
    x.Some? &&
    match x.value
    case JNull => false
    case JBool(b) => b
    case JNum(n) => n != 0
    case JStr(s) => s != ""
    case _ => true
  }
}
