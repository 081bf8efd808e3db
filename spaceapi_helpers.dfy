/** The four helpers of the SpaceAPI controller: the emptiness test, the
    field whitelist, the timestamp conversion and the URL absolutization. */
module SpaceApiHelpers {
  import opened JsValue

  /** The emptiness test: null and undefined are empty; a value with no own
      enumerable keys is empty when its string form is empty; anything with
      keys is not. With no trimming and no special case for objects, exactly
      undefined, null, the empty string and the empty array are empty:
      `false`, `0`, whitespace and `{}` are not. */
  function IsEmpty(x: Option<Json>): (r: bool)
    ensures r <==> x == None || x == Some(JNull) || x == Some(JStr("")) || x == Some(JArr([]))
  {
    if x.None? || x.value == JNull then true
    else if |ObjectEntries(x.value)| == 0 then |JsString(x.value)| == 0
    else false
  }

  /** The field whitelist: the entries of `obj`, filtered to the
      whitelisted keys, then to the values that are not empty, and
      reassembled into an object. Listing the entries of null or undefined
      throws. Every kept entry is an entry of `obj` with a whitelisted key
      and a non-empty value, and every such key is kept. */
  function PickFields(fields: seq<string>, obj: Json): (r: Entries)
    requires obj != JNull
    ensures DistinctKeys(r)
    ensures forall p :: p in r ==> p in ObjectEntries(obj) && p.0 in fields && !IsEmpty(Some(p.1))
    ensures forall p :: p in ObjectEntries(obj) && p.0 in fields && !IsEmpty(Some(p.1)) ==>
      Lookup(r, p.0).Some?
  {
    var byKey := Filter(ObjectEntries(obj), (p: (string, Json)) => p.0 in fields);
    var kept := Filter(byKey, (p: (string, Json)) => !IsEmpty(Some(p.1)));
    assert forall p :: p in kept ==> Lookup(kept, p.0).Some?;
    FromEntries(kept)
  }

  /** On an object, `pickFields` reads a key exactly when the key is
      whitelisted and the object's value for it is not empty, and then
      gives that value unchanged. */
  lemma PickFieldsLookup(fields: seq<string>, obj: Json, k: string)
    requires obj != JNull && DistinctKeys(ObjectEntries(obj))
    ensures Lookup(PickFields(fields, obj), k) ==
      if k in fields && !IsEmpty(Lookup(ObjectEntries(obj), k)) then Lookup(ObjectEntries(obj), k) else None
  {
    var es := ObjectEntries(obj);
    var r := PickFields(fields, obj);
    if k in fields && !IsEmpty(Lookup(es, k)) {
      var v := Lookup(es, k).value;
      assert (k, v) in es;
      var w := Lookup(r, k).value;
      DistinctKeysUnique(es, k, v, w);
    } else if Lookup(r, k).Some? {
      var w := Lookup(r, k).value;
      LookupOfDistinct(es, k, w);
    }
  }

  /** `pickFields` never yields a key outside the whitelist. */
  lemma PickFieldsOmits(fields: seq<string>, obj: Json, k: string)
    requires obj != JNull && k !in fields
    ensures Lookup(PickFields(fields, obj), k).None?
  {
  }

  /** `pickFields` keeps the entries it keeps in the order of `obj`. */
  lemma PickFieldsKeepsOrder(fields: seq<string>, obj: Json)
    requires obj != JNull && DistinctKeys(ObjectEntries(obj))
    ensures IsSubsequence(PickFields(fields, obj), ObjectEntries(obj))
  {
    var es := ObjectEntries(obj);
    var inFields := (p: (string, Json)) => p.0 in fields;
    var nonEmpty := (p: (string, Json)) => !IsEmpty(Some(p.1));
    var kept := Filter(Filter(es, inFields), nonEmpty);
    FilterKeepsDistinctKeys(es, inFields);
    FilterKeepsDistinctKeys(Filter(es, inFields), nonEmpty);
    FromEntriesOfDistinct(kept);
    var both := (p: (string, Json)) => inFields(p) && nonEmpty(p);
    FilterFilter(es, inFields, nonEmpty, both);
    FilterIsSubsequence(es, both);
  }

  /** Whitelisting twice is whitelisting once. */
  lemma PickFieldsIdempotent(fields: seq<string>, obj: Json)
    requires obj != JNull
    ensures PickFields(fields, JObj(PickFields(fields, obj))) == PickFields(fields, obj)
  {
    var r := PickFields(fields, obj);
    var inFields := (p: (string, Json)) => p.0 in fields;
    var nonEmpty := (p: (string, Json)) => !IsEmpty(Some(p.1));
    FilterKeepingAll(r, inFields);
    FilterKeepingAll(r, nonEmpty);
    FromEntriesOfDistinct(r);
  }

  /** The timestamp conversion: the date's milliseconds since the epoch,
      divided by a thousand and rounded down. `millis(text)` is the
      milliseconds the date parser gives for `text`, None for an invalid
      date, whose NaN the serializer writes as null. The result is the floor
      of the seconds, also before 1970. */
  function DateTimeToUnixtime(text: string, millis: string -> Option<int>): (r: Json)
    ensures millis(text).None? ==> r == JNull
    ensures millis(text).Some? ==>
      r.JNum? && r.n * 1000 <= millis(text).value < r.n * 1000 + 1000
  {
    match millis(text)
    case None => JNull
    case Some(ms) => JNum(ms / 1000)
  }

  /** The URL absolutization: a truthy URL is appended, in its string form,
      to the request origin; any other URL gives null. */
  function AbsoluteURL(origin: string, url: Option<Json>): (r: Json)
    ensures r.JStr? <==> Truthy(url)
    ensures !r.JStr? ==> r == JNull
    ensures r.JStr? ==> |origin| <= |r.s| && r.s[..|origin|] == origin && r.s[|origin|..] == ToJsString(url)
    ensures url.Some? && url.value.JStr? && url.value.s != "" ==> r == JStr(origin + url.value.s)
  {
    if Truthy(url) then JStr(origin + ToJsString(url)) else JNull
  }
}
