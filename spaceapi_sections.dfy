/** The sections of the SpaceAPI document as functions of what the controller
    reads: the whitelists, the conditions under which the controller does
    not throw, and the value each section takes, with what those values
    guarantee. */
module SpaceApiSections {
  import opened JsValue
  import opened SpaceApiHelpers

  const LocationFields: seq<string> := ["address", "lat", "lon", "timezone", "country_code", "hint"]
  const AreaFields: seq<string> := ["name", "description", "square_meters"]
  const SpacefedFields: seq<string> := ["spacenet", "spacesaml"]
  const StateFields: seq<string> := ["open", "trigger_person", "message"]
  const EventFields: seq<string> := ["name", "type", "extra"]
  const ContactFields: seq<string> := [
    "phone", "sip", "irc", "twitter", "mastodon", "facebook", "identica", "foursquare",
    "email", "ml", "xmpp", "issue_mail", "gopher", "matrix", "mumble"]
  const KeymasterFields: seq<string> := ["name", "irc_nick", "phone", "email", "twitter", "xmpp", "mastodon", "matrix"]
  const FeedSlots: seq<string> := ["blog", "wiki", "calendar", "flickr"]
  const FeedFields: seq<string> := ["type", "url"]

  /** Neither null nor undefined: reading a property of it does not throw. */
  predicate NonNullish(x: Option<Json>)
  {
    x.Some? && x.value != JNull
  }

  /** Guarded by a test that `x` is not empty, mapping over `x` does not throw:
      either `x` is empty, or it is an array (nothing else has `map`) whose
      elements are not null (both callbacks read a property of their
      element). */
  predicate MapsSafely(x: Option<Json>)
  {
    IsEmpty(x) || (x.Some? && x.value.JArr? && forall i :: 0 <= i < |x.value.items| ==> x.value.items[i] != JNull)
  }

  /** Mapping the areas of a non-empty location does not throw. */
  predicate LocationReadable(hackspace: Json)
  {
    var location := Prop(hackspace, "location");
    !IsEmpty(location) ==> MapsSafely(Prop(location.value, "areas"))
  }

  /** Mapping the keymasters of a non-empty contact does not throw. */
  predicate ContactReadable(hackspace: Json)
  {
    var contact := Prop(hackspace, "contact");
    !IsEmpty(contact) ==> MapsSafely(Prop(contact.value, "keymasters"))
  }

  /** Reading the `url` of both icons of a non-empty state does not throw. */
  predicate IconReadable(state: Json)
  {
    var icon := Prop(state, "icon");
    !IsEmpty(Some(state)) && !IsEmpty(icon) ==>
      NonNullish(Prop(icon.value, "open")) && NonNullish(Prop(icon.value, "closed"))
  }

  /** The conditions under which the controller action does not throw: the
      hackspace has a location and a logo (both are read unconditionally),
      every list it maps is an array of non-null elements, the icons of the
      state can be read, and no event is null. */
  predicate Readable(hackspace: Json, state: Json, events: seq<Json>)
  {
    && NonNullish(Prop(hackspace, "location"))
    && NonNullish(Prop(hackspace, "logo"))
    && LocationReadable(hackspace)
    && MapsSafely(Prop(hackspace, "cam"))
    && IconReadable(state)
    && (forall i :: 0 <= i < |events| ==> events[i] != JNull)
    && ContactReadable(hackspace)
    && MapsSafely(Prop(hackspace, "projects"))
  }

  /** The value null, or a string that begins with `origin`. */
  predicate NullOrUnder(origin: string, x: Json)
  {
    x == JNull || (x.JStr? && |origin| <= |x.s| && x.s[..|origin|] == origin)
  }

  /** On an object record, the entries `out` hold each whitelisted key
      exactly when the record's value for it is not empty, with that value. */
  predicate Whitelisted(out: Entries, fields: seq<string>, record: Json)
  {
    forall k :: k in fields ==> Lookup(out, k) == (if IsEmpty(Prop(record, k)) then None else Prop(record, k))
  }

  /** Every key of `es` is one of `names`. */
  predicate KeysWithin(es: Entries, names: seq<string>)
  {
    forall p :: p in es ==> p.0 in names
  }

  /** What `pickFields` keeps of an object record is `Whitelisted`. */
  lemma PickFieldsWhitelisted(fields: seq<string>, record: Json)
    requires record.JObj? && DistinctKeys(record.fields)
    ensures Whitelisted(PickFields(fields, record), fields, record)
  {
    forall k | k in fields
      ensures Lookup(PickFields(fields, record), k) == (if IsEmpty(Prop(record, k)) then None else Prop(record, k))
    {
      PickFieldsLookup(fields, record, k);
    }
  }

  /** Entries whose keys all lie in `fields`, followed by entries whose keys
      all lie outside it, as when the controller adds `areas`, `lastchange`,
      `icon`, `keymasters` or `timestamp` to a whitelisted object: the keys
      stay distinct, a whitelisted key reads as in the first part and any
      other as in the second. */
  lemma AppendOutside(picked: Entries, fields: seq<string>, extra: Entries)
    requires DistinctKeys(picked) && DistinctKeys(extra)
    requires forall p :: p in picked ==> p.0 in fields
    requires forall i :: 0 <= i < |extra| ==> extra[i].0 !in fields
    ensures DistinctKeys(picked + extra)
    ensures forall p :: p in picked + extra ==> p.0 in fields || p in extra
    ensures forall k :: k in fields ==> Lookup(picked + extra, k) == Lookup(picked, k)
    ensures forall k :: k !in fields ==> Lookup(picked + extra, k) == Lookup(extra, k)
  {
    var all := picked + extra;
    forall i, j | 0 <= i < j < |all| ensures all[i].0 != all[j].0 {
      if i < |picked| && j >= |picked| {
        assert picked[i] in picked;
      }
    }
    forall k ensures Lookup(all, k) == if k in fields then Lookup(picked, k) else Lookup(extra, k) {
      LookupAppend(picked, extra, k);
    }
  }

  /** Entries added after a whitelisted object under keys outside the
      whitelist leave it whitelisted. */
  lemma AppendOutsideWhitelisted(picked: Entries, fields: seq<string>, extra: Entries, record: Json)
    requires Whitelisted(picked, fields, record)
    requires forall i :: 0 <= i < |extra| ==> extra[i].0 !in fields
    ensures Whitelisted(picked + extra, fields, record)
  {
    forall k | k in fields ensures Lookup(picked + extra, k) == Lookup(picked, k) {
      LookupAppend(picked, extra, k);
    }
  }

  /** None of the keys the controller adds to a whitelisted object is in
      that object's whitelist. */
  lemma AddedKeysOutsideWhitelists()
    ensures "areas" !in LocationFields
    ensures "lastchange" !in StateFields && "icon" !in StateFields
    ensures "timestamp" !in EventFields
    ensures "keymasters" !in ContactFields
  {
  }

  /** The whitelist mapped over a list, as for the areas and the
      keymasters: one whitelisted object per element, in the same order. */
  function PickEach(fields: seq<string>, items: seq<Json>): (r: seq<Json>)
    requires forall i :: 0 <= i < |items| ==> items[i] != JNull
    ensures |r| == |items|
    ensures forall i :: 0 <= i < |items| ==> r[i] == JObj(PickFields(fields, items[i]))
  {
    if items == [] then []
    else [JObj(PickFields(fields, items[0]))] + PickEach(fields, items[1..])
  }

  /** The `url` of each element of a list, as for the cameras and the
      projects, in the same order; reading a property of null throws, and a
      missing `url` is serialized as null inside an array. */
  function Urls(items: seq<Json>): (r: seq<Json>)
    requires forall i :: 0 <= i < |items| ==> items[i] != JNull
    ensures |r| == |items|
    ensures forall i :: 0 <= i < |items| ==>
      r[i] == (if Prop(items[i], "url").Some? then Prop(items[i], "url").value else JNull)
  {
    if items == [] then []
    else
      var url := Prop(items[0], "url");
      [if url.Some? then url.value else JNull] + Urls(items[1..])
  }

  /** One event of the list: its whitelisted fields spread into a new
      object, then `timestamp` from `createdAt`. The whitelist never holds
      `timestamp`, so it is added last. */
  function EventEntry(event: Json, millis: string -> Option<int>): (r: Entries)
    requires event != JNull
    ensures r == PickFields(EventFields, event) +
      [("timestamp", DateTimeToUnixtime(ToJsString(Prop(event, "createdAt")), millis))]
  {
    var picked := PickFields(EventFields, event);
    var stamp := DateTimeToUnixtime(ToJsString(Prop(event, "createdAt")), millis);
    AddedKeysOutsideWhitelists();
    PickFieldsOmits(EventFields, event, "timestamp");
    SetField(picked, "timestamp", stamp)
  }

  /** An event entry has distinct keys and ends with the event's creation
      time. */
  lemma EventEntryShape(event: Json, millis: string -> Option<int>)
    requires event != JNull
    ensures var e := EventEntry(event, millis);
      && DistinctKeys(e)
      && |e| > 0 && e[|e| - 1] == ("timestamp", DateTimeToUnixtime(ToJsString(Prop(event, "createdAt")), millis))
  {
    var picked := PickFields(EventFields, event);
    var stamp := [("timestamp", DateTimeToUnixtime(ToJsString(Prop(event, "createdAt")), millis))];
    AddedKeysOutsideWhitelists();
    AppendOutside(picked, EventFields, stamp);
  }

  /** For an event that is an object record, the entry holds exactly the
      non-empty whitelisted fields, unchanged. */
  lemma EventEntryWhitelisted(event: Json, millis: string -> Option<int>)
    requires event.JObj? && DistinctKeys(event.fields)
    ensures Whitelisted(EventEntry(event, millis), EventFields, event)
  {
    var picked := PickFields(EventFields, event);
    var stamp := [("timestamp", DateTimeToUnixtime(ToJsString(Prop(event, "createdAt")), millis))];
    AddedKeysOutsideWhitelists();
    AppendOutside(picked, EventFields, stamp);
    PickFieldsWhitelisted(EventFields, event);
  }

  /** One entry per event, in the order the store gave. */
  function EventEntries(events: seq<Json>, millis: string -> Option<int>): (r: seq<Json>)
    requires forall i :: 0 <= i < |events| ==> events[i] != JNull
    ensures |r| == |events|
    ensures forall i :: 0 <= i < |events| ==> r[i] == JObj(EventEntry(events[i], millis))
  {
    if events == [] then []
    else [JObj(EventEntry(events[0], millis))] + EventEntries(events[1..], millis)
  }

  /** The whitelist applied to the value of each entry: the same keys in
      the same order, each value whitelisted. */
  function PickEachValue(fields: seq<string>, es: Entries): (r: Entries)
    requires forall i :: 0 <= i < |es| ==> es[i].1 != JNull
    ensures |r| == |es|
    ensures forall i :: 0 <= i < |es| ==> r[i].0 == es[i].0 && r[i].1 == JObj(PickFields(fields, es[i].1))
    ensures forall i :: 0 <= i < |r| ==> r[i].1.JObj? && KeysWithin(r[i].1.fields, fields)
  {
    seq(|es|, i requires 0 <= i < |es| => (es[i].0, JObj(PickFields(fields, es[i].1))))
  }

  /** Reading a key of the mapped entries reads the original value, whitelisted. */
  lemma {:induction false} PickEachValueLookup(fields: seq<string>, es: Entries, k: string)
    requires forall i :: 0 <= i < |es| ==> es[i].1 != JNull
    ensures Lookup(PickEachValue(fields, es), k) ==
      if Lookup(es, k).Some? then Some(JObj(PickFields(fields, Lookup(es, k).value))) else None
  {
    if es != [] {
      var r := PickEachValue(fields, es);
      assert r[1..] == PickEachValue(fields, es[1..]);
      PickEachValueLookup(fields, es[1..], k);
    }
  }

  /** The `location` section: present when the hackspace's location is not
      empty, then its whitelisted fields followed, when the location has
      areas, by `areas` with each area whitelisted. */
  function LocationSection(hackspace: Json): (s: Option<Json>)
    requires LocationReadable(hackspace)
    ensures s.Some? <==> !IsEmpty(Prop(hackspace, "location"))
  {
    var location := Prop(hackspace, "location");
    if IsEmpty(location) then None
    else
      var areas := Prop(location.value, "areas");
      Some(JObj(PickFields(LocationFields, location.value) +
        if IsEmpty(areas) then [] else [("areas", JArr(PickEach(AreaFields, areas.value.items)))]))
  }

  /** A present location is an object with distinct keys, each of them a
      whitelisted name or `areas`; it has `areas` exactly when the
      hackspace's areas are not empty, then one whitelisted area per area in
      the same order; on an object record every whitelisted field is
      passed through unchanged when it is not empty and left out when it is. */
  lemma LocationSectionShape(hackspace: Json)
    requires LocationReadable(hackspace) && !IsEmpty(Prop(hackspace, "location"))
    ensures var location := Prop(hackspace, "location").value;
      var areas := Prop(location, "areas");
      var l := LocationSection(hackspace).value;
      && l.JObj? && DistinctKeys(l.fields)
      && (forall p :: p in l.fields ==> p.0 in LocationFields || p.0 == "areas")
      && Lookup(l.fields, "areas") ==
           (if IsEmpty(areas) then None else Some(JArr(PickEach(AreaFields, areas.value.items))))
      && (location.JObj? && DistinctKeys(location.fields) ==> Whitelisted(l.fields, LocationFields, location))
  {
    var location := Prop(hackspace, "location").value;
    var areas := Prop(location, "areas");
    var picked := PickFields(LocationFields, location);
    var extra: Entries := if IsEmpty(areas) then [] else [("areas", JArr(PickEach(AreaFields, areas.value.items)))];
    assert LocationSection(hackspace) == Some(JObj(picked + extra));
    AddedKeysOutsideWhitelists();
    AppendOutside(picked, LocationFields, extra);
    if location.JObj? && DistinctKeys(location.fields) {
      PickFieldsWhitelisted(LocationFields, location);
    }
  }

  /** The `spacefed` section: the whitelisted spacefed, when it is not empty. */
  function SpacefedSection(hackspace: Json): (s: Option<Json>)
    ensures s.Some? <==> !IsEmpty(Prop(hackspace, "spacefed"))
    ensures s.Some? ==>
      s.value.JObj? && DistinctKeys(s.value.fields) && forall p :: p in s.value.fields ==> p.0 in SpacefedFields
  {
    var spacefed := Prop(hackspace, "spacefed");
    if IsEmpty(spacefed) then None else Some(JObj(PickFields(SpacefedFields, spacefed.value)))
  }

  /** On an object record, `spacenet` and `spacesaml` are passed through
      unchanged when not empty and left out when empty. */
  lemma SpacefedSectionWhitelisted(hackspace: Json)
    requires !IsEmpty(Prop(hackspace, "spacefed"))
    requires var spacefed := Prop(hackspace, "spacefed").value; spacefed.JObj? && DistinctKeys(spacefed.fields)
    ensures Whitelisted(SpacefedSection(hackspace).value.fields, SpacefedFields, Prop(hackspace, "spacefed").value)
  {
    PickFieldsWhitelisted(SpacefedFields, Prop(hackspace, "spacefed").value);
  }

  /** The `cam` section: the URL of each camera, in order, when the list of
      cameras is not empty. */
  function CamSection(hackspace: Json): (s: Option<Json>)
    requires MapsSafely(Prop(hackspace, "cam"))
    ensures s.Some? <==> !IsEmpty(Prop(hackspace, "cam"))
    ensures s.Some? ==> s.value.JArr? && |s.value.items| == |Prop(hackspace, "cam").value.items|
    ensures s.Some? ==> var items := Prop(hackspace, "cam").value.items;
      forall i :: 0 <= i < |items| ==>
        s.value.items[i] == (if Prop(items[i], "url").Some? then Prop(items[i], "url").value else JNull)
  {
    var cam := Prop(hackspace, "cam");
    if IsEmpty(cam) then None else Some(JArr(Urls(cam.value.items)))
  }

  /** The icon pair: each icon's URL made absolute. */
  function Icons(origin: string, icon: Json): (r: Entries)
    requires NonNullish(Prop(icon, "open")) && NonNullish(Prop(icon, "closed"))
    ensures |r| == 2 && r[0].0 == "open" && r[1].0 == "closed"
    ensures r[0].1 == AbsoluteURL(origin, Prop(Prop(icon, "open").value, "url"))
    ensures r[1].1 == AbsoluteURL(origin, Prop(Prop(icon, "closed").value, "url"))
    ensures NullOrUnder(origin, r[0].1) && NullOrUnder(origin, r[1].1)
  {
    [("open", AbsoluteURL(origin, Prop(Prop(icon, "open").value, "url"))),
     ("closed", AbsoluteURL(origin, Prop(Prop(icon, "closed").value, "url")))]
  }

  /** What the controller adds to the whitelisted state: `lastchange` from
      `updatedAt`, then `icon` when the record's icon is not empty. */
  function StateAdditions(state: Json, origin: string, millis: string -> Option<int>): (r: Entries)
    requires IconReadable(state) && !IsEmpty(Some(state))
    ensures DistinctKeys(r)
    ensures forall i :: 0 <= i < |r| ==> r[i].0 !in StateFields
    ensures |r| > 0 && r[0] == ("lastchange", DateTimeToUnixtime(ToJsString(Prop(state, "updatedAt")), millis))
    ensures Lookup(r, "icon") ==
      if IsEmpty(Prop(state, "icon")) then None else Some(JObj(Icons(origin, Prop(state, "icon").value)))
  {
    var icon := Prop(state, "icon");
    var first := [("lastchange", DateTimeToUnixtime(ToJsString(Prop(state, "updatedAt")), millis))];
    var rest: Entries := if IsEmpty(icon) then [] else [("icon", JObj(Icons(origin, icon.value)))];
    AddedKeysOutsideWhitelists();
    LookupAppend(first, rest, "icon");
    first + rest
  }

  /** The `state` section: present when the state record is not empty, then
      its whitelisted fields, `lastchange` from `updatedAt`, and `icon` when
      the record's icon is not empty. */
  function StateSection(state: Json, origin: string, millis: string -> Option<int>): (s: Option<Json>)
    requires IconReadable(state)
    ensures s.Some? <==> !IsEmpty(Some(state))
  {
    if IsEmpty(Some(state)) then None
    else
      Some(JObj(PickFields(StateFields, state) + StateAdditions(state, origin, millis)))
  }

  /** A present state is an object with distinct keys, each a whitelisted
      name, `lastchange` or `icon`. */
  lemma StateSectionShape(state: Json, origin: string, millis: string -> Option<int>)
    requires IconReadable(state) && !IsEmpty(Some(state))
    ensures var s := StateSection(state, origin, millis).value;
      && s.JObj? && DistinctKeys(s.fields)
      && (forall p :: p in s.fields ==> p.0 in StateFields || p.0 == "lastchange" || p.0 == "icon")
  {
    var picked := PickFields(StateFields, state);
    var extra := StateAdditions(state, origin, millis);
    assert StateSection(state, origin, millis) == Some(JObj(picked + extra));
    AddedKeysOutsideWhitelists();
    AppendOutside(picked, StateFields, extra);
    assert forall p :: p in extra ==> p.0 == "lastchange" || p.0 == "icon";
  }

  /** `lastchange` is always in a present state, and is the floor of the
      update time in seconds or null. `icon` is there exactly when the
      record's icon is not empty, and is then the pair of absolute icon
      URLs. */
  lemma StateSectionAdditions(state: Json, origin: string, millis: string -> Option<int>)
    requires IconReadable(state) && !IsEmpty(Some(state))
    ensures var s := StateSection(state, origin, millis).value;
      var icon := Prop(state, "icon");
      && s.JObj?
      && Lookup(s.fields, "lastchange") == Some(DateTimeToUnixtime(ToJsString(Prop(state, "updatedAt")), millis))
      && Lookup(s.fields, "icon") == if IsEmpty(icon) then None else Some(JObj(Icons(origin, icon.value)))
  {
    var picked := PickFields(StateFields, state);
    var extra := StateAdditions(state, origin, millis);
    assert StateSection(state, origin, millis) == Some(JObj(picked + extra));
    AddedKeysOutsideWhitelists();
    PickFieldsOmits(StateFields, state, "lastchange");
    PickFieldsOmits(StateFields, state, "icon");
    LookupAppend(picked, extra, "lastchange");
    LookupAppend(picked, extra, "icon");
  }

  /** On an object record, `open`, `trigger_person` and `message` are passed
      through unchanged when not empty, whatever their type, and left out
      when empty. */
  lemma StateSectionWhitelisted(state: Json, origin: string, millis: string -> Option<int>)
    requires IconReadable(state) && !IsEmpty(Some(state))
    requires state.JObj? && DistinctKeys(state.fields)
    ensures Whitelisted(StateSection(state, origin, millis).value.fields, StateFields, state)
  {
    var picked := PickFields(StateFields, state);
    var extra := StateAdditions(state, origin, millis);
    assert StateSection(state, origin, millis) == Some(JObj(picked + extra));
    PickFieldsWhitelisted(StateFields, state);
    AppendOutsideWhitelisted(picked, StateFields, extra, state);
  }

  /** The `events` section: one entry per event, when there are events. */
  function EventsSection(events: seq<Json>, millis: string -> Option<int>): (s: Option<Json>)
    requires forall i :: 0 <= i < |events| ==> events[i] != JNull
    ensures s.Some? <==> |events| > 0
    ensures s.Some? ==> s.value.JArr? && |s.value.items| == |events|
    ensures s.Some? ==> forall i :: 0 <= i < |events| ==> s.value.items[i] == JObj(EventEntry(events[i], millis))
  {
    if IsEmpty(Some(JArr(events))) then None else Some(JArr(EventEntries(events, millis)))
  }

  /** The `contact` section: present when the hackspace's contact is not
      empty, then its whitelisted channels followed, when there are
      keymasters, by `keymasters` with each keymaster whitelisted. */
  function ContactSection(hackspace: Json): (s: Option<Json>)
    requires ContactReadable(hackspace)
    ensures s.Some? <==> !IsEmpty(Prop(hackspace, "contact"))
  {
    var contact := Prop(hackspace, "contact");
    if IsEmpty(contact) then None
    else
      var keymasters := Prop(contact.value, "keymasters");
      Some(JObj(PickFields(ContactFields, contact.value) +
        if IsEmpty(keymasters) then [] else [("keymasters", JArr(PickEach(KeymasterFields, keymasters.value.items)))]))
  }

  /** A present contact is an object with distinct keys, each a whitelisted
      channel or `keymasters`; `keymasters` is there exactly when the
      hackspace's keymasters are not empty, then one whitelisted keymaster
      per keymaster in the same order; on an object record every
      whitelisted channel is passed through when not empty. */
  lemma ContactSectionShape(hackspace: Json)
    requires ContactReadable(hackspace) && !IsEmpty(Prop(hackspace, "contact"))
    ensures var contact := Prop(hackspace, "contact").value;
      var keymasters := Prop(contact, "keymasters");
      var c := ContactSection(hackspace).value;
      && c.JObj? && DistinctKeys(c.fields)
      && (forall p :: p in c.fields ==> p.0 in ContactFields || p.0 == "keymasters")
      && Lookup(c.fields, "keymasters") ==
           (if IsEmpty(keymasters) then None else Some(JArr(PickEach(KeymasterFields, keymasters.value.items))))
      && (contact.JObj? && DistinctKeys(contact.fields) ==> Whitelisted(c.fields, ContactFields, contact))
  {
    var contact := Prop(hackspace, "contact").value;
    var keymasters := Prop(contact, "keymasters");
    var picked := PickFields(ContactFields, contact);
    var extra: Entries :=
      if IsEmpty(keymasters) then [] else [("keymasters", JArr(PickEach(KeymasterFields, keymasters.value.items)))];
    assert ContactSection(hackspace) == Some(JObj(picked + extra));
    AddedKeysOutsideWhitelists();
    AppendOutside(picked, ContactFields, extra);
    if contact.JObj? && DistinctKeys(contact.fields) {
      PickFieldsWhitelisted(ContactFields, contact);
    }
  }

  /** The `feeds` section: present when the hackspace's feeds are not
      empty, then each non-empty feed slot, whitelisted. */
  function FeedsSection(hackspace: Json): (s: Option<Json>)
    ensures s.Some? <==> !IsEmpty(Prop(hackspace, "feeds"))
  {
    var feeds := Prop(hackspace, "feeds");
    if IsEmpty(feeds) then None
    else
      var slots := PickFields(FeedSlots, feeds.value);
      assert forall i :: 0 <= i < |slots| ==> slots[i].1 != JNull by {
        forall i | 0 <= i < |slots| ensures slots[i].1 != JNull {
          assert slots[i] in slots;
        }
      }
      Some(JObj(PickEachValue(FeedFields, slots)))
  }

  /** A present feeds object has distinct keys, each a feed slot. */
  lemma FeedsSectionShape(hackspace: Json)
    requires !IsEmpty(Prop(hackspace, "feeds"))
    ensures var f := FeedsSection(hackspace).value;
      && f.JObj? && DistinctKeys(f.fields)
      && (forall i :: 0 <= i < |f.fields| ==> f.fields[i].0 in FeedSlots)
  {
    var slots := PickFields(FeedSlots, Prop(hackspace, "feeds").value);
    forall i | 0 <= i < |slots| ensures slots[i].1 != JNull {
      assert slots[i] in slots;
    }
    var fields := FeedsSection(hackspace).value.fields;
    assert fields == PickEachValue(FeedFields, slots);
    SameKeysDistinct(slots, fields);
    forall i | 0 <= i < |fields| ensures fields[i].0 in FeedSlots {
      assert slots[i] in slots;
    }
  }

  /** Each feed of a present feeds object is an object holding only `type`
      and `url`. */
  lemma FeedsSectionFeeds(hackspace: Json)
    requires !IsEmpty(Prop(hackspace, "feeds"))
    ensures var f := FeedsSection(hackspace).value;
      && f.JObj?
      && (forall i :: 0 <= i < |f.fields| ==> f.fields[i].1.JObj? && KeysWithin(f.fields[i].1.fields, FeedFields))
  {
  }

  /** On an object record, a feed slot is present exactly when the record's
      feed for it is not empty, and then holds that feed whitelisted. */
  lemma FeedsSectionLookup(hackspace: Json, k: string)
    requires !IsEmpty(Prop(hackspace, "feeds"))
    requires var feeds := Prop(hackspace, "feeds").value; feeds.JObj? && DistinctKeys(feeds.fields)
    ensures var feeds := Prop(hackspace, "feeds").value;
      Lookup(FeedsSection(hackspace).value.fields, k) ==
        if k in FeedSlots && !IsEmpty(Prop(feeds, k)) then Some(JObj(PickFields(FeedFields, Prop(feeds, k).value)))
        else None
  {
    var feeds := Prop(hackspace, "feeds").value;
    var slots := PickFields(FeedSlots, feeds);
    assert forall i :: 0 <= i < |slots| ==> slots[i] in slots;
    PickEachValueLookup(FeedFields, slots, k);
    PickFieldsLookup(FeedSlots, feeds, k);
  }

  /** The `projects` section: the URL of each project, in order, when the
      list of projects is not empty. */
  function ProjectsSection(hackspace: Json): (s: Option<Json>)
    requires MapsSafely(Prop(hackspace, "projects"))
    ensures s.Some? <==> !IsEmpty(Prop(hackspace, "projects"))
    ensures s.Some? ==> s.value.JArr? && |s.value.items| == |Prop(hackspace, "projects").value.items|
    ensures s.Some? ==> var items := Prop(hackspace, "projects").value.items;
      forall i :: 0 <= i < |items| ==>
        s.value.items[i] == (if Prop(items[i], "url").Some? then Prop(items[i], "url").value else JNull)
  {
    var projects := Prop(hackspace, "projects");
    if IsEmpty(projects) then None else Some(JArr(Urls(projects.value.items)))
  }
}
