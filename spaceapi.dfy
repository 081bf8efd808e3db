/** The controller action behind the SpaceAPI endpoint: it starts from an
    empty object and assigns the sections one by one, each guarded one only
    when what it is built from is not empty, and writes nested additions
    (`areas`, `lastchange`, `icon`, `keymasters`) into the object it has
    just assigned. What the document store returns comes in as parameters. */
module SpaceApi {
  import opened JsValue
  import opened SpaceApiHelpers
  import opened SpaceApiSections
  import opened SpaceApiDocument

  /** The location block: the whitelisted location, then, when the location
      has areas, the whitelisted areas added to that same object. */
  method AssignLocation(result: Entries, hackspace: Json) returns (r: Entries)
    requires LocationReadable(hackspace)
    ensures r == Assign(result, "location", LocationSection(hackspace))
  {
    r := result;
    var location := Prop(hackspace, "location");
    if !IsEmpty(location) {
      var picked := PickFields(LocationFields, location.value);
      r := SetField(r, "location", JObj(picked));
      var areas := Prop(location.value, "areas");
      if !IsEmpty(areas) {
        var current := Lookup(r, "location").value.fields;
        assert current == picked;
        var mapped := JArr(PickEach(AreaFields, areas.value.items));
        var withAreas := SetField(current, "areas", mapped);
        r := SetField(r, "location", JObj(withAreas));
        AddedKeysOutsideWhitelists();
        PickFieldsOmits(LocationFields, location.value, "areas");
        assert withAreas == picked + [("areas", mapped)];
        SetFieldTwice(result, "location", JObj(picked), JObj(withAreas));
      } else {
        assert picked + [] == picked;
      }
    }
  }

  /** The spacefed block. */
  method AssignSpacefed(result: Entries, hackspace: Json) returns (r: Entries)
    ensures r == Assign(result, "spacefed", SpacefedSection(hackspace))
  {
    r := result;
    var spacefed := Prop(hackspace, "spacefed");
    if !IsEmpty(spacefed) {
      r := SetField(r, "spacefed", JObj(PickFields(SpacefedFields, spacefed.value)));
    }
  }

  /** The cam block: the URL of each camera. */
  method AssignCam(result: Entries, hackspace: Json) returns (r: Entries)
    requires MapsSafely(Prop(hackspace, "cam"))
    ensures r == Assign(result, "cam", CamSection(hackspace))
  {
    r := result;
    var cam := Prop(hackspace, "cam");
    if !IsEmpty(cam) {
      r := SetField(r, "cam", JArr(Urls(cam.value.items)));
    }
  }

  /** The state block: the whitelisted state, then `lastchange` and, when the
      record has an icon, `icon` added to that same object. */
  method AssignState(result: Entries, state: Json, origin: string, millis: string -> Option<int>)
    returns (r: Entries)
    requires IconReadable(state)
    ensures r == Assign(result, "state", StateSection(state, origin, millis))
  {
    r := result;
    if !IsEmpty(Some(state)) {
      var picked := PickFields(StateFields, state);
      r := SetField(r, "state", JObj(picked));
      var lastchange := DateTimeToUnixtime(ToJsString(Prop(state, "updatedAt")), millis);
      var current := Lookup(r, "state").value.fields;
      assert current == picked;
      var timed := SetField(current, "lastchange", lastchange);
      r := SetField(r, "state", JObj(timed));
      AddedKeysOutsideWhitelists();
      PickFieldsOmits(StateFields, state, "lastchange");
      var lc := [("lastchange", lastchange)];
      assert timed == picked + lc;
      SetFieldTwice(result, "state", JObj(picked), JObj(timed));
      var icon := Prop(state, "icon");
      if !IsEmpty(icon) {
        var pair := [("open", AbsoluteURL(origin, Prop(Prop(icon.value, "open").value, "url"))),
                     ("closed", AbsoluteURL(origin, Prop(Prop(icon.value, "closed").value, "url")))];
        current := Lookup(r, "state").value.fields;
        assert current == timed;
        var full := SetField(current, "icon", JObj(pair));
        r := SetField(r, "state", JObj(full));
        SetFieldTwice(result, "state", JObj(timed), JObj(full));
        PickFieldsOmits(StateFields, state, "icon");
        LookupAppend(picked, lc, "icon");
        var added := [("icon", JObj(pair))];
        assert full == timed + added;
        AppendAssociative(picked, lc, added);
        assert lc + added == StateAdditions(state, origin, millis);
      } else {
        assert lc == StateAdditions(state, origin, millis);
      }
    }
  }

  /** The events block: one entry per event, in the order the store gave. */
  method AssignEvents(result: Entries, events: seq<Json>, millis: string -> Option<int>) returns (r: Entries)
    requires forall i :: 0 <= i < |events| ==> events[i] != JNull
    ensures r == Assign(result, "events", EventsSection(events, millis))
  {
    r := result;
    if !IsEmpty(Some(JArr(events))) {
      r := SetField(r, "events", JArr(EventEntries(events, millis)));
    }
  }

  /** The contact block: the whitelisted contact, then, when it has
      keymasters, the whitelisted keymasters added to that same object. */
  method AssignContact(result: Entries, hackspace: Json) returns (r: Entries)
    requires ContactReadable(hackspace)
    ensures r == Assign(result, "contact", ContactSection(hackspace))
  {
    r := result;
    var contact := Prop(hackspace, "contact");
    if !IsEmpty(contact) {
      var picked := PickFields(ContactFields, contact.value);
      r := SetField(r, "contact", JObj(picked));
      var keymasters := Prop(contact.value, "keymasters");
      if !IsEmpty(keymasters) {
        var current := Lookup(r, "contact").value.fields;
        assert current == picked;
        var mapped := JArr(PickEach(KeymasterFields, keymasters.value.items));
        var withKeymasters := SetField(current, "keymasters", mapped);
        r := SetField(r, "contact", JObj(withKeymasters));
        AddedKeysOutsideWhitelists();
        PickFieldsOmits(ContactFields, contact.value, "keymasters");
        assert withKeymasters == picked + [("keymasters", mapped)];
        SetFieldTwice(result, "contact", JObj(picked), JObj(withKeymasters));
      } else {
        assert picked + [] == picked;
      }
    }
  }

  /** The feeds block: the whitelisted feed slots, each feed whitelisted in
      turn and the pairs reassembled into an object. */
  method AssignFeeds(result: Entries, hackspace: Json) returns (r: Entries)
    ensures r == Assign(result, "feeds", FeedsSection(hackspace))
  {
    r := result;
    var feeds := Prop(hackspace, "feeds");
    if !IsEmpty(feeds) {
      var slots := PickFields(FeedSlots, feeds.value);
      var entries := ObjectEntries(JObj(slots));
      forall i | 0 <= i < |entries| ensures entries[i].1 != JNull {
        assert entries[i] in slots;
      }
      var mapped := PickEachValue(FeedFields, entries);
      r := SetField(r, "feeds", JObj(FromEntries(mapped)));
      SameKeysDistinct(slots, mapped);
      FromEntriesOfDistinct(mapped);
    }
  }

  /** The projects block: the URL of each project. */
  method AssignProjects(result: Entries, hackspace: Json) returns (r: Entries)
    requires MapsSafely(Prop(hackspace, "projects"))
    ensures r == Assign(result, "projects", ProjectsSection(hackspace))
  {
    r := result;
    var projects := Prop(hackspace, "projects");
    if !IsEmpty(projects) {
      r := SetField(r, "projects", JArr(Urls(projects.value.items)));
    }
  }

  /** The action: the compatibility list, the name, the logo and the site
      URL, then the guarded blocks in source order. The result is the
      document of the sections that are present, in that order. */
  method Index(hackspace: Json, state: Json, events: seq<Json>, origin: string,
               millis: string -> Option<int>) returns (result: Entries)
    requires Readable(hackspace, state, events)
    ensures result == Document(hackspace, state, events, origin, millis)
  {
    result := [];
    result := SetField(result, "api_compatibility", JArr([JStr("15")]));
    result := Assign(result, "space", Prop(hackspace, "space"));
    result := SetField(result, "logo", AbsoluteURL(origin, Prop(Prop(hackspace, "logo").value, "url")));
    result := Assign(result, "url", Prop(hackspace, "url"));
    result := AssignLocation(result, hackspace);
    result := AssignSpacefed(result, hackspace);
    result := AssignCam(result, hackspace);
    result := AssignState(result, state, origin, millis);
    result := AssignEvents(result, events, millis);
    result := AssignContact(result, hackspace);
    result := AssignFeeds(result, hackspace);
    result := AssignProjects(result, hackspace);
    AssignedInOrder(
      Some(JArr([JStr("15")])),
      Prop(hackspace, "space"),
      Some(AbsoluteURL(origin, Prop(Prop(hackspace, "logo").value, "url"))),
      Prop(hackspace, "url"),
      LocationSection(hackspace),
      SpacefedSection(hackspace),
      CamSection(hackspace),
      StateSection(state, origin, millis),
      EventsSection(events, millis),
      ContactSection(hackspace),
      FeedsSection(hackspace),
      ProjectsSection(hackspace));
  }
}
