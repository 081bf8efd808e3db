/** The whole SpaceAPI document: the sections that are present, in the order
    in which the controller assigns them. */
module SpaceApiDocument {
  import opened JsValue
  import opened SpaceApiHelpers
  import opened SpaceApiSections

  /** A top-level key with the value of its section; None when the section
      is absent from the document. */
  type Section = (string, Option<Json>)

  /** The top-level keys, in the order in which the controller assigns them. */
  const SectionNames: seq<string> := [
    "api_compatibility", "space", "logo", "url", "location", "spacefed",
    "cam", "state", "events", "contact", "feeds", "projects"]

  lemma SectionNamesDistinct()
    ensures forall i, j :: 0 <= i < j < |SectionNames| ==> SectionNames[i] != SectionNames[j]
  {
  }

  function Names(ss: seq<Section>): (ns: seq<string>)
    ensures |ns| == |ss| && forall i :: 0 <= i < |ss| ==> ns[i] == ss[i].0
  {
    seq(|ss|, i requires 0 <= i < |ss| => ss[i].0)
  }

  predicate DistinctNames(ss: seq<Section>)
  {
    forall i, j :: 0 <= i < j < |ss| ==> ss[i].0 != ss[j].0
  }

  /** The object holding the present sections, in order. */
  function Present(ss: seq<Section>): (r: Entries)
    ensures |r| <= |ss|
  {
    if ss == [] then []
    else (if ss[0].1.Some? then [(ss[0].0, ss[0].1.value)] else []) + Present(ss[1..])
  }

  lemma AppendAssociative<T>(a: seq<T>, b: seq<T>, c: seq<T>)
    ensures (a + b) + c == a + (b + c)
  {
  }

  lemma {:induction false} PresentAppend(a: seq<Section>, b: seq<Section>)
    ensures Present(a + b) == Present(a) + Present(b)
  {
    if a == [] {
      assert a + b == b;
    } else {
      assert (a + b)[0] == a[0] && (a + b)[1..] == a[1..] + b;
      PresentAppend(a[1..], b);
      var head: Entries := if a[0].1.Some? then [(a[0].0, a[0].1.value)] else [];
      AppendAssociative(head, Present(a[1..]), Present(b));
    }
  }

  /** A key that names no section is not in the object. */
  lemma {:induction false} PresentOmits(ss: seq<Section>, k: string)
    requires forall i :: 0 <= i < |ss| ==> ss[i].0 != k
    ensures Lookup(Present(ss), k).None?
  {
    if ss != [] {
      var head: Entries := if ss[0].1.Some? then [(ss[0].0, ss[0].1.value)] else [];
      PresentOmits(ss[1..], k);
      LookupAppend(head, Present(ss[1..]), k);
    }
  }

  /** With distinct names, each name reads as its section: its value when
      present, nothing when absent. */
  lemma {:induction false} PresentLookup(ss: seq<Section>, i: nat)
    requires DistinctNames(ss) && i < |ss|
    ensures Lookup(Present(ss), ss[i].0) == ss[i].1
  {
    var head: Entries := if ss[0].1.Some? then [(ss[0].0, ss[0].1.value)] else [];
    LookupAppend(head, Present(ss[1..]), ss[i].0);
    if i == 0 {
      PresentOmits(ss[1..], ss[0].0);
    } else {
      PresentLookup(ss[1..], i - 1);
    }
  }

  /** With distinct names, the object never repeats a key. */
  lemma {:induction false} PresentDistinct(ss: seq<Section>)
    requires DistinctNames(ss)
    ensures DistinctKeys(Present(ss))
  {
    if ss != [] {
      PresentDistinct(ss[1..]);
      if ss[0].1.Some? {
        PresentOmits(ss[1..], ss[0].0);
        var rest := Present(ss[1..]);
        assert forall j :: 0 <= j < |rest| ==> rest[j].0 != ss[0].0;
      }
    }
  }

  /** The object's keys come in the order of the sections' names. */
  lemma {:induction false} PresentInOrder(ss: seq<Section>)
    ensures IsSubsequence(Keys(Present(ss)), Names(ss))
  {
    if ss != [] {
      PresentInOrder(ss[1..]);
      var ns := Names(ss);
      assert ns[0] == ss[0].0 && ns[1..] == Names(ss[1..]);
      var rest := Present(ss[1..]);
      if ss[0].1.Some? {
        var ks := Keys([(ss[0].0, ss[0].1.value)] + rest);
        assert ks[0] == ss[0].0 && ks[1..] == Keys(rest);
      } else {
        assert Present(ss) == rest;
      }
    }
  }

  /** Assigning property `k` of the result to a section that is present;
      nothing for one that is absent (an `undefined` property does not reach
      the serialized document either). A present section takes the place of
      an existing `k` or goes last, and no other key changes. */
  function Assign(result: Entries, k: string, section: Option<Json>): (r: Entries)
    ensures section.None? ==> r == result
    ensures section.Some? ==> Lookup(r, k) == section
    ensures section.Some? ==> forall k' :: k' != k ==> Lookup(r, k') == Lookup(result, k')
    ensures section.Some? && Lookup(result, k).None? ==> r == result + [(k, section.value)]
    ensures section.Some? && Lookup(result, k).Some? ==>
      |r| == |result| && forall i :: 0 <= i < |result| ==> r[i].0 == result[i].0
  {
    if section.Some? then SetField(result, k, section.value) else result
  }

  /** Assigning the next section to the object of the sections before it
      gives the object of the sections up to it. */
  lemma AssignNext(ss: seq<Section>, n: nat)
    requires DistinctNames(ss) && n < |ss|
    ensures Assign(Present(ss[..n]), ss[n].0, ss[n].1) == Present(ss[..n + 1])
  {
    assert ss[..n + 1] == ss[..n] + [ss[n]];
    PresentAppend(ss[..n], [ss[n]]);
    assert [ss[n]][1..] == [];
    if ss[n].1.Some? {
      PresentOmits(ss[..n], ss[n].0);
    }
  }

  /** Each name paired with the value at the same position. */
  function Zip(names: seq<string>, values: seq<Option<Json>>): (ss: seq<Section>)
    requires |names| == |values|
    ensures Names(ss) == names
    ensures forall i :: 0 <= i < |ss| ==> ss[i].1 == values[i]
  {
    seq(|names|, i requires 0 <= i < |names| => (names[i], values[i]))
  }

  /** The values of the twelve sections, in the order of `SectionNames`. */
  function Values(api: Option<Json>, space: Option<Json>, logo: Option<Json>, url: Option<Json>,
                  location: Option<Json>, spacefed: Option<Json>, cam: Option<Json>,
                  state: Option<Json>, events: Option<Json>, contact: Option<Json>,
                  feeds: Option<Json>, projects: Option<Json>): (vs: seq<Option<Json>>)
    ensures |vs| == |SectionNames|
    ensures vs[0] == api && vs[1] == space && vs[2] == logo && vs[3] == url
    ensures vs[4] == location && vs[5] == spacefed && vs[6] == cam && vs[7] == state
    ensures vs[8] == events && vs[9] == contact && vs[10] == feeds && vs[11] == projects
  {
    [api, space, logo, url, location, spacefed, cam, state, events, contact, feeds, projects]
  }

  /** Sections named by `SectionNames` never share a name. */
  lemma NamedSectionsDistinct(values: seq<Option<Json>>)
    requires |values| == |SectionNames|
    ensures DistinctNames(Zip(SectionNames, values))
  {
    SectionNamesDistinct();
    var ss := Zip(SectionNames, values);
    forall i, j | 0 <= i < j < |ss| ensures ss[i].0 != ss[j].0 {
      assert Names(ss)[i] == ss[i].0 && Names(ss)[j] == ss[j].0;
    }
  }

  /** The object of sections named by `SectionNames` never repeats a key,
      holds its keys in the order of the names and no key outside them. */
  lemma NamedSectionsShape(values: seq<Option<Json>>)
    requires |values| == |SectionNames|
    ensures var doc := Present(Zip(SectionNames, values));
      && DistinctKeys(doc)
      && IsSubsequence(Keys(doc), SectionNames)
      && (forall k :: k !in SectionNames ==> Lookup(doc, k).None?)
  {
    var ss := Zip(SectionNames, values);
    NamedSectionsDistinct(values);
    PresentDistinct(ss);
    PresentInOrder(ss);
    forall k | k !in SectionNames ensures Lookup(Present(ss), k).None? {
      assert forall i :: 0 <= i < |ss| ==> Names(ss)[i] == ss[i].0;
      PresentOmits(ss, k);
    }
  }

  /** Each name reads as the value at its position. */
  lemma NamedSectionsLookup(values: seq<Option<Json>>, i: nat)
    requires |values| == |SectionNames| && i < |SectionNames|
    ensures Lookup(Present(Zip(SectionNames, values)), SectionNames[i]) == values[i]
  {
    var ss := Zip(SectionNames, values);
    NamedSectionsDistinct(values);
    PresentLookup(ss, i);
    assert Names(ss)[i] == ss[i].0;
  }

  /** The object of the twelve sections reads each top-level key as its
      section: the four that are always assigned, ... */
  lemma ReadHeader(api: Option<Json>, space: Option<Json>, logo: Option<Json>, url: Option<Json>,
                location: Option<Json>, spacefed: Option<Json>, cam: Option<Json>,
                state: Option<Json>, events: Option<Json>, contact: Option<Json>,
                feeds: Option<Json>, projects: Option<Json>)
    ensures var doc := Present(Zip(SectionNames, Values(api, space, logo, url, location, spacefed, cam, state, events, contact, feeds, projects)));
      && Lookup(doc, "api_compatibility") == api && Lookup(doc, "space") == space
      && Lookup(doc, "logo") == logo && Lookup(doc, "url") == url
  {
    var values := Values(api, space, logo, url, location, spacefed, cam, state, events, contact, feeds, projects);
    NamedSectionsLookup(values, 0);
    NamedSectionsLookup(values, 1);
    NamedSectionsLookup(values, 2);
    NamedSectionsLookup(values, 3);
  }

  /** ... and the eight guarded ones. */
  lemma ReadGuarded(api: Option<Json>, space: Option<Json>, logo: Option<Json>, url: Option<Json>,
                location: Option<Json>, spacefed: Option<Json>, cam: Option<Json>,
                state: Option<Json>, events: Option<Json>, contact: Option<Json>,
                feeds: Option<Json>, projects: Option<Json>)
    ensures var doc := Present(Zip(SectionNames, Values(api, space, logo, url, location, spacefed, cam, state, events, contact, feeds, projects)));
      && Lookup(doc, "location") == location && Lookup(doc, "spacefed") == spacefed
      && Lookup(doc, "cam") == cam && Lookup(doc, "state") == state
      && Lookup(doc, "events") == events && Lookup(doc, "contact") == contact
      && Lookup(doc, "feeds") == feeds && Lookup(doc, "projects") == projects
  {
    var values := Values(api, space, logo, url, location, spacefed, cam, state, events, contact, feeds, projects);
    NamedSectionsLookup(values, 4);
    NamedSectionsLookup(values, 5);
    NamedSectionsLookup(values, 6);
    NamedSectionsLookup(values, 7);
    NamedSectionsLookup(values, 8);
    NamedSectionsLookup(values, 9);
    NamedSectionsLookup(values, 10);
    NamedSectionsLookup(values, 11);
  }

  /** The object after assigning the first `n` sections in order. */
  function Prefix(values: seq<Option<Json>>, n: nat): Entries
    requires n <= |values| <= |SectionNames|
  {
    if n == 0 then [] else Assign(Prefix(values, n - 1), SectionNames[n - 1], values[n - 1])
  }

  /** Assigning the sections in order, from an empty object, gives the
      object of the sections present so far. */
  lemma {:induction false} PrefixIsPresent(values: seq<Option<Json>>, n: nat)
    requires |values| == |SectionNames| && n <= |SectionNames|
    ensures Prefix(values, n) == Present(Zip(SectionNames, values)[..n])
  {
    var ss := Zip(SectionNames, values);
    if n == 0 {
      assert ss[..0] == [];
    } else {
      PrefixIsPresent(values, n - 1);
      NamedSectionsDistinct(values);
      assert ss[n - 1] == (SectionNames[n - 1], values[n - 1]);
      AssignNext(ss, n - 1);
    }
  }

  /** One more assignment extends the object of the first `n` sections. */
  lemma PrefixStep(values: seq<Option<Json>>, n: nat, k: string)
    requires |values| == |SectionNames| && n < |SectionNames| && SectionNames[n] == k
    ensures Prefix(values, n + 1) == Assign(Prefix(values, n), k, values[n])
  {
  }

  /** Assigning the sections in order: the four that are always assigned, ... */
  lemma AssignedHeader(api: Option<Json>, space: Option<Json>, logo: Option<Json>, url: Option<Json>,
                  location: Option<Json>, spacefed: Option<Json>, cam: Option<Json>,
                  state: Option<Json>, events: Option<Json>, contact: Option<Json>,
                  feeds: Option<Json>, projects: Option<Json>)
    ensures var values := Values(api, space, logo, url, location, spacefed, cam, state, events, contact, feeds, projects);
      Prefix(values, 4) ==
        Assign(Assign(Assign(Assign([], "api_compatibility", api), "space", space), "logo", logo), "url", url)
  {
    var values := Values(api, space, logo, url, location, spacefed, cam, state, events, contact, feeds, projects);
    PrefixStep(values, 0, "api_compatibility");
    PrefixStep(values, 1, "space");
    PrefixStep(values, 2, "logo");
    PrefixStep(values, 3, "url");
  }

  /** ... then the location, the federation, the cameras and the state, ... */
  lemma AssignedMiddle(api: Option<Json>, space: Option<Json>, logo: Option<Json>, url: Option<Json>,
                  location: Option<Json>, spacefed: Option<Json>, cam: Option<Json>,
                  state: Option<Json>, events: Option<Json>, contact: Option<Json>,
                  feeds: Option<Json>, projects: Option<Json>)
    ensures var values := Values(api, space, logo, url, location, spacefed, cam, state, events, contact, feeds, projects);
      Prefix(values, 8) ==
        Assign(Assign(Assign(Assign(Prefix(values, 4), "location", location), "spacefed", spacefed), "cam", cam), "state", state)
  {
    var values := Values(api, space, logo, url, location, spacefed, cam, state, events, contact, feeds, projects);
    PrefixStep(values, 4, "location");
    PrefixStep(values, 5, "spacefed");
    PrefixStep(values, 6, "cam");
    PrefixStep(values, 7, "state");
  }

  /** ... and last the events, the contact, the feeds and the projects. */
  lemma AssignedLast(api: Option<Json>, space: Option<Json>, logo: Option<Json>, url: Option<Json>,
                  location: Option<Json>, spacefed: Option<Json>, cam: Option<Json>,
                  state: Option<Json>, events: Option<Json>, contact: Option<Json>,
                  feeds: Option<Json>, projects: Option<Json>)
    ensures var values := Values(api, space, logo, url, location, spacefed, cam, state, events, contact, feeds, projects);
      Prefix(values, 12) ==
        Assign(Assign(Assign(Assign(Prefix(values, 8), "events", events), "contact", contact), "feeds", feeds), "projects", projects)
  {
    var values := Values(api, space, logo, url, location, spacefed, cam, state, events, contact, feeds, projects);
    PrefixStep(values, 8, "events");
    PrefixStep(values, 9, "contact");
    PrefixStep(values, 10, "feeds");
    PrefixStep(values, 11, "projects");
  }

  /** Assigning the twelve sections one after the other, starting from an
      empty object, builds the object of the sections that are present, in
      order. */
  lemma AssignedInOrder(api: Option<Json>, space: Option<Json>, logo: Option<Json>, url: Option<Json>,
                      location: Option<Json>, spacefed: Option<Json>, cam: Option<Json>,
                      state: Option<Json>, events: Option<Json>, contact: Option<Json>,
                      feeds: Option<Json>, projects: Option<Json>)
    ensures
      Assign(Assign(Assign(Assign(Assign(Assign(Assign(Assign(Assign(Assign(Assign(Assign([],
        "api_compatibility", api), "space", space), "logo", logo), "url", url),
        "location", location), "spacefed", spacefed), "cam", cam), "state", state),
        "events", events), "contact", contact), "feeds", feeds), "projects", projects) ==
      Present(Zip(SectionNames, Values(api, space, logo, url, location, spacefed, cam, state, events, contact, feeds, projects)))
  {
    var values := Values(api, space, logo, url, location, spacefed, cam, state, events, contact, feeds, projects);
    var ss := Zip(SectionNames, values);
    PrefixIsPresent(values, 12);
    assert ss[..12] == ss;
    AssignedHeader(api, space, logo, url, location, spacefed, cam, state, events, contact, feeds, projects);
    AssignedMiddle(api, space, logo, url, location, spacefed, cam, state, events, contact, feeds, projects);
    AssignedLast(api, space, logo, url, location, spacefed, cam, state, events, contact, feeds, projects);
  }

  /** The value of every section, in the order of `SectionNames`: the
      compatibility list, the name, the logo and the site URL, which are
      always assigned, then the eight guarded sections. */
  function SectionValues(hackspace: Json, state: Json, events: seq<Json>, origin: string,
                         millis: string -> Option<int>): (vs: seq<Option<Json>>)
    requires Readable(hackspace, state, events)
    ensures |vs| == |SectionNames|
  {
    Values(
      Some(JArr([JStr("15")])),
      Prop(hackspace, "space"),
      Some(AbsoluteURL(origin, Prop(Prop(hackspace, "logo").value, "url"))),
      Prop(hackspace, "url"),
      LocationSection(hackspace),
      SpacefedSection(hackspace),
      CamSection(hackspace),
      StateSection(state, origin, millis),
      EventsSection(events, millis),
      ContactSection(hackspace),
      FeedsSection(hackspace),
      ProjectsSection(hackspace))
  }

  /** The document the controller hands to the serializer: the sections
      that are present, in assignment order. */
  function Document(hackspace: Json, state: Json, events: seq<Json>, origin: string,
                    millis: string -> Option<int>): Entries
    requires Readable(hackspace, state, events)
  {
    Present(Zip(SectionNames, SectionValues(hackspace, state, events, origin, millis)))
  }

  /** The document starts with the compatibility list `["15"]`, never
      repeats a key, holds no key but the twelve section names, and holds
      them in assignment order. */
  lemma DocumentShape(hackspace: Json, state: Json, events: seq<Json>, origin: string,
                      millis: string -> Option<int>)
    requires Readable(hackspace, state, events)
    ensures var doc := Document(hackspace, state, events, origin, millis);
      && |doc| > 0 && doc[0] == ("api_compatibility", JArr([JStr("15")]))
      && DistinctKeys(doc)
      && IsSubsequence(Keys(doc), SectionNames)
      && (forall k :: k !in SectionNames ==> Lookup(doc, k).None?)
  {
    var values := SectionValues(hackspace, state, events, origin, millis);
    NamedSectionsShape(values);
    var ss := Zip(SectionNames, values);
    assert ss[0] == ("api_compatibility", Some(JArr([JStr("15")])));
  }

  /** The name, the logo and the site URL: the name and the site URL copied
      as they are (absent when the hackspace has none), the logo always
      there, as null or as a URL under the request origin. */
  lemma DocumentHeader(hackspace: Json, state: Json, events: seq<Json>, origin: string,
                       millis: string -> Option<int>)
    requires Readable(hackspace, state, events)
    ensures var doc := Document(hackspace, state, events, origin, millis);
      && Lookup(doc, "space") == Prop(hackspace, "space")
      && Lookup(doc, "logo") == Some(AbsoluteURL(origin, Prop(Prop(hackspace, "logo").value, "url")))
      && Lookup(doc, "url") == Prop(hackspace, "url")
  {
    ReadHeader(
      Some(JArr([JStr("15")])),
      Prop(hackspace, "space"),
      Some(AbsoluteURL(origin, Prop(Prop(hackspace, "logo").value, "url"))),
      Prop(hackspace, "url"),
      LocationSection(hackspace),
      SpacefedSection(hackspace),
      CamSection(hackspace),
      StateSection(state, origin, millis),
      EventsSection(events, millis),
      ContactSection(hackspace),
      FeedsSection(hackspace),
      ProjectsSection(hackspace));
  }

  /** Each guarded section of the document reads as its section function:
      absent exactly when its source is empty. */
  lemma DocumentSections(hackspace: Json, state: Json, events: seq<Json>, origin: string,
                         millis: string -> Option<int>)
    requires Readable(hackspace, state, events)
    ensures var doc := Document(hackspace, state, events, origin, millis);
      && Lookup(doc, "location") == LocationSection(hackspace)
      && Lookup(doc, "spacefed") == SpacefedSection(hackspace)
      && Lookup(doc, "cam") == CamSection(hackspace)
      && Lookup(doc, "state") == StateSection(state, origin, millis)
      && Lookup(doc, "events") == EventsSection(events, millis)
      && Lookup(doc, "contact") == ContactSection(hackspace)
      && Lookup(doc, "feeds") == FeedsSection(hackspace)
      && Lookup(doc, "projects") == ProjectsSection(hackspace)
  {
    ReadGuarded(
      Some(JArr([JStr("15")])),
      Prop(hackspace, "space"),
      Some(AbsoluteURL(origin, Prop(Prop(hackspace, "logo").value, "url"))),
      Prop(hackspace, "url"),
      LocationSection(hackspace),
      SpacefedSection(hackspace),
      CamSection(hackspace),
      StateSection(state, origin, millis),
      EventsSection(events, millis),
      ContactSection(hackspace),
      FeedsSection(hackspace),
      ProjectsSection(hackspace));
  }
}
