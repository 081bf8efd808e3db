# SpaceAPI controller model

simple-spaceapi serves a hackerspace's SpaceAPI document, a fixed JSON schema
that directories and dashboards poll. A single controller action builds the
document. It reads three things from the content store: the hackspace record,
the state record and the latest events. It then assigns the document's keys
one after the other:

- the compatibility list `["15"]`, the space name, the logo URL and the site
  URL, always;
- `location`, `spacefed`, `cam`, `state`, `events`, `contact`, `feeds` and
  `projects`, each only when its source is not empty.

Each object section is cut down to a whitelist of fields. Empty values are
dropped. Media paths are made absolute under the request origin, and
timestamps become Unix seconds.

The model is five modules:

- `JsValue` (`js_value.dfy`): the JavaScript values involved. Objects are
  ordered entry lists and `undefined` is `None`. It covers property reads
  and writes, `Object.entries`, `Object.fromEntries`, `filter`, `String(x)`
  and truthiness.
- `SpaceApiHelpers` (`spaceapi_helpers.dfy`): the four helpers, namely the
  emptiness test, the field whitelist, the timestamp conversion and the URL
  absolutization, with their properties.
- `SpaceApiSections` (`spaceapi_sections.dfy`): for each section, the value
  it takes as a pure function of the records, and the lemmas about that
  value. It also defines `Readable`, the conditions under which the action
  does not throw.
- `SpaceApiDocument` (`spaceapi_document.dfy`): the document as the present
  sections in assignment order, and its shape.
- `SpaceApi` (`spaceapi.dfy`): the action itself, written imperatively.
  `Index` starts from an empty object. It assigns each key, and for
  `location.areas`, `state.lastchange`, `state.icon` and
  `contact.keymasters` it writes into the object it has just assigned, as
  the source does. Each block method is proved equal to assigning its
  section function, and `Index` is proved equal to `Document`.

The model follows what the code does, which in several places is looser
than the SpaceAPI schema might lead one to expect:

- Emptiness is exactly undefined, null, `""` and `[]`. A whitespace string,
  `{}`, `false` and `0` are kept, because the emptiness test neither trims
  nor special-cases objects.
- A present section whose fields are all empty is emitted as `{}`.
- A logo without a URL is emitted as `null`.
- An icon pair is emitted whenever the state's icon is not empty, even if one
  side's URL is `null`.
- `state.open` is passed through unchanged; strings are not normalized to
  booleans.
- An unparsable `updatedAt` or `createdAt` does not throw. The timestamp
  becomes NaN, which serializes as `null`.
- A missing hackspace record (the store returns null), or a hackspace with
  no location or no logo, makes the action throw. The debug log reads
  `location.areas` before the guarded location block, and the logo URL is
  read without a guard. `Readable` states this.
- Links, membership plans, linked spaces and sensors are fetched or planned,
  but are never written to the document.

## Model

Source paths are relative to the repository root; all cited lines are in the one controller file.

| member | source | states |
|---|---|---|
| SpaceApiHelpers.IsEmpty | src/api/spaceapi/controllers/spaceapi.ts:4-8 | a value is empty exactly when it is undefined, null, the empty string or the empty array; `false`, `0`, whitespace and `{}` are not empty |
| SpaceApiHelpers.PickFields | src/api/spaceapi/controllers/spaceapi.ts:10-13 | the whitelist of a non-null value has distinct keys; every kept entry is an entry of the value with a whitelisted key and a non-empty value (sound); every such key is kept (complete) |
| SpaceApiHelpers.PickFieldsLookup | src/api/spaceapi/controllers/spaceapi.ts:10-13 | on an object, a key reads as the object's value exactly when the key is whitelisted and the value is not empty, and is absent otherwise |
| SpaceApiHelpers.PickFieldsOmits | src/api/spaceapi/controllers/spaceapi.ts:10-13 | a key outside the whitelist is never in the result |
| SpaceApiHelpers.PickFieldsKeepsOrder | src/api/spaceapi/controllers/spaceapi.ts:10-13 | the kept entries appear in the object's own order (the result is a subsequence of the object's entries) |
| SpaceApiHelpers.PickFieldsIdempotent | src/api/spaceapi/controllers/spaceapi.ts:10-13 | whitelisting the result again changes nothing |
| SpaceApiHelpers.DateTimeToUnixtime | src/api/spaceapi/controllers/spaceapi.ts:15-18 | a valid date gives the floor of its seconds, `r * 1000 <= ms < r * 1000 + 1000`, also before 1970; an invalid date gives null |
| SpaceApiHelpers.AbsoluteURL | src/api/spaceapi/controllers/spaceapi.ts:22-24 | the result is a string exactly when the URL is truthy, and is then the origin followed by the URL's string form; otherwise it is null |
| JsValue.Filter | src/api/spaceapi/controllers/spaceapi.ts:12-13 | an element is kept exactly when it is in the list and passes the test; the result is no longer than the list |
| SpaceApiSections.PickFieldsWhitelisted | src/api/spaceapi/controllers/spaceapi.ts:10-13 | on an object record, every whitelisted key is present with the record's value when that value is not empty, and absent when it is empty |
| JsValue.SetField | src/api/spaceapi/controllers/spaceapi.ts:108-115 | assigning an existing property keeps every key's position; a new property is appended last; the property then reads as the new value; no other property changes |
| JsValue.SetFieldTwice | src/api/spaceapi/controllers/spaceapi.ts:108-115 | assigning a property twice equals assigning the second value once, at the first assignment's position |
| JsValue.FromEntries | src/api/spaceapi/controllers/spaceapi.ts:189-195 | the rebuilt object has distinct keys, holds only given pairs, and holds every given key |
| JsValue.FromEntriesOfDistinct | src/api/spaceapi/controllers/spaceapi.ts:189-195 | rebuilding from pairs with distinct keys gives back those pairs, in order |
| SpaceApiSections.PickEach | src/api/spaceapi/controllers/spaceapi.ts:69-74 | one whitelisted object per element, same length, same order |
| SpaceApiSections.Urls | src/api/spaceapi/controllers/spaceapi.ts:86-87 | the `url` of each element, same length and order; a missing `url` becomes null in the array |
| SpaceApiSections.LocationSection | src/api/spaceapi/controllers/spaceapi.ts:58-76 | `location` is present exactly when the hackspace's location is not empty |
| SpaceApiSections.LocationSectionShape | src/api/spaceapi/controllers/spaceapi.ts:58-76 | a present location has distinct keys, each a whitelisted name or `areas`; `areas` is there exactly when the areas are not empty, and then holds one whitelisted area per area, in order; on an object record every whitelisted field is passed through when not empty and dropped when empty |
| SpaceApiSections.SpacefedSection | src/api/spaceapi/controllers/spaceapi.ts:78-83 | `spacefed` is present exactly when the hackspace's spacefed is not empty, and then holds distinct keys within `spacenet` and `spacesaml` |
| SpaceApiSections.SpacefedSectionWhitelisted | src/api/spaceapi/controllers/spaceapi.ts:79-82 | on an object record, `spacenet` and `spacesaml` are passed through unchanged when not empty and dropped when empty |
| SpaceApiSections.CamSection | src/api/spaceapi/controllers/spaceapi.ts:85-88 | `cam` is present exactly when the camera list is not empty, and then element i is camera i's `url`, or null where it has none, for every camera |
| SpaceApiSections.Icons | src/api/spaceapi/controllers/spaceapi.ts:112-115 | the icon object holds `open` then `closed`: the absolutized URL of the open icon and of the closed icon respectively, each null or a URL under the request origin |
| SpaceApiSections.StateAdditions | src/api/spaceapi/controllers/spaceapi.ts:108-116 | the entries added to the state have distinct keys outside the state whitelist; `lastchange` comes first; `icon` is there exactly when the record's icon is not empty |
| SpaceApiSections.StateSection | src/api/spaceapi/controllers/spaceapi.ts:101-117 | `state` is present exactly when the state record is not empty |
| SpaceApiSections.StateSectionShape | src/api/spaceapi/controllers/spaceapi.ts:101-117 | a present state has distinct keys, each a whitelisted name, `lastchange` or `icon` |
| SpaceApiSections.StateSectionAdditions | src/api/spaceapi/controllers/spaceapi.ts:108-116 | `lastchange` is always present and is the update time in floor seconds (or null); `icon` is present exactly when the record's icon is not empty, and is then the absolute icon pair |
| SpaceApiSections.StateSectionWhitelisted | src/api/spaceapi/controllers/spaceapi.ts:102-106 | on an object record, `open`, `trigger_person` and `message` are passed through unchanged when not empty and dropped when empty |
| SpaceApiSections.EventEntry | src/api/spaceapi/controllers/spaceapi.ts:129-136 | an event entry is the event's whitelisted fields followed by `timestamp` |
| SpaceApiSections.EventEntryShape | src/api/spaceapi/controllers/spaceapi.ts:129-136 | an event entry has distinct keys and ends with the creation time in floor seconds |
| SpaceApiSections.EventEntryWhitelisted | src/api/spaceapi/controllers/spaceapi.ts:130-134 | on an object record, the entry holds exactly the non-empty `name`, `type` and `extra`, unchanged |
| SpaceApiSections.EventEntries | src/api/spaceapi/controllers/spaceapi.ts:129-136 | one entry per event, same length, in the order the store gave |
| SpaceApiSections.EventsSection | src/api/spaceapi/controllers/spaceapi.ts:128-137 | `events` is present exactly when there are events, and then item i is the entry of event i, for every event |
| SpaceApiSections.ContactSection | src/api/spaceapi/controllers/spaceapi.ts:141-173 | `contact` is present exactly when the hackspace's contact is not empty |
| SpaceApiSections.ContactSectionShape | src/api/spaceapi/controllers/spaceapi.ts:141-173 | a present contact has distinct keys, each a whitelisted channel or `keymasters`; `keymasters` is there exactly when the keymasters are not empty, and then holds one whitelisted keymaster per keymaster, in order; on an object record every whitelisted channel is passed through when not empty |
| SpaceApiSections.PickEachValue | src/api/spaceapi/controllers/spaceapi.ts:190-194 | the same keys in the same order, each value whitelisted to `type` and `url` |
| SpaceApiSections.PickEachValueLookup | src/api/spaceapi/controllers/spaceapi.ts:190-194 | a key of the mapped pairs reads as the original value, whitelisted, and is absent when the key was absent |
| SpaceApiSections.FeedsSection | src/api/spaceapi/controllers/spaceapi.ts:181-196 | `feeds` is present exactly when the hackspace's feeds are not empty |
| SpaceApiSections.FeedsSectionShape | src/api/spaceapi/controllers/spaceapi.ts:181-196 | present feeds have distinct keys, each of them `blog`, `wiki`, `calendar` or `flickr` |
| SpaceApiSections.FeedsSectionFeeds | src/api/spaceapi/controllers/spaceapi.ts:189-195 | each feed is an object whose keys are within `type` and `url` |
| SpaceApiSections.FeedsSectionLookup | src/api/spaceapi/controllers/spaceapi.ts:181-196 | on an object record, a slot is present exactly when it is one of the four and the record's feed for it is not empty, and then holds that feed whitelisted |
| SpaceApiSections.ProjectsSection | src/api/spaceapi/controllers/spaceapi.ts:200-203 | `projects` is present exactly when the project list is not empty, and then element i is project i's `url`, or null where it has none, for every project |
| SpaceApiDocument.Assign | src/api/spaceapi/controllers/spaceapi.ts:53-56 | assigning an undefined value leaves the document as it was; assigning a value makes the key read as that value, keeps an existing key's position or appends a new key last, and leaves every other key unchanged |
| SpaceApiDocument.AssignedInOrder | src/api/spaceapi/controllers/spaceapi.ts:53-203 | assigning the twelve keys in source order, starting from an empty object, gives exactly the present sections in that order |
| SpaceApiDocument.DocumentShape | src/api/spaceapi/controllers/spaceapi.ts:53-203 | the document starts with `api_compatibility` set to `["15"]`, never repeats a key, holds no key outside the twelve section names, and holds its keys in assignment order |
| SpaceApiDocument.DocumentHeader | src/api/spaceapi/controllers/spaceapi.ts:53-56 | `space` and `url` are copied as they are (absent when undefined); `logo` is always present, as the absolutized logo URL or null |
| SpaceApiDocument.DocumentSections | src/api/spaceapi/controllers/spaceapi.ts:58-203 | each guarded key of the document reads as its section, so it is present exactly when its source is not empty |
| SpaceApi.AssignLocation | src/api/spaceapi/controllers/spaceapi.ts:58-76 | assigning the whitelisted location and then writing `areas` into it equals assigning `LocationSection` |
| SpaceApi.AssignSpacefed | src/api/spaceapi/controllers/spaceapi.ts:78-83 | the block equals assigning `SpacefedSection` |
| SpaceApi.AssignCam | src/api/spaceapi/controllers/spaceapi.ts:85-88 | the block equals assigning `CamSection` |
| SpaceApi.AssignState | src/api/spaceapi/controllers/spaceapi.ts:101-117 | assigning the whitelisted state and then writing `lastchange` and `icon` into it equals assigning `StateSection` |
| SpaceApi.AssignEvents | src/api/spaceapi/controllers/spaceapi.ts:128-137 | the block equals assigning `EventsSection` |
| SpaceApi.AssignContact | src/api/spaceapi/controllers/spaceapi.ts:141-173 | assigning the whitelisted contact and then writing `keymasters` into it equals assigning `ContactSection` |
| SpaceApi.AssignFeeds | src/api/spaceapi/controllers/spaceapi.ts:181-196 | whitelisting the slots, whitelisting each feed and rebuilding the object equals assigning `FeedsSection` |
| SpaceApi.AssignProjects | src/api/spaceapi/controllers/spaceapi.ts:200-203 | the block equals assigning `ProjectsSection` |
| SpaceApi.Index | src/api/spaceapi/controllers/spaceapi.ts:21-208 | whenever the action does not throw (`Readable`), the object it sends is `Document`: the present sections in assignment order, with the shape above |

## Left out

- The three content-store queries (lines 30-49, 92-99 and 121-126) are not modelled. The hackspace, the state and the events they return are parameters. Relation population is their job. So are the events' newest-first order and the limit of 10: the model keeps whatever list it is given, in order.
- The two debug log lines (50-51) produce output that is not modelled. The property read at line 51 is kept as a requirement.
- Sending the response (line 207) and JSON serialization are not modelled. A property whose value is undefined is modelled as absent. An undefined array element is modelled as null, and NaN as null.
- Date parsing is the parameter `millis`. It gives the milliseconds for a text, or None when the date is invalid.
- Numbers are integers. The controller only copies numbers, and it divides timestamps, which are integral. The string form of a non-integer number is not modelled.
- The request origin is a parameter. How the framework derives it from the request is not modelled.
- Index: an input that makes the action throw is excluded by the precondition `Readable` rather than modelled as an error response. The framework turns such a throw into a server error, which is outside this model.
- Properties are own enumerable data properties. Inherited properties, getters and symbol keys are not modelled, because store records have none.
- Nested writes are modelled by writing the updated nested object back under its key. This is exact here because each nested object is the fresh result of the whitelist and is referenced only from the document.
- The admin UI, the health-check endpoint and the generated content types are not part of this model.
