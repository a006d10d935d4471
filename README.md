# Twitter input for Logstash, modelled in Dafny

This project models the core of Logstash's `twitter` input plugin
(`LogStash::Inputs::Twitter#run`). The plugin subscribes to the Twitter
streaming API with a keyword and/or location filter. For every status the
stream delivers, it builds a Logstash event, checks a client-side geofence and
a hard-coded content pattern, and pushes the accepted events onto the
pipeline queue in arrival order.

Files and modules:

- `wrappers.dfy` (`Wrappers`): `Option`, standing for Ruby's `nil`.
- `ruby_strings.dfy` (`RubyStrings`): the Ruby built-ins the plugin relies on:
  - `Array#join`;
  - `String#split(',')`, which drops trailing empty fields;
  - matching a literal regexp, as an unanchored substring search;
  - `Integer#to_s`.
  Each has an inverse or an independent definition, with a lemma linking them.
- `tweets.dfy` (`Tweets`): a status item as the twitter library exposes it,
  reduced to the attributes `run` reads.
- `normalizer.dfy` (`Normalizer`): building the event from a status (scalar
  fields, `in-reply-to`, the entity table and its extraction loop).
  `Normalize` is the specification and `BuildEvent` the step-by-step
  construction proved equal to it.
- `geofence.dfy` (`Geofence`): reading the location as
  `swlon,swlat,nelon,nelat`, Ruby's `zip`/`all?` test, and its
  characterisation as strict interval membership.
- `inputs.dfy` (`Inputs`): the subscription filters, the per-status handler,
  the acceptance gate and the specification of what is emitted. It also holds
  the `Queue` and `Twitter` classes, whose `Run` loop appends to the queue.

Where the intended behaviour and the code differ, the model follows the code:

- `latlng` holds `coords.to_s` (an array rendering), not a `"lat,lon"` string.
- The content test reads the short `text` of the status, not `full_text`,
  although the comment above the gate speaks of the full text.

## Model

| member | source | states |
|---|---|---|
| `RubyStrings.Join` | lib/logstash/inputs/twitter.rb:68 | `Array#join`; characterised by `SplitFieldsOfJoin` and `TrackCarriesKeywords` |
| `RubyStrings.Split` | lib/logstash/inputs/twitter.rb:106 | `String#split(',')`, trailing empty fields dropped; characterised by `SplitFields`, `DropTrailingEmpty` and `SplitOfJoin` |
| `RubyStrings.Matches` | lib/logstash/inputs/twitter.rb:114 | matching the literal `/artsmia/`; characterised by `MatchesIffOccurs` |
| `RubyStrings.SplitFields` | lib/logstash/inputs/twitter.rb:106 | splitting at a separator yields at least one field and no field contains the separator |
| `RubyStrings.DropTrailingEmpty` | lib/logstash/inputs/twitter.rb:106 | `split` keeps a prefix of the fields that does not end in an empty one, and drops only empty fields |
| `RubyStrings.SplitFieldsOfJoin` | lib/logstash/inputs/twitter.rb:68 | splitting the comma-join of comma-free parts gives the parts back |
| `RubyStrings.JoinOfSplitFields` | lib/logstash/inputs/twitter.rb:106 | joining the fields of a string with the separator rebuilds the string |
| `RubyStrings.SplitOfJoin` | lib/logstash/inputs/twitter.rb:106 | Ruby's `split` (trailing empties dropped) inverts `join` when the parts are separator-free and the last is non-empty |
| `RubyStrings.MatchesIffOccurs` | lib/logstash/inputs/twitter.rb:114 | matching a literal regexp succeeds exactly when the literal occurs at some position of the string |
| `RubyStrings.DecimalString` | lib/logstash/inputs/twitter.rb:78 | the decimal form of an id is a non-empty run of digits with no leading zero |
| `RubyStrings.DecimalRoundTrip` | lib/logstash/inputs/twitter.rb:78 | reading back the decimal form of an id gives the id |
| `Normalizer.KeyInjective` | lib/logstash/inputs/twitter.rb:72-105 | distinct event fields are stored under distinct names, so keying events by field loses nothing |
| `Normalizer.AttributeOf` | lib/logstash/inputs/twitter.rb:88-93 | the extraction table, which reads media→`media_url_https`, urls→`expanded_url`, hashtags→`text`, user_mentions→`screen_name`; characterised through `EntityFieldRule` and `NormalizeFields` |
| `Normalizer.CategoriesOnce` | lib/logstash/inputs/twitter.rb:88-93 | the table's keys, in the hash's order (`Normalizer.Categories`), name every category exactly once |
| `Normalizer.EntitiesOf` | lib/logstash/inputs/twitter.rb:94 | `tweet.send(_entity)`: the status's entities of that category; characterised through `EntityFieldRule` and `NormalizeFields` |
| `Normalizer.WithEntity` | lib/logstash/inputs/twitter.rb:94-96 | one pass of the table loop; characterised by `WithEntityOwn` and `WithEntityOther` |
| `Normalizer.WithEntityOwn` | lib/logstash/inputs/twitter.rb:94-96 | after its own pass, a category's field is present iff its entities are non-empty, and then holds the extracted strings |
| `Normalizer.WithEntityOther` | lib/logstash/inputs/twitter.rb:94-96 | a pass for one category leaves every other category's field as it was |
| `Normalizer.SourceUrl` | lib/logstash/inputs/twitter.rb:78 | the status permalink with the id in decimal; characterised by `NormalizeFields` and `DecimalRoundTrip` |
| `Normalizer.Extract` | lib/logstash/inputs/twitter.rb:95 | the extracted list has one string per entity, in order, and element i is the string form of entity i's designated attribute |
| `Normalizer.WithEntitiesKeeps` | lib/logstash/inputs/twitter.rb:88-97 | the extraction loop leaves every field other than the entity fields of the processed categories unchanged |
| `Normalizer.WithEntitiesSets` | lib/logstash/inputs/twitter.rb:88-97 | after the loop, a processed category's field is present iff its list is non-empty, and then holds the extracted strings |
| `Normalizer.ExtractionLoop` | lib/logstash/inputs/twitter.rb:88-97 | after the loop over the whole table, all four entity fields follow that rule |
| `Normalizer.Created` | lib/logstash/inputs/twitter.rb:72-81 | the event as created, plus `in-reply-to` for replies; characterised by `NormalizeFields` |
| `Normalizer.WithEntities` | lib/logstash/inputs/twitter.rb:88-97 | the extraction loop over a prefix of the table; characterised by `WithEntitiesKeeps`, `WithEntitiesSets` and `ExtractionLoop` |
| `Normalizer.Normalize` | lib/logstash/inputs/twitter.rb:72-97 | the event before the location step; characterised by `NormalizeFields` |
| `Normalizer.NormalizeFields` | lib/logstash/inputs/twitter.rb:72-97 | the event holds timestamp, `full_text` as message, screen name, client, retweet flag and the `http://twitter.com/<name>/status/<id>` link; `in-reply-to` iff a reply, holding the reply id; each entity field iff its list is non-empty; no `latlng` |
| `Normalizer.BuildEvent` | lib/logstash/inputs/twitter.rb:72-97 | building the event by successive assignments and the loop over the entity table yields exactly the normalised event |
| `Geofence.ParseBox` | lib/logstash/inputs/twitter.rb:106 | the first four fields of the location as `swlon, swlat, nelon, nelat`; characterised by `BoxComponentOrder` |
| `Geofence.Zip` | lib/logstash/inputs/twitter.rb:110 | `sw.zip(coords, ne)`; characterised by `ZipAt` |
| `Geofence.StrictlyInside` | lib/logstash/inputs/twitter.rb:111 | the block `!!point && sw < point && point < ne`; characterised by `AllInsideIff` |
| `Geofence.AllInside` | lib/logstash/inputs/twitter.rb:111 | the `all?` block; characterised by `AllInsideIff` |
| `Geofence.InBox` | lib/logstash/inputs/twitter.rb:107-111 | the geofence on given coordinates; characterised by `InBoxIff` and `EdgesExcluded` |
| `Geofence.BoxComponentOrder` | lib/logstash/inputs/twitter.rb:106 | a location written as four comma-free numbers is read back as `swlon, swlat, nelon, nelat`, in the order written |
| `Geofence.ZipAt` | lib/logstash/inputs/twitter.rb:110 | row i of `sw.zip(coords, ne)` is `[sw[i], coords[i], ne[i]]`, with `nil` past the end of `coords` |
| `Geofence.AllInsideIff` | lib/logstash/inputs/twitter.rb:111 | `all?` holds iff every row has a non-nil point strictly between its corners |
| `Geofence.InBoxIff` | lib/logstash/inputs/twitter.rb:107-111 | the geofence holds iff both coordinates are present and `swlat < lat < nelat` and `swlon < lon < nelon` |
| `Geofence.EdgesExcluded` | lib/logstash/inputs/twitter.rb:111 | a point on any edge of the box, or with a missing component, is outside |
| `Geofence.MinneapolisBox` | lib/logstash/inputs/twitter.rb:104-111 | for the location `-93.3,44.9,-93.1,45.0`, (44.95, -93.2) is inside and (44.9, -93.2), on the southern edge, is outside |
| `Inputs.Subscription` | lib/logstash/inputs/twitter.rb:67-69 | the request has `track` iff keywords are configured, holding them comma-joined, and `locations` iff a location is configured, holding it unchanged |
| `Inputs.BuildFilters` | lib/logstash/inputs/twitter.rb:67-69 | assigning the two keys one at a time yields exactly that request |
| `Inputs.TrackCarriesKeywords` | lib/logstash/inputs/twitter.rb:68 | an empty keyword list gives `track == ""`; otherwise splitting `track` at commas gives the comma-free keywords back |
| `Inputs.Coordinates` | lib/logstash/inputs/twitter.rb:104 | `tweet.geo && tweet.geo.coordinates`: nil without geo data; characterised by `CandidateFields` and `GeofencedIff` |
| `Inputs.Candidate` | lib/logstash/inputs/twitter.rb:104-105 | the event at the gate, with `latlng`; characterised by `CandidateFields` |
| `Inputs.Geofenced` | lib/logstash/inputs/twitter.rb:104-111 | the `geofenced` flag; characterised by `GeofencedIff` |
| `Inputs.UrlsMatch` | lib/logstash/inputs/twitter.rb:114 | the test on the event's `urls` field; characterised by `UrlsMatchIff` |
| `Inputs.ContentMatch` | lib/logstash/inputs/twitter.rb:114 | the `match` disjunction: the short text, the screen name or one of the event's URLs contains the hard-coded pattern `Inputs.Pattern` (`/artsmia/`), not the configured keywords; characterised by `AcceptedIff` |
| `Inputs.Accepted` | lib/logstash/inputs/twitter.rb:116 | `geofenced \|\| match`; characterised by `AcceptedIff` |
| `Inputs.CandidateFields` | lib/logstash/inputs/twitter.rb:104-105 | `latlng` is set iff a location is configured and the status has coordinates, whatever the geofence says; all other fields are the normalised event's |
| `Inputs.GeofencedIff` | lib/logstash/inputs/twitter.rb:104-111 | the geofence verdict is false without a location or coordinates, and otherwise holds iff the coordinates lie strictly inside the parsed box |
| `Inputs.UrlsMatchIff` | lib/logstash/inputs/twitter.rb:114 | the test on the event's `urls` field holds iff some link's expanded URL contains `artsmia` (so never for a status without links) |
| `Inputs.AcceptedIff` | lib/logstash/inputs/twitter.rb:114-116 | a status is pushed iff it is inside the box, or `artsmia` occurs in its short text, its screen name or one of its expanded URLs |
| `Inputs.HandleTweet` | lib/logstash/inputs/twitter.rb:72-116 | the per-status step yields the event at the gate and the push decision given by the acceptance rule |
| `Inputs.AcceptedIndices` | lib/logstash/inputs/twitter.rb:114-118 | the positions of the accepted statuses are all accepted, strictly increasing and complete |
| `Inputs.Emitted` | lib/logstash/inputs/twitter.rb:70-120 | the events pushed for a stream; characterised by `EmittedSelects`, `EmittedAppend`, `EmittedPrefix` and `EmittedOne` |
| `Inputs.EmittedOne` | lib/logstash/inputs/twitter.rb:114-119 | one status yields its event exactly when it is accepted, and nothing otherwise |
| `Inputs.EmittedSelects` | lib/logstash/inputs/twitter.rb:70-120 | each status adds at most one event; the output is the events of the accepted statuses, in arrival order |
| `Inputs.EmittedAppend` | lib/logstash/inputs/twitter.rb:70-120 | handling two batches in turn emits the concatenation of what each emits |
| `Inputs.EmittedPrefix` | lib/logstash/inputs/twitter.rb:70-122 | stopping after any number of statuses leaves a prefix of the full output, with no partial event |
| `Inputs.Queue.Push` | lib/logstash/inputs/twitter.rb:118 | pushing appends the event and keeps the existing contents |
| `Inputs.Twitter.Run` | lib/logstash/inputs/twitter.rb:65-123 | `run` subscribes with the request above and leaves the queue as its old contents followed by the events emitted for the stream |

## Left out

- `register` and the streaming client's construction from the OAuth credentials (lines 54-62): library and credential setup.
- The streaming transport behind `@client.filter` (line 70): the delivered statuses are a finite sequence given to `Run`.
- `rescue Interrupt` (lines 121-122): no signal is modelled; `EmittedPrefix` states what an interruption after any status leaves on the queue.
- `decorate(event)` (line 80): a base-class hook whose code is not part of this model; it is treated as leaving the modelled fields unchanged.
- The defaults `LogStash::Event.new` adds of its own (such as `@version`): the event class is not part of this model.
- Logging and `puts '.'` (lines 66, 71, 117), and the configuration declarations and their validation (lines 9-51).
- `created_at.gmtime` (line 73): the timestamp is an opaque instant.
- `String#to_f` (line 106): a parameter `toF` of `Run`, left unconstrained, so that Ruby reads non-numeric text as 0.0 is not modelled.
- Inputs.Twitter.Run: requires a configured location to split into at least four fields (`WellFormed`), and so do `HandleTweet`, `Geofenced`, `Accepted` and `Emitted`. The source checks nothing when it starts. With fewer fields the missing corners are `nil`. Ruby then raises only when a present coordinate is compared with a missing corner, and otherwise the geofence is false. For example, with `"1,2,3"` a status whose latitude is above 2.0 raises, and any other status gets `geofenced = false`. Neither outcome is modelled.
- Floating point: coordinates and corners are exact reals, so rounding and NaN are not modelled; only `<` is used on them.
- `coords.to_s` (line 105): `latlng` holds the coordinates symbolically, not their textual rendering.
- Regular-expression engine: `/artsmia/` is a plain literal, modelled as case-sensitive substring search.
- The twitter library's objects: `reply?` and `in_reply_to_status_id` are independent attributes of a status. An entity lacking its designated attribute reads it as `nil`, whose string form is empty.
- Event field names: events are keyed by a `Field` datatype, each with its Ruby key name (`Normalizer.Key`). Setting and reading `urls` use the same key, as in the source.
