/**
 * The twitter input's `run` (lib/logstash/inputs/twitter.rb, lines 65-123):
 * the subscription filters, then for every status the stream delivers, the
 * event, the geofence, the acceptance gate and the push onto the queue.
 */
module Inputs {
  import opened Wrappers
  import opened RubyStrings
  import opened Tweets
  import opened Normalizer
  import opened Geofence

  /** The `keywords` and `location` settings; `None` when not configured. */
  datatype Config = Config(keywords: Option<seq<string>>, location: Option<string>)

  /** A configured location must be one the geofence can read. */
  predicate WellFormed(location: Option<string>)
  {
    location.Some? ==> WellFormedLocation(location.value)
  }

  /** The keys of the subscription request: `:track` and `:locations`. */
  datatype FilterKey = Track | Locations

  type Filters = map<FilterKey, string>

  /**
   * The subscription request: `track` is the keywords joined with commas
   * whenever keywords are configured (an empty list gives the empty string),
   * and `locations` is the location string, unchanged, whenever one is.
   */
  function Subscription(config: Config): (r: Filters)
    ensures Track in r <==> config.keywords.Some?
    ensures config.keywords.Some? ==> r[Track] == Join(config.keywords.value, ",")
    ensures Locations in r <==> config.location.Some?
    ensures config.location.Some? ==> r[Locations] == config.location.value
  {
    var track: Filters := if config.keywords.Some? then map[Track := Join(config.keywords.value, ",")] else map[];
    if config.location.Some? then track[Locations := config.location.value] else track
  }

  /** The request built by assigning the keys one at a time, as the input does. */
  method BuildFilters(config: Config) returns (filters: Filters)
    ensures filters == Subscription(config)
  {
    filters := map[];
    if config.keywords.Some? {
      filters := filters[Track := Join(config.keywords.value, ",")];
    }
    if config.location.Some? {
      filters := filters[Locations := config.location.value];
    }
  }

  /**
   * The `track` value carries the keywords: splitting it at the commas gives
   * them back when none holds a comma, and no keywords give the empty string.
   */
  lemma TrackCarriesKeywords(keywords: seq<string>)
    requires forall i :: 0 <= i < |keywords| ==> ',' !in keywords[i]
    ensures var track := Subscription(Config(Some(keywords), None))[Track];
      (|keywords| == 0 ==> track == "") &&
      (|keywords| > 0 ==> SplitFields(track, ',') == keywords)
  {
    if |keywords| > 0 {
      SplitFieldsOfJoin(keywords, ',');
    }
  }

  /** `tweet.geo.coordinates`, or `None` when the status has no geo or its coordinates are `nil`. */
  function Coordinates(t: Tweet): Option<seq<Option<real>>>
  {
    if t.geo.Some? then t.geo.value.coordinates else None
  }

  /**
   * The event as it stands at the acceptance gate: the normalised event, plus
   * `latlng` whenever a location is configured and the status has
   * coordinates, whatever the geofence decides.
   */
  function Candidate(location: Option<string>, t: Tweet): Event
  {
    var e := Normalize(t);
    if location.Some? && Coordinates(t).Some? then e[LatLng := CoordsText(Coordinates(t).value)] else e
  }

  /**
   * `latlng` is on the event exactly when a location is configured and the
   * status has coordinates, and holds their rendering; every other field is
   * the normalised event's.
   */
  lemma CandidateFields(location: Option<string>, t: Tweet)
    ensures var r, e := Candidate(location, t), Normalize(t);
      (LatLng in r <==> location.Some? && Coordinates(t).Some?) &&
      (LatLng in r ==> r[LatLng] == CoordsText(Coordinates(t).value)) &&
      forall f :: f != LatLng ==> (f in r <==> f in e) && (f in r ==> r[f] == e[f])
  {
    NormalizeFields(t);
  }

  /** The geofence verdict: false unless a location is configured and the status has coordinates. */
  function Geofenced(location: Option<string>, t: Tweet, toF: string -> real): bool
    requires WellFormed(location)
  {
    location.Some? && Coordinates(t).Some? && InBox(ParseBox(location.value, toF), Coordinates(t).value)
  }

  /** The hard-coded pattern of the acceptance gate. */
  const Pattern: string := "artsmia"

  /** `event[:urls] && event[:urls].any? { |url| url.match(/artsmia/) }`. */
  predicate UrlsMatch(e: Event)
  {
    EntityField(Urls) in e && e[EntityField(Urls)].List? &&
    exists i :: 0 <= i < |e[EntityField(Urls)].items| && Matches(e[EntityField(Urls)].items[i], Pattern)
  }

  /** The content test: the short text, the screen name or one of the event's URLs contains the pattern. */
  predicate ContentMatch(t: Tweet, e: Event)
  {
    Matches(t.text, Pattern) || Matches(t.user.screenName, Pattern) || UrlsMatch(e)
  }

  /** `geofenced || match`: whether the status's event is pushed. */
  predicate Accepted(location: Option<string>, t: Tweet, toF: string -> real)
    requires WellFormed(location)
  {
    Geofenced(location, t, toF) || ContentMatch(t, Candidate(location, t))
  }

  /** The geofence verdict holds exactly when the status's coordinates lie strictly inside the configured box. */
  lemma GeofencedIff(location: Option<string>, t: Tweet, toF: string -> real)
    requires WellFormed(location)
    ensures Geofenced(location, t, toF) <==>
      location.Some? && Coordinates(t).Some? &&
      var box, coords := ParseBox(location.value, toF), Coordinates(t).value;
      |coords| >= 2 && coords[0].Some? && coords[1].Some? &&
      box.swlat < coords[0].value < box.nelat && box.swlon < coords[1].value < box.nelon
  {
    if location.Some? && Coordinates(t).Some? {
      InBoxIff(ParseBox(location.value, toF), Coordinates(t).value);
    }
  }

  /** The URL test on the event reads the expanded form of the status's links. */
  lemma UrlsMatchIff(location: Option<string>, t: Tweet)
    ensures UrlsMatch(Candidate(location, t)) <==>
      exists j :: 0 <= j < |t.urls| && Matches(ToS(Attr(t.urls[j], "expanded_url")), Pattern)
  {
    var e := Candidate(location, t);
    NormalizeFields(t);
    CandidateFields(location, t);
    assert EntityFieldRule(t, Normalize(t), Urls);
    if |t.urls| > 0 {
      var items := Extract(t.urls, "expanded_url");
      assert e[EntityField(Urls)] == List(items);
      if UrlsMatch(e) {
        var i :| 0 <= i < |items| && Matches(items[i], Pattern);
        assert Matches(ToS(Attr(t.urls[i], "expanded_url")), Pattern);
      }
      if j :| 0 <= j < |t.urls| && Matches(ToS(Attr(t.urls[j], "expanded_url")), Pattern) {
        assert Matches(items[j], Pattern);
      }
    }
  }

  /**
   * The gate in terms of the status alone: it is accepted exactly when its
   * coordinates lie strictly inside the configured box, or the pattern occurs
   * in its short text, in its screen name, or in the expanded form of one of
   * its links.
   */
  lemma AcceptedIff(location: Option<string>, t: Tweet, toF: string -> real)
    requires WellFormed(location)
    ensures Accepted(location, t, toF) <==>
      (location.Some? && Coordinates(t).Some? &&
        var box, coords := ParseBox(location.value, toF), Coordinates(t).value;
        |coords| >= 2 && coords[0].Some? && coords[1].Some? &&
        box.swlat < coords[0].value < box.nelat && box.swlon < coords[1].value < box.nelon) ||
      (exists i: nat :: OccursAt(t.text, Pattern, i)) ||
      (exists i: nat :: OccursAt(t.user.screenName, Pattern, i)) ||
      (exists j :: 0 <= j < |t.urls| && Matches(ToS(Attr(t.urls[j], "expanded_url")), Pattern))
  {
    GeofencedIff(location, t, toF);
    MatchesIffOccurs(t.text, Pattern);
    MatchesIffOccurs(t.user.screenName, Pattern);
    UrlsMatchIff(location, t);
  }

  /**
   * What the input does with one status (lines 72-119): build the event,
   * add `latlng` and compute the geofence when it can, then decide.
   */
  method HandleTweet(location: Option<string>, t: Tweet, toF: string -> real) returns (event: Event, push: bool)
    requires WellFormed(location)
    ensures event == Candidate(location, t)
    ensures push == Accepted(location, t, toF)
  {
    event := BuildEvent(t);
    var geofenced := false;
    if location.Some? && t.geo.Some? && t.geo.value.coordinates.Some? {
      var coords := t.geo.value.coordinates.value;
      event := event[LatLng := CoordsText(coords)];
      var fields := Split(location.value, ',');
      var swlon, swlat, nelon, nelat := toF(fields[0]), toF(fields[1]), toF(fields[2]), toF(fields[3]);
      var sw, ne := [swlat, swlon], [nelat, nelon];
      geofenced := AllInside(Zip(sw, coords, ne));
    }
    var matched := Matches(t.text, Pattern) || Matches(t.user.screenName, Pattern) || UrlsMatch(event);
    push := geofenced || matched;
  }

  /** `f` applied to each element of `s`, in order (Ruby's `map`). */
  function MapSeq<A, B>(s: seq<A>, f: A --> B): seq<B>
    requires forall j :: 0 <= j < |s| ==> f.requires(s[j])
  {
    seq(|s|, j requires 0 <= j < |s| => f(s[j]))
  }

  /** Mapping a concatenation maps each part. */
  lemma MapSeqAppend<A, B>(a: seq<A>, b: seq<A>, f: A --> B)
    requires forall j :: 0 <= j < |a| ==> f.requires(a[j])
    requires forall j :: 0 <= j < |b| ==> f.requires(b[j])
    ensures forall j :: 0 <= j < |a + b| ==> f.requires((a + b)[j])
    ensures MapSeq(a + b, f) == MapSeq(a, f) + MapSeq(b, f)
  {
    assert forall j :: 0 <= j < |a + b| ==> (a + b)[j] == if j < |a| then a[j] else b[j - |a|];
  }

  /** The gate's verdict on each status of `stream`, position by position. */
  function Verdicts(location: Option<string>, stream: seq<Tweet>, toF: string -> real): seq<bool>
    requires WellFormed(location)
  {
    MapSeq(stream, t requires WellFormed(location) => Accepted(location, t, toF))
  }

  /** The event built for each status of `stream`, position by position. */
  function Candidates(location: Option<string>, stream: seq<Tweet>): seq<Event>
  {
    MapSeq(stream, t => Candidate(location, t))
  }

  /** The events whose flag is set, in their order: what a loop pushing only flagged events leaves. */
  function Pick(flags: seq<bool>, events: seq<Event>): seq<Event>
    requires |flags| == |events|
  {
    if |flags| == 0 then []
    else
      var n := |flags| - 1;
      Pick(flags[..n], events[..n]) + if flags[n] then [events[n]] else []
  }

  /** The events the input pushes for the statuses of `stream`, in arrival order. */
  function Emitted(location: Option<string>, stream: seq<Tweet>, toF: string -> real): seq<Event>
    requires WellFormed(location)
  {
    Pick(Verdicts(location, stream, toF), Candidates(location, stream))
  }

  /** The positions holding `true`, in increasing order. */
  function Selected(flags: seq<bool>): (r: seq<nat>)
    ensures |r| <= |flags|
    ensures forall k :: 0 <= k < |r| ==> r[k] < |flags| && flags[r[k]]
    ensures forall k1, k2 :: 0 <= k1 < k2 < |r| ==> r[k1] < r[k2]
    ensures forall j :: 0 <= j < |flags| && flags[j] ==> j in r
  {
    if |flags| == 0 then []
    else
      var n := |flags| - 1;
      Selected(flags[..n]) + if flags[n] then [n] else []
  }

  /**
   * The positions of the accepted statuses of `stream`: each is accepted,
   * they increase, and no accepted status is missing.
   */
  function AcceptedIndices(location: Option<string>, stream: seq<Tweet>, toF: string -> real): (r: seq<nat>)
    requires WellFormed(location)
    ensures forall k :: 0 <= k < |r| ==> r[k] < |stream| && Accepted(location, stream[r[k]], toF)
    ensures forall k1, k2 :: 0 <= k1 < k2 < |r| ==> r[k1] < r[k2]
    ensures forall j :: 0 <= j < |stream| && Accepted(location, stream[j], toF) ==> j in r
  {
    Selected(Verdicts(location, stream, toF))
  }

  /** Picking keeps exactly the events at the flagged positions, in order. */
  lemma {:induction false} PickSelects(flags: seq<bool>, events: seq<Event>)
    requires |flags| == |events|
    ensures var out, idx := Pick(flags, events), Selected(flags);
      |out| == |idx| && forall k :: 0 <= k < |idx| ==> out[k] == events[idx[k]]
  {
    if |flags| > 0 {
      var n := |flags| - 1;
      PickSelects(flags[..n], events[..n]);
      var idx' := Selected(flags[..n]);
      forall k | 0 <= k < |idx'| ensures Pick(flags, events)[k] == events[Selected(flags)[k]] {
        assert events[..n][idx'[k]] == events[idx'[k]];
      }
    }
  }

  /**
   * Each status adds at most one event, and the events are exactly those of
   * the accepted statuses, in the order the statuses arrived.
   */
  lemma EmittedSelects(location: Option<string>, stream: seq<Tweet>, toF: string -> real)
    requires WellFormed(location)
    ensures var out, idx := Emitted(location, stream, toF), AcceptedIndices(location, stream, toF);
      |out| == |idx| <= |stream| &&
      forall k :: 0 <= k < |idx| ==> out[k] == Candidate(location, stream[idx[k]])
  {
    PickSelects(Verdicts(location, stream, toF), Candidates(location, stream));
  }

  /** Picking from two concatenated runs is picking from each in turn. */
  lemma {:induction false} PickAppend(f1: seq<bool>, e1: seq<Event>, f2: seq<bool>, e2: seq<Event>)
    requires |f1| == |e1| && |f2| == |e2|
    ensures Pick(f1 + f2, e1 + e2) == Pick(f1, e1) + Pick(f2, e2)
  {
    if |f2| > 0 {
      var n := |f2| - 1;
      assert (f1 + f2)[..|f1 + f2| - 1] == f1 + f2[..n];
      assert (e1 + e2)[..|e1 + e2| - 1] == e1 + e2[..n];
      PickAppend(f1, e1, f2[..n], e2[..n]);
    } else {
      assert f1 + f2 == f1 && e1 + e2 == e1;
    }
  }

  /** Processing two batches one after the other emits the concatenation of what each emits. */
  lemma EmittedAppend(location: Option<string>, a: seq<Tweet>, b: seq<Tweet>, toF: string -> real)
    requires WellFormed(location)
    ensures Emitted(location, a + b, toF) == Emitted(location, a, toF) + Emitted(location, b, toF)
  {
    MapSeqAppend(a, b, t requires WellFormed(location) => Accepted(location, t, toF));
    MapSeqAppend(a, b, t => Candidate(location, t));
    PickAppend(Verdicts(location, a, toF), Candidates(location, a), Verdicts(location, b, toF), Candidates(location, b));
  }

  /** A single status emits its event exactly when it is accepted. */
  lemma EmittedOne(location: Option<string>, t: Tweet, toF: string -> real)
    requires WellFormed(location)
    ensures Emitted(location, [t], toF) == if Accepted(location, t, toF) then [Candidate(location, t)] else []
  {
    var flags, events := Verdicts(location, [t], toF), Candidates(location, [t]);
    assert flags[..0] == [] && events[..0] == [];
    assert flags[0] == Accepted(location, t, toF) && events[0] == Candidate(location, t);
    assert Pick(flags, events) == Pick([], []) + if flags[0] then [events[0]] else [];
  }

  /**
   * Stopping after the first `k` statuses (an interrupt) leaves exactly what
   * a full run would have pushed for them: a prefix of the full output, with
   * no partial event.
   */
  lemma EmittedPrefix(location: Option<string>, stream: seq<Tweet>, k: nat, toF: string -> real)
    requires WellFormed(location) && k <= |stream|
    ensures var part, all := Emitted(location, stream[..k], toF), Emitted(location, stream, toF);
      |part| <= |all| && all[..|part|] == part
  {
    assert stream == stream[..k] + stream[k..];
    EmittedAppend(location, stream[..k], stream[k..], toF);
  }

  /** The pipeline's queue, as far as the input uses it: `queue << event` appends. */
  class Queue {
    var items: seq<Event>

    constructor ()
      ensures items == []
    {
      items := [];
    }

    method Push(e: Event)
      modifies this
      ensures items == old(items) + [e]
    {
      items := items + [e];
    }
  }

  /** The input plugin, with its configuration. */
  class Twitter {
    const config: Config

    constructor (config: Config)
      ensures this.config == config
    {
      this.config := config;
    }

    /**
     * Subscribes with the filters and handles the statuses of `stream` one
     * after the other, pushing the accepted events; returns the filters it
     * subscribed with.
     */
    method Run(queue: Queue, stream: seq<Tweet>, toF: string -> real) returns (filters: Filters)
      requires WellFormed(config.location)
      modifies queue
      ensures filters == Subscription(config)
      ensures queue.items == old(queue.items) + Emitted(config.location, stream, toF)
    {
      filters := BuildFilters(config);
      for i := 0 to |stream|
        invariant queue.items == old(queue.items) + Emitted(config.location, stream[..i], toF)
      {
        var event, push := HandleTweet(config.location, stream[i], toF);
        if push {
          queue.Push(event);
        }
        assert stream[..i + 1] == stream[..i] + [stream[i]];
        EmittedAppend(config.location, stream[..i], [stream[i]], toF);
        EmittedOne(config.location, stream[i], toF);
      }
      assert stream[..|stream|] == stream;
    }
  }
}
