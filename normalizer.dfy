/**
 * Turning one status item into the event the input emits: the scalar fields,
 * the reply reference and the four entity fields (lib/logstash/inputs/twitter.rb,
 * lines 72-97).
 */
module Normalizer {
  import opened Wrappers
  import opened RubyStrings
  import opened Tweets

  /** The entity categories, in the order the extraction table lists them. */
  datatype Category = Media | Urls | Hashtags | UserMentions

  const Categories: seq<Category> := [Media, Urls, Hashtags, UserMentions]

  /** The extraction table: the one attribute read from each entity of a category. */
  function AttributeOf(c: Category): string
  {
    match c
    case Media => "media_url_https"
    case Urls => "expanded_url"
    case Hashtags => "text"
    case UserMentions => "screen_name"
  }

  /**
   * The table names every category exactly once, so the loop over it writes
   * each entity field in exactly one pass.
   */
  lemma CategoriesOnce(c: Category)
    ensures exists i :: 0 <= i < |Categories| && Categories[i] == c
    ensures forall i, j :: 0 <= i < j < |Categories| ==> Categories[i] != Categories[j]
  {
    match c
    case Media => assert Categories[0] == c;
    case Urls => assert Categories[1] == c;
    case Hashtags => assert Categories[2] == c;
    case UserMentions => assert Categories[3] == c;
  }

  /** `tweet.send(category)`: the tweet's list of entities of that category. */
  function EntitiesOf(t: Tweet, c: Category): seq<Entity>
  {
    match c
    case Media => t.media
    case Urls => t.urls
    case Hashtags => t.hashtags
    case UserMentions => t.userMentions
  }

  /** The fields an event of this input can carry. */
  datatype Field =
    | AtTimestamp | Message | UserName | Client | Retweeted | Source | InReplyTo
    | EntityField(category: Category)
    | LatLng

  /**
   * The name under which each field is stored in the Ruby event. The model
   * keys events by `Field` itself; this table only records the names, and
   * `KeyInjective` shows that doing so identifies no two of them.
   */
  function Key(f: Field): string
  {
    match f
    case AtTimestamp => "@timestamp"
    case Message => "message"
    case UserName => "user"
    case Client => "client"
    case Retweeted => "retweeted"
    case Source => "source"
    case InReplyTo => "in-reply-to"
    case EntityField(Media) => "media"
    case EntityField(Urls) => "urls"
    case EntityField(Hashtags) => "hashtags"
    case EntityField(UserMentions) => "user_mentions"
    case LatLng => "latlng"
  }

  /** Distinct fields are stored under distinct names, so keying events by `Field` loses nothing. */
  lemma KeyInjective(f: Field, g: Field)
    ensures Key(f) == Key(g) ==> f == g
  {
  }

  /** A value stored in an event field. */
  datatype FieldValue =
    | Time(time: Timestamp)
    | Text(text: string)
    | Flag(flag: bool)
    | Id(id: nat)
    | List(items: seq<string>)
      /** `coords.to_s`, kept symbolic: the rendering of the coordinates array. */
    | CoordsText(coords: seq<Option<real>>)

  /** An event: its fields and their values. */
  type Event = map<Field, FieldValue>

  /** `entities.map(&attribute).map(&:to_s)`: one string per entity, in order. */
  function Extract(entities: seq<Entity>, attribute: string): (r: seq<string>)
    ensures |r| == |entities|
    ensures forall i :: 0 <= i < |r| ==> r[i] == ToS(Attr(entities[i], attribute))
  {
    if |entities| == 0 then []
    else Extract(entities[..|entities| - 1], attribute) + [ToS(Attr(entities[|entities| - 1], attribute))]
  }

  /** The permalink of a status: `http://twitter.com/<screen name>/status/<id>`. */
  function SourceUrl(screenName: string, id: nat): string
  {
    "http://twitter.com/" + screenName + "/status/" + DecimalString(id)
  }

  /** The fields the event is created with, and the reply reference for replies. */
  function Created(t: Tweet): Event
  {
    var e := map[
      AtTimestamp := Time(t.createdAt),
      Message := Text(t.fullText),
      UserName := Text(t.user.screenName),
      Client := Text(t.source),
      Retweeted := Flag(t.retweeted),
      Source := Text(SourceUrl(t.user.screenName, t.id))];
    if t.reply then e[InReplyTo := Id(t.inReplyToStatusId)] else e
  }

  /** One pass of the extraction loop: set the category's field unless its list is empty. */
  function WithEntity(t: Tweet, e: Event, c: Category): Event
  {
    var entities := EntitiesOf(t, c);
    if |entities| == 0 then e else e[EntityField(c) := List(Extract(entities, AttributeOf(c)))]
  }

  /** The extraction loop run over the categories `cs`, in order. */
  function WithEntities(t: Tweet, e: Event, cs: seq<Category>): Event
  {
    if |cs| == 0 then e else WithEntity(t, WithEntities(t, e, cs[..|cs| - 1]), cs[|cs| - 1])
  }

  /** The field a category sets holds its extracted strings, and is there only when the list is not empty. */
  predicate EntityFieldRule(t: Tweet, e: Event, c: Category)
  {
    (EntityField(c) in e <==> |EntitiesOf(t, c)| > 0) &&
    (EntityField(c) in e ==> e[EntityField(c)] == List(Extract(EntitiesOf(t, c), AttributeOf(c))))
  }

  /** Fields other than entity fields of the categories in `cs` are left as they were. */
  lemma {:induction false} WithEntitiesKeeps(t: Tweet, e: Event, cs: seq<Category>, f: Field)
    requires !f.EntityField? || f.category !in cs
    ensures var r := WithEntities(t, e, cs); (f in r <==> f in e) && (f in r ==> r[f] == e[f])
  {
    if |cs| > 0 {
      assert cs == cs[..|cs| - 1] + [cs[|cs| - 1]];
      WithEntitiesKeeps(t, e, cs[..|cs| - 1], f);
    }
  }

  /** One pass for `c` makes its field follow the entity rule, if it was absent or already did. */
  lemma WithEntityOwn(t: Tweet, e: Event, c: Category)
    requires EntityField(c) !in e || EntityFieldRule(t, e, c)
    ensures EntityFieldRule(t, WithEntity(t, e, c), c)
  {
  }

  /** One pass for `c` leaves the field of every other category as it was. */
  lemma WithEntityOther(t: Tweet, e: Event, c: Category, d: Category)
    requires c != d
    ensures var r := WithEntity(t, e, c);
      (EntityField(d) in r <==> EntityField(d) in e) && (EntityField(d) in e ==> r[EntityField(d)] == e[EntityField(d)])
  {
  }

  /** After the loop over `cs`, the field of every category in `cs` follows the entity rule. */
  lemma {:induction false} WithEntitiesSets(t: Tweet, e: Event, cs: seq<Category>, c: Category)
    requires c in cs
    requires EntityField(c) !in e
    ensures EntityFieldRule(t, WithEntities(t, e, cs), c)
  {
    var init, last := cs[..|cs| - 1], cs[|cs| - 1];
    assert cs == init + [last];
    var before := WithEntities(t, e, init);
    if c in init {
      WithEntitiesSets(t, e, init, c);
    } else {
      WithEntitiesKeeps(t, e, init, EntityField(c));
    }
    if last == c {
      WithEntityOwn(t, before, c);
    } else {
      WithEntityOther(t, before, last, c);
    }
  }

  /** After the whole extraction loop every entity field follows the entity rule. */
  lemma ExtractionLoop(t: Tweet, e: Event)
    requires forall c :: EntityField(c) !in e
    ensures var r := WithEntities(t, e, Categories);
      forall c :: EntityFieldRule(t, r, c)
  {
    var r := WithEntities(t, e, Categories);
    forall c: Category ensures EntityFieldRule(t, r, c) {
      assert c == Categories[0] || c == Categories[1] || c == Categories[2] || c == Categories[3];
      WithEntitiesSets(t, e, Categories, c);
    }
  }

  /** The event built from a status item, up to the location check. */
  function Normalize(t: Tweet): Event
  {
    WithEntities(t, Created(t), Categories)
  }

  /**
   * The normalised event holds the scalar fields of the status, `in-reply-to`
   * for replies only, one field per non-empty entity list, and no `latlng`.
   */
  lemma NormalizeFields(t: Tweet)
    ensures var r := Normalize(t);
      AtTimestamp in r && r[AtTimestamp] == Time(t.createdAt) &&
      Message in r && r[Message] == Text(t.fullText) &&
      UserName in r && r[UserName] == Text(t.user.screenName) &&
      Client in r && r[Client] == Text(t.source) &&
      Retweeted in r && r[Retweeted] == Flag(t.retweeted) &&
      Source in r && r[Source] == Text("http://twitter.com/" + t.user.screenName + "/status/" + DecimalString(t.id)) &&
      (InReplyTo in r <==> t.reply) &&
      (t.reply ==> r[InReplyTo] == Id(t.inReplyToStatusId)) &&
      (forall c :: EntityFieldRule(t, r, c)) &&
      LatLng !in r
  {
    var e := Created(t);
    ExtractionLoop(t, e);
    WithEntitiesKeeps(t, e, Categories, AtTimestamp);
    WithEntitiesKeeps(t, e, Categories, Message);
    WithEntitiesKeeps(t, e, Categories, UserName);
    WithEntitiesKeeps(t, e, Categories, Client);
    WithEntitiesKeeps(t, e, Categories, Retweeted);
    WithEntitiesKeeps(t, e, Categories, Source);
    WithEntitiesKeeps(t, e, Categories, InReplyTo);
    WithEntitiesKeeps(t, e, Categories, LatLng);
  }

  /** One more category processed: the loop over a longer prefix is one more pass. */
  lemma WithEntitiesStep(t: Tweet, e: Event, cs: seq<Category>, i: nat)
    requires i < |cs|
    ensures WithEntities(t, e, cs[..i + 1]) == WithEntity(t, WithEntities(t, e, cs[..i]), cs[i])
  {
    assert cs[..i + 1][..i] == cs[..i];
  }

  /**
   * The event built by successive field assignments, as the input does:
   * creation with the scalar fields, the reply reference, then one pass over
   * the extraction table.
   */
  method BuildEvent(t: Tweet) returns (event: Event)
    ensures event == Normalize(t)
  {
    event := map[
      AtTimestamp := Time(t.createdAt),
      Message := Text(t.fullText),
      UserName := Text(t.user.screenName),
      Client := Text(t.source),
      Retweeted := Flag(t.retweeted),
      Source := Text(SourceUrl(t.user.screenName, t.id))];
    if t.reply {
      event := event[InReplyTo := Id(t.inReplyToStatusId)];
    }
    ghost var created := event;
    assert created == Created(t);
    for i := 0 to |Categories|
      invariant event == WithEntities(t, created, Categories[..i])
    {
      WithEntitiesStep(t, created, Categories, i);
      var c := Categories[i];
      var entities := EntitiesOf(t, c);
      if |entities| != 0 {
        event := event[EntityField(c) := List(Extract(entities, AttributeOf(c)))];
      }
    }
    assert Categories[..|Categories|] == Categories;
  }
}
