/**
 * The status items the streaming client yields, reduced to the attributes
 * the twitter input reads. The client library's objects become plain values.
 */
module Tweets {
  import opened Wrappers

  /** `created_at`, kept as an opaque instant (its `gmtime` form is the same instant). */
  datatype Timestamp = Timestamp(instant: int)

  /** An attribute of an entity object: a string (or a URI, by its text) or `nil`. */
  datatype AttrValue = Str(s: string) | Nil

  /** `value.to_s`: the text itself, and the empty string for `nil`. */
  function ToS(v: AttrValue): string
  {
    match v
    case Str(s) => s
    case Nil => ""
  }

  /** One entity (a media item, link, hashtag or mention), by its attributes. */
  datatype Entity = Entity(attrs: map<string, AttrValue>)

  /** The entity's attribute reader: `nil` for an attribute it does not carry. */
  function Attr(e: Entity, name: string): AttrValue
  {
    if name in e.attrs then e.attrs[name] else Nil
  }

  datatype User = User(screenName: string)

  /**
   * `tweet.geo`: its `coordinates` are `nil` or an array whose components
   * (latitude first, then longitude) may themselves be `nil`.
   */
  datatype Geo = Geo(coordinates: Option<seq<Option<real>>>)

  /**
   * A status item. `text` is the short text and `fullText` the untruncated
   * one; `reply` is the `reply?` flag and `inReplyToStatusId` the id it
   * refers to.
   */
  datatype Tweet = Tweet(
    id: nat,
    createdAt: Timestamp,
    text: string,
    fullText: string,
    user: User,
    source: string,
    retweeted: bool,
    reply: bool,
    inReplyToStatusId: nat,
    geo: Option<Geo>,
    media: seq<Entity>,
    urls: seq<Entity>,
    hashtags: seq<Entity>,
    userMentions: seq<Entity>)
}
