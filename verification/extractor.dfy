/**
 * The per-post lookups of `TweetExtractor` in src/extractors/tweet_extractor.py.
 * Each lookup either finds what it asks for or raises; the source catches the
 * exception and answers `None` (or `{}` for the metrics), and so does the model.
 */
module TweetExtractor {
  import opened Wrappers
  import opened TweetModel

  /**
   * One `article[data-testid="tweet"]` element as the extractor sees it: for
   * every selector it queries, the text or attribute it reads, or `None` when
   * the selector matches nothing.
   */
  datatype TweetElement = TweetElement(
    handleText: Option<string>,      // text of the span under `User-Name` that shows "@handle"
    permalinkHref: Option<string>,   // href of the `a[role="link"]` beside the post's time stamp
    userNameLinkHref: Option<string>,// href of the first `[data-testid="User-Name"] div > a`
    datetime: Option<string>,        // `datetime` attribute of `time[datetime]`
    tweetText: Option<string>,       // text of `[data-testid="tweetText"]`
    replyText: Option<string>,       // text of `[data-testid="reply"]`
    retweetText: Option<string>,     // text of `[data-testid="retweet"]`
    likeText: Option<string>)        // text of `[data-testid="like"]`

  /** The origin every extracted href is appended to. */
  const Origin: string := "https://twitter.com"

  /** A handle is accepted when it is non-empty and contains '@'. */
  predicate ValidHandle(text: string) {
    text != "" && '@' in text
  }

  /** `extract_username`: the handle text, if the span exists and holds a valid handle. */
  function ExtractUsername(el: TweetElement): (r: Option<string>)
    ensures r.Some? <==> el.handleText.Some? && ValidHandle(el.handleText.value)
    ensures r.Some? ==> r == el.handleText && '@' in r.value
  {
    match el.handleText
    case None => None
    case Some(username) => if ValidHandle(username) then Some(username) else None
  }

  /** `extract_tweet_url`: the first `User-Name` link's href, prefixed with the origin. */
  function ExtractTweetUrl(el: TweetElement): (r: Option<string>)
    ensures r.Some? <==> el.userNameLinkHref.Some?
    ensures r.Some? ==> |r.value| == |Origin| + |el.userNameLinkHref.value|
    ensures r.Some? ==> r.value[..|Origin|] == Origin && r.value[|Origin|..] == el.userNameLinkHref.value
  {
    match el.userNameLinkHref
    case None => None
    case Some(href) => Some(Origin + href)
  }

  /**
   * `extract_metrics`: the three metric texts under their names, or the empty
   * map as soon as any one of the three is missing.
   */
  function ExtractMetrics(el: TweetElement): (r: Engagement)
    ensures r == map[] <==> el.replyText.None? || el.retweetText.None? || el.likeText.None?
    ensures r != map[] ==> r.Keys == MetricNames
    ensures r != map[] ==> r["replies"] == el.replyText.value && r["retweets"] == el.retweetText.value
                           && r["likes"] == el.likeText.value
  {
    if el.replyText.Some? && el.retweetText.Some? && el.likeText.Some? then
      var m := map["replies" := el.replyText.value, "retweets" := el.retweetText.value,
                   "likes" := el.likeText.value];
      assert "replies" in m;
      m
    else
      map[]
  }

  /**
   * The fields of the `Tweet` that `extract_tweet_data` builds from `el` at
   * collection time `clock`, or `None` when any required lookup fails: an
   * invalid handle, no permalink, no `time[datetime]`, or no text container.
   */
  function ExtractRecord(el: TweetElement, clock: string): (r: Option<TweetRecord>)
    ensures r.Some? <==> ExtractUsername(el).Some? && el.permalinkHref.Some? && el.datetime.Some?
                         && el.tweetText.Some?
    ensures r.Some? ==> r.value.username == el.handleText.value && '@' in r.value.username
    ensures r.Some? ==> r.value.tweetUrl == Origin + el.permalinkHref.value
    ensures r.Some? ==> r.value.timestamp == el.datetime.value && r.value.collectionTime == clock
    ensures r.Some? ==> r.value.text == el.tweetText.value
    ensures r.Some? ==> r.value.engagement.Keys == MetricNames
    ensures r.Some? ==> r.value.engagement == if ExtractMetrics(el) == map[] then ZeroEngagement
                                              else ExtractMetrics(el)
  {
    var username := ExtractUsername(el);
    if username.None? || el.permalinkHref.None? || el.datetime.None? || el.tweetText.None? then
      None
    else
      Some(TweetRecord(username.value, el.tweetText.value, Origin + el.permalinkHref.value,
                       el.datetime.value, clock, DefaultedEngagement(Some(ExtractMetrics(el)))))
  }

  /**
   * `extract_tweet_data`: builds the `Tweet` for `el`, or answers `null` (the
   * source's `None`) when a required lookup fails. `clock` is the collection
   * time `datetime.now().isoformat()` would give.
   */
  method ExtractTweetData(el: TweetElement, clock: string) returns (t: Tweet?)
    ensures t == null <==> ExtractRecord(el, clock).None?
    ensures t != null ==> fresh(t) && t.Value() == ExtractRecord(el, clock).value
  {
    var username := ExtractUsername(el);
    if username.None? {
      return null;
    }
    if el.permalinkHref.None? {
      return null;
    }
    var tweetUrl := Origin + el.permalinkHref.value;
    if el.datetime.None? {
      return null;
    }
    var timestamp := el.datetime.value;
    if el.tweetText.None? {
      return null;
    }
    t := new Tweet(username.value, el.tweetText.value, tweetUrl, timestamp, clock,
                   Some(ExtractMetrics(el)));
  }

  /** Prefixing with the origin loses nothing: distinct hrefs give distinct URLs. */
  lemma {:induction false} OriginPrefixInjective(a: string, b: string)
    requires Origin + a == Origin + b
    ensures a == b
  {
    assert a == (Origin + a)[|Origin|..];
    assert b == (Origin + b)[|Origin|..];
  }

  /** Two extracted tweets share a URL only when their permalink hrefs are the same. */
  lemma SameUrlSamePermalink(el1: TweetElement, c1: string, el2: TweetElement, c2: string)
    requires ExtractRecord(el1, c1).Some? && ExtractRecord(el2, c2).Some?
    requires ExtractRecord(el1, c1).value.tweetUrl == ExtractRecord(el2, c2).value.tweetUrl
    ensures el1.permalinkHref == el2.permalinkHref
  {
    OriginPrefixInjective(el1.permalinkHref.value, el2.permalinkHref.value);
  }

  /** The prefix and suffix around the encoded keyword in the search URL. */
  const SearchPrefix: string := "https://twitter.com/search?q="
  const SearchSuffix: string := "&src=typed_query&f=live"

  /** The "latest" search page for a keyword already percent-encoded by `urllib.parse.quote`. */
  function SearchUrl(encodedQuery: string): (r: string)
    ensures |r| == |SearchPrefix| + |encodedQuery| + |SearchSuffix|
    ensures r[..|SearchPrefix|] == SearchPrefix && r[|r| - |SearchSuffix|..] == SearchSuffix
    ensures r[|SearchPrefix|..|r| - |SearchSuffix|] == encodedQuery
  {
    SearchPrefix + encodedQuery + SearchSuffix
  }

  /** The encoded query can be read back from the search URL, so distinct queries give distinct pages. */
  lemma SearchUrlInjective(q1: string, q2: string)
    requires SearchUrl(q1) == SearchUrl(q2)
    ensures q1 == q2
  {
  }
}
