/**
 * The `Tweet` record of src/models/tweet.py: a dataclass with five string
 * fields and an engagement dictionary that `__post_init__` fills with zero
 * counts when it was left out or given empty.
 */
module TweetModel {
  import opened Wrappers

  /** Engagement counts as the page displays them ("1.2K" stays a string). */
  type Engagement = map<string, string>

  /** The three metric names the extractor and the defaults use. */
  const MetricNames: set<string> := {"replies", "retweets", "likes"}

  /** What `__post_init__` stores when no engagement was given. */
  const ZeroEngagement: Engagement := map["replies" := "0", "retweets" := "0", "likes" := "0"]

  /** Python's `not engagement`: true of `None` and of the empty dictionary. */
  predicate Falsy(engagement: Option<Engagement>) {
    engagement == None || engagement == Some(map[])
  }

  /** The engagement a `Tweet` holds once constructed from `given`. */
  function DefaultedEngagement(given: Option<Engagement>): (r: Engagement)
    ensures r != map[]
    ensures Falsy(given) ==> r.Keys == MetricNames && forall m :: m in r ==> r[m] == "0"
    ensures !Falsy(given) ==> r == given.value
  {
    if Falsy(given) then
      assert "replies" in ZeroEngagement;
      ZeroEngagement
    else
      given.value
  }

  /** The value of every field of a constructed `Tweet`. */
  datatype TweetRecord = TweetRecord(
    username: string,
    text: string,
    tweetUrl: string,
    timestamp: string,       // the post's own time stamp, as the page gives it
    collectionTime: string,  // when the post was collected
    engagement: Engagement)

  class Tweet {
    var username: string
    var text: string
    var tweetUrl: string
    var timestamp: string
    var collectionTime: string
    var engagement: Engagement

    /** The fields of this tweet as one value. */
    function Value(): TweetRecord
      reads this
    {
      TweetRecord(username, text, tweetUrl, timestamp, collectionTime, engagement)
    }

    /**
     * The dataclass constructor followed by `__post_init__`: every field is
     * stored as given, then an engagement that is `None` or empty is replaced
     * by three zero counts; a non-empty one is kept as it is.
     */
    constructor (username: string, text: string, tweetUrl: string, timestamp: string,
                 collectionTime: string, engagement: Option<Engagement>)
      ensures this.username == username && this.text == text && this.tweetUrl == tweetUrl
      ensures this.timestamp == timestamp && this.collectionTime == collectionTime
      ensures Falsy(engagement) ==> this.engagement == ZeroEngagement
      ensures !Falsy(engagement) ==> this.engagement == engagement.value
      ensures Value() == TweetRecord(username, text, tweetUrl, timestamp, collectionTime,
                                     DefaultedEngagement(engagement))
    {
      this.username := username;
      this.text := text;
      this.tweetUrl := tweetUrl;
      this.timestamp := timestamp;
      this.collectionTime := collectionTime;
      // `None` and `{}` are both falsy, so the empty map stands for a missing dictionary
      this.engagement := engagement.GetOr(map[]);
      new;
      if this.engagement == map[] {
        this.engagement := ZeroEngagement;
      }
    }
  }
}
