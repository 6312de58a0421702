# tweets_by_keywords: the tweet extractor, modelled in Dafny

The system searches the "latest" timeline of a social-media site for a keyword.
It scrolls the page round by round and turns every visible post element into a
`Tweet` record: author handle, text, post URL, post time stamp, collection time
and engagement counts. Within one search it skips posts whose dedup key it has
already seen. It stops when it has enough posts, when the time budget is spent,
or when the page height has not changed for three rounds in a row.

The model covers the `Tweet` record and the `TweetExtractor` class.

- `wrappers.dfy`, module `Wrappers`: `Option`, which stands for Python's `None`.
- `tweet.dfy`, module `TweetModel`: the `Tweet` dataclass as a Dafny class.
  Its constructor stores the fields and then does what `__post_init__` does:
  it replaces a missing or empty engagement dictionary with three `"0"` counts.
  `TweetRecord` is the value of a constructed tweet's fields.
- `extractor.dfy`, module `TweetExtractor`: the per-element lookups.
  - A post element is a `TweetElement`. For each CSS selector the extractor
    queries, it holds the text or attribute that the lookup reads, or `None`
    when nothing matches. `None` stands for Selenium's `NoSuchElementException`.
  - `extract_username`, `extract_tweet_url` and `extract_metrics` are functions.
  - `extract_tweet_data` is a method. It allocates the `Tweet` and is proved
    against the function `ExtractRecord`.
- `search.dfy`, module `TweetSearch`: the `search_and_extract` loop.
  - The browser is an oracle: a finite sequence of `Round`s. Each round either
    says the time budget had run out when the loop checked it (`Expired`), or
    gives the page height measured and what waiting for post elements returned:
    the elements, or a wait timeout. Past the end of the sequence, time has run
    out. Every visible element comes with the clock reading that its
    extraction's `datetime.now()` would take.
  - `Run` is the loop as a function over this oracle. `SearchAndExtract` is the
    loop as the source writes it: a `while` loop that appends to `tweets`, adds
    to `processed` and updates the stagnation counter and the last height. It
    is proved to return exactly the tweets `Run` collects.
  - The lemmas state what the loop guarantees:
    - dedup on the raw href of the first `User-Name` link;
    - growth by appending only;
    - that no post is invented and none is missed;
    - the three exits;
    - when the stagnation exit happens.

The code behaves as follows where one might expect otherwise, and the model
does the same:

- A post without its text container is discarded (`extract_tweet_data` returns
  `None`). It is not kept with empty text.
- The three engagement metrics are all-or-nothing. If one is missing,
  `extract_metrics` returns `{}` and the tweet gets three `"0"` counts. The
  metrics are not optional one by one.
- Dedup is per call of `search_and_extract`, on the href of the first
  `[data-testid="User-Name"] div > a`. There is no ledger persisted across
  runs, and the stored `tweet_url` is not the key. That URL is built from a
  different anchor, the permalink beside the time stamp.
- No reply threads are followed, and nothing records success or failure per
  keyword.

## Model

| member | source | states |
|---|---|---|
| `TweetModel.DefaultedEngagement` | src/models/tweet.py:15-17 | the stored engagement is never empty: for `None` or `{}` it is the three metric names, each with `"0"`; a non-empty dictionary is kept as given |
| `TweetModel.Tweet.constructor` | src/models/tweet.py:7-17 | username, text, tweet URL, time stamp and collection time are stored exactly as given; only the engagement is touched, becoming the zero counts when `None` or empty and staying as given otherwise |
| `TweetExtractor.ExtractUsername` | src/extractors/tweet_extractor.py:12-30 | returns the span text exactly when the span exists and its text is non-empty and contains `@`; otherwise `None` |
| `TweetExtractor.ExtractTweetUrl` | src/extractors/tweet_extractor.py:69-77 | defined exactly when the `User-Name` link exists; then the result is `https://twitter.com` followed by the href, and stripping that prefix gives the href back |
| `TweetExtractor.ExtractMetrics` | src/extractors/tweet_extractor.py:79-94 | the result is `{}` exactly when any one of reply, retweet or like is missing; otherwise its keys are exactly replies/retweets/likes and it holds the three texts verbatim |
| `TweetExtractor.ExtractRecord` | src/extractors/tweet_extractor.py:32-67 | a record exists exactly when the handle is valid and the permalink, `time[datetime]` and text container all exist; a record has the span's handle, the URL `https://twitter.com` + permalink href, the `datetime` attribute verbatim, the given collection time, the text, and an engagement with exactly the three metric keys: the metric texts, or the zero counts when any metric is missing |
| `TweetExtractor.ExtractTweetData` | src/extractors/tweet_extractor.py:32-67 | returns `null` (the source's `None`) exactly when `ExtractRecord` has no record; otherwise a new `Tweet` whose fields are that record |
| `TweetExtractor.OriginPrefixInjective` | src/extractors/tweet_extractor.py:44 | prefixing with the origin is injective: equal prefixed URLs come from equal hrefs |
| `TweetExtractor.SameUrlSamePermalink` | src/extractors/tweet_extractor.py:40-44 | two extracted tweets with the same `tweet_url` had the same permalink href |
| `TweetExtractor.SearchUrl` | src/extractors/tweet_extractor.py:104-107 | the search URL is the fixed prefix, the encoded query and the fixed `&src=typed_query&f=live` suffix; the query sits between them |
| `TweetExtractor.SearchUrlInjective` | src/extractors/tweet_extractor.py:104-107 | distinct encoded queries give distinct search URLs |
| `TweetSearch.Visit` | src/extractors/tweet_extractor.py:137-151 | one element: when its key is readable, new and its extraction succeeds, the record is appended and the key marked; in every other case (no key, key already processed, failed extraction) nothing changes, so a failed extraction leaves its key unmarked; consistency (distinct keys, exactly the processed set) is kept |
| `TweetSearch.Scan` | src/extractors/tweet_extractor.py:137-151 | the inner `for` loop as a function, visiting the elements in page order; its own contract states only that the counter and last height are untouched and `processed_urls` only grows; `ScanConsistent`, `ScanGrows`, `ScanSound`, `ScanMarks` and `ScanBounds` carry the rest |
| `TweetSearch.Run` | src/extractors/tweet_extractor.py:113-155 | the `while` loop as a function from round `i` on; its own contract states only that the loop stops at round `i` or later; `RunGrows`, `RunSound`, `RunComplete`, `RunExits` and `RunStagnation` carry its properties |
| `TweetSearch.Search` | src/extractors/tweet_extractor.py:100-161 | the loop started with no tweets, an empty `processed_urls`, a zero counter and `last_height = 0`; the final state is consistent (distinct keys, exactly `processed_urls`), the counter is at most 3, and the target exit happens exactly when `len(tweets) >= target`; `SearchGuarantees` adds the rest |
| `TweetSearch.ScanConsistent` | src/extractors/tweet_extractor.py:137-151 | after a round's elements, the keys of the collected posts are still pairwise distinct and are exactly `processed_urls` |
| `TweetSearch.ScanGrows` | src/extractors/tweet_extractor.py:137-151 | a round's elements only append to the tweets and keys and only add to `processed_urls` |
| `TweetSearch.ScanSound` | src/extractors/tweet_extractor.py:139-147 | every post a round appends was produced, under the key appended with it, by an element of that round |
| `TweetSearch.ScanMarks` | src/extractors/tweet_extractor.py:139-147 | after a round, the key of every element that has a key and extracts successfully is in `processed_urls` |
| `TweetSearch.ScanBounds` | src/extractors/tweet_extractor.py:137-151 | processing elements leaves the stagnation counter and last height alone and appends at most one post per element |
| `TweetSearch.RunGrows` | src/extractors/tweet_extractor.py:113-155 | across the whole loop the keys stay pairwise distinct and equal to `processed_urls`, and `tweets` only grows by appending |
| `TweetSearch.RunSound` | src/extractors/tweet_extractor.py:113-155 | every collected post was produced under its key by an element of a round the loop scanned |
| `TweetSearch.RunComplete` | src/extractors/tweet_extractor.py:113-155 | every element of a scanned round that has a key and extracts successfully has its key in `processed_urls`; together with the consistency `RunGrows` proves, that key is the key of a collected post (combined in `SearchGuarantees`) |
| `TweetSearch.RunExits` | src/extractors/tweet_extractor.py:113-161 | the counter stays in 0..3 and is 3 exactly on the stagnation exit; the target exit happens exactly when `len(tweets) >= target`; the deadline exit only at a round whose time check failed; the wait-timeout exit only at a round whose wait timed out, returning what was collected; every earlier round was fully scanned; the target is overshot by less than the element count of the last round |
| `TweetSearch.RunStagnation` | src/extractors/tweet_extractor.py:119-128 | the counter is the number of rounds in a row whose height equalled the previous one (starting from `last_height = 0`); the stagnation exit happens at a round completing three such rounds, and no earlier round completed three |
| `TweetSearch.SearchGuarantees` | src/extractors/tweet_extractor.py:96-161 | for a whole call: distinct dedup keys equal to `processed_urls`, every post produced by a seen element, no yielding element left unmarked, the target exit exactly when the target is met, a counter of at most 3, the stagnation exit exactly at the first round completing three unchanged heights in a row, and no wait-timeout exit at such a round |
| `TweetSearch.NoNewPostsStagnates` | src/extractors/tweet_extractor.py:100-128 | a page whose height never changes and which shows no extractable post stops for stagnation with nothing collected, after exactly three scanned rounds (two when that height is 0); only the scanned rounds need to show no extractable post, the stopping round only has to measure the same height |
| `TweetSearch.SameKeyKeepsFirst` | src/extractors/tweet_extractor.py:139-147 | of two extractable elements with the same raw key, only the first is collected, whatever their permalinks |
| `TweetSearch.DistinctKeysBothKept` | src/extractors/tweet_extractor.py:139-147 | two extractable elements with different new keys are both collected, even when their `tweet_url`s coincide |
| `TweetSearch.OvershootsTarget` | src/extractors/tweet_extractor.py:113-147 | with a target of 1, a first round showing two new posts returns both: every visible element is processed, so the result can exceed the target |
| `TweetSearch.ScanPosts` | src/extractors/tweet_extractor.py:137-151 | the inner `for` loop returns tweets whose fields are exactly the posts the specification scan of the round collects, and a `processed_urls` equal to that scan's processed set |
| `TweetSearch.SearchAndExtract` | src/extractors/tweet_extractor.py:96-161 | navigates to the search URL of the quoted keyword and returns tweets whose fields are exactly the records `Run` collects from the browser's rounds |

## Left out

- src/utils/browser.py, src/savers/tweet_saver.py and src/main.py are not part of this model. They cover launching the browser, cookies, logging in, writing JSON and CSV, and reading the configuration.
- Navigating (`driver.get`), scrolling, `time.sleep` and logging do nothing in the model beyond what the browser's rounds report.
- The clock is abstract: `time.time()` against `timeout` becomes the `Expired` round, and `datetime.now().isoformat()` is the clock string attached to each element. The default `target_tweets=100` and `timeout=300` are not modelled as constants.
- `urllib.parse.quote` (percent-encoding, section 2.1 of RFC 3986) is a function parameter with no properties assumed.
- CSS selector matching is abstract: each lookup's outcome is a field of `TweetElement`. Selenium's `get_attribute("href")` on an anchor returns its resolved `href` property, which is an absolute URL, so the source stores the origin twice (`https://twitter.comhttps://x.com/u/status/1`) and its dedup keys are absolute URLs. The model keeps the href abstract: it prefixes whatever string the lookup yields, which covers that case.
- An anchor present without an `href` attribute (Selenium then returns `None`, which the source would format as `"None"` or use as a dedup key) is not modelled; a present anchor always has an href string here.
- Outer exceptions other than the wait timeout, such as `driver.get` or `execute_script` raising, are not modelled. They would end the loop and return the tweets collected so far, just as the wait timeout does.
- `presence_of_all_elements_located` returns at least one element; the model also allows an empty list, which only makes it more general.
- The `keyword` attribute that src/main.py attaches to each tweet is not a field of the dataclass and is not modelled.
- SearchAndExtract: the Tweet objects are tied to `Run` through their field values; the model does not state that they are freshly allocated.
