/**
 * `TweetExtractor.search_and_extract` of src/extractors/tweet_extractor.py:
 * open the "latest" search page for a keyword, then scroll round by round,
 * collecting every visible post whose dedup key has not been seen in this
 * call, until enough posts are collected, the time budget runs out, or the
 * page height stays the same three rounds in a row.
 *
 * The browser is an oracle: a finite sequence of rounds, each telling whether
 * the time budget had already run out at the loop's check and, if not, the
 * page height measured and what waiting for post elements gave.
 */
module TweetSearch {
  import opened Wrappers
  import opened TweetModel
  import opened TweetExtractor

  /** One visible post element and the clock reading its extraction would take. */
  datatype Sighting = Sighting(element: TweetElement, clock: string)

  /** What waiting for `article[data-testid="tweet"]` gives: the elements, or a wait timeout. */
  datatype Visible = Posts(sightings: seq<Sighting>) | WaitTimeout

  /** One pass of the loop: the time budget has run out, or a height measure and the visible posts. */
  datatype Round = Expired | Live(height: int, visible: Visible)

  /** Rounds with the same height in a row that end the search. */
  const StagnationLimit: nat := 3

  /** The round the browser answers at index `i`; past the oracle's end, time has run out. */
  function At(rounds: seq<Round>, i: nat): Round {
    if i < |rounds| then rounds[i] else Expired
  }

  /**
   * The loop's state: the records collected (`tweets`), the dedup keys of
   * those records in the same order (a view of the model, not a variable of
   * the source), the set `processed_urls`, the counter
   * `no_new_content_count` and `last_height`.
   */
  datatype Crawl = Crawl(collected: seq<TweetRecord>, keys: seq<string>, processed: set<string>,
                         stale: nat, lastHeight: int)

  /** The state before the first round. */
  const Start: Crawl := Crawl([], [], {}, 0, 0)

  /** Why the loop stopped. */
  datatype Exit = TargetReached | DeadlinePassed | Stagnant | WaitTimedOut

  /** The final state, the reason for stopping and the index of the round at which the loop stopped. */
  datatype Outcome = Outcome(crawl: Crawl, exit: Exit, at: nat)

  /** No two positions of `keys` hold the same key. */
  ghost predicate Distinct(keys: seq<string>) {
    forall a, b :: 0 <= a < b < |keys| ==> keys[a] != keys[b]
  }

  /** One key per collected record, keys pairwise distinct, and `processed` holds exactly these keys. */
  ghost predicate Consistent(c: Crawl) {
    && |c.keys| == |c.collected|
    && Distinct(c.keys)
    && (forall x :: x in c.processed <==> x in c.keys)
  }

  /** Whether visiting `s` in state `c` appends a post: its key is readable and new, and extraction succeeds. */
  predicate Admits(c: Crawl, s: Sighting) {
    && s.element.userNameLinkHref.Some?
    && s.element.userNameLinkHref.value !in c.processed
    && ExtractRecord(s.element, s.clock).Some?
  }

  /** The body of the inner `for` loop, for one element. */
  function Visit(c: Crawl, s: Sighting): (r: Crawl)
    ensures Consistent(c) ==> Consistent(r)
    ensures r.stale == c.stale && r.lastHeight == c.lastHeight
    ensures Admits(c, s) ==> r.collected == c.collected + [ExtractRecord(s.element, s.clock).value]
                             && r.keys == c.keys + [s.element.userNameLinkHref.value]
                             && r.processed == c.processed + {s.element.userNameLinkHref.value}
    ensures !Admits(c, s) ==> r == c
  {
    match s.element.userNameLinkHref
    case None => c  // the key lookup raised: the element is skipped
    case Some(key) =>
      if key in c.processed then c
      else
        match ExtractRecord(s.element, s.clock)
        case None => c  // extraction failed: the key stays unmarked
        case Some(rec) =>
          c.(collected := c.collected + [rec], keys := c.keys + [key], processed := c.processed + {key})
  }

  /** The inner `for` loop over the visible elements, in page order. */
  function Scan(c: Crawl, ss: seq<Sighting>): (r: Crawl)
    ensures r.stale == c.stale && r.lastHeight == c.lastHeight
    ensures c.processed <= r.processed
    decreases |ss|
  {
    if ss == [] then c else Scan(Visit(c, ss[0]), ss[1..])
  }

  /** The `while` loop from round `i` on, in state `c`. */
  function Run(rounds: seq<Round>, target: int, i: nat, c: Crawl): (out: Outcome)
    ensures out.at >= i
    decreases |rounds| - i
  {
    if |c.collected| >= target then Outcome(c, TargetReached, i)
    else match At(rounds, i)
      case Expired => Outcome(c, DeadlinePassed, i)
      case Live(height, visible) =>
        var stale := if height == c.lastHeight then c.stale + 1 else 0;
        if height == c.lastHeight && stale >= StagnationLimit then Outcome(c.(stale := stale), Stagnant, i)
        else
          var c' := c.(stale := stale, lastHeight := height);
          match visible
          case WaitTimeout => Outcome(c', WaitTimedOut, i)
          case Posts(ss) => Run(rounds, target, i + 1, Scan(c', ss))
  }

  /**
   * The whole search over the browser's rounds: it starts with nothing
   * collected, a zero counter and `last_height = 0`, keeps its state
   * consistent and stops for the target exactly when the target is met.
   */
  function Search(rounds: seq<Round>, target: int): (out: Outcome)
    ensures Consistent(out.crawl)
    ensures out.crawl.stale <= StagnationLimit
    ensures out.exit == TargetReached <==> |out.crawl.collected| >= target
  {
    assert Consistent(Start);
    RunGrows(rounds, target, 0, Start);
    RunExits(rounds, target, 0, Start);
    Run(rounds, target, 0, Start)
  }

  /** Every field of `tweets` in order is `recs`. */
  ghost predicate Carries(tweets: seq<Tweet>, recs: seq<TweetRecord>)
    reads set t | t in tweets
  {
    |tweets| == |recs| && forall j :: 0 <= j < |tweets| ==> tweets[j].Value() == recs[j]
  }

  /**
   * `search_and_extract`: navigates to the search page of `keyword` (encoded
   * by `quote`) and returns the tweets the loop collects. The browser's
   * answers are `rounds`; navigation, scrolling and sleeping have no effect
   * on the model beyond those answers.
   */
  method SearchAndExtract(keyword: string, quote: string -> string, rounds: seq<Round>, target: int)
    returns (searchUrl: string, tweets: seq<Tweet>)
    ensures searchUrl == SearchUrl(quote(keyword))
    ensures Carries(tweets, Search(rounds, target).crawl.collected)
  {
    tweets := [];
    var processed: set<string> := {};
    var stale: nat := 0;
    var lastHeight: int := 0;
    ghost var recs: seq<TweetRecord> := [];
    ghost var keys: seq<string> := [];

    searchUrl := SearchUrl(quote(keyword));
    var i: nat := 0;
    while |tweets| < target && At(rounds, i).Live?
      invariant Carries(tweets, recs)
      invariant Run(rounds, target, i, Crawl(recs, keys, processed, stale, lastHeight)) == Search(rounds, target)
      decreases |rounds| - i
    {
      ghost var c := Crawl(recs, keys, processed, stale, lastHeight);
      var round := rounds[i];
      if round.height == lastHeight {
        stale := stale + 1;
        if stale >= StagnationLimit {
          break;
        }
      } else {
        stale := 0;
      }
      lastHeight := round.height;

      if round.visible.WaitTimeout? {
        // the wait raises; the outer handler returns what was collected
        return;
      }
      ghost var c' := Crawl(recs, keys, processed, stale, lastHeight);
      tweets, processed, recs, keys := ScanPosts(round.visible.sightings, tweets, processed, recs, keys, stale, lastHeight);
      assert Run(rounds, target, i, c) == Run(rounds, target, i + 1, Scan(c', round.visible.sightings));
      i := i + 1;
    }
  }

  /** The inner `for` loop of `search_and_extract` over one round's elements. */
  method ScanPosts(ss: seq<Sighting>, tweets: seq<Tweet>, processed: set<string>,
                   ghost recs: seq<TweetRecord>, ghost keys: seq<string>, stale: nat, lastHeight: int)
    returns (tweets': seq<Tweet>, processed': set<string>, ghost recs': seq<TweetRecord>, ghost keys': seq<string>)
    requires Carries(tweets, recs)
    ensures Carries(tweets', Scan(Crawl(recs, keys, processed, stale, lastHeight), ss).collected)
    ensures processed' == Scan(Crawl(recs, keys, processed, stale, lastHeight), ss).processed
    ensures Crawl(recs', keys', processed', stale, lastHeight)
            == Scan(Crawl(recs, keys, processed, stale, lastHeight), ss)
  {
    tweets', processed', recs', keys' := tweets, processed, recs, keys;
    var k := 0;
    while k < |ss|
      invariant k <= |ss|
      invariant Carries(tweets', recs')
      invariant Scan(Crawl(recs, keys, processed, stale, lastHeight), ss)
                == Scan(Crawl(recs', keys', processed', stale, lastHeight), ss[k..])
    {
      var s := ss[k];
      ghost var here := Crawl(recs', keys', processed', stale, lastHeight);
      ScanStep(here, ss, k);
      if s.element.userNameLinkHref.Some? && s.element.userNameLinkHref.value !in processed' {
        var key := s.element.userNameLinkHref.value;
        var t := ExtractTweetData(s.element, s.clock);
        if t != null {
          CarriesAppend(tweets', recs', t);
          tweets' := tweets' + [t];
          processed' := processed' + {key};
          recs' := recs' + [t.Value()];
          keys' := keys' + [key];
        }
      }
      assert Crawl(recs', keys', processed', stale, lastHeight) == Visit(here, s);
      k := k + 1;
    }
  }

  /** Scanning from position `k` is visiting element `k`, then scanning the rest. */
  lemma ScanStep(c: Crawl, ss: seq<Sighting>, k: nat)
    requires k < |ss|
    ensures Scan(c, ss[k..]) == Scan(Visit(c, ss[k]), ss[k + 1..])
  {
    assert ss[k..][1..] == ss[k + 1..];
  }

  lemma CarriesAppend(tweets: seq<Tweet>, recs: seq<TweetRecord>, t: Tweet)
    requires Carries(tweets, recs)
    ensures Carries(tweets + [t], recs + [t.Value()])
  {
  }

  // ---------------------------------------------------------------------------
  // What one round's scan guarantees
  // ---------------------------------------------------------------------------

  /** The element yields a post: its key is readable and extraction succeeds. */
  predicate Yields(s: Sighting) {
    s.element.userNameLinkHref.Some? && ExtractRecord(s.element, s.clock).Some?
  }

  /** The element has dedup key `key` and is extracted as `rec`. */
  ghost predicate Produces(s: Sighting, key: string, rec: TweetRecord) {
    s.element.userNameLinkHref == Some(key) && ExtractRecord(s.element, s.clock) == Some(rec)
  }

  /** Scanning one round keeps the keys pairwise distinct and exactly the processed set. */
  lemma {:induction false} ScanConsistent(c: Crawl, ss: seq<Sighting>)
    requires Consistent(c)
    ensures Consistent(Scan(c, ss))
    decreases |ss|
  {
    if ss != [] {
      ScanConsistent(Visit(c, ss[0]), ss[1..]);
    }
  }

  /** Scanning one round only appends to the posts and keys and only adds to the processed set. */
  lemma {:induction false} ScanGrows(c: Crawl, ss: seq<Sighting>)
    ensures var r := Scan(c, ss);
      && |c.collected| <= |r.collected| && |c.keys| <= |r.keys|
      && r.collected[..|c.collected|] == c.collected && r.keys[..|c.keys|] == c.keys
      && (|c.keys| == |c.collected| ==> |r.keys| == |r.collected|)
      && c.processed <= r.processed
    decreases |ss|
  {
    if ss != [] {
      var c1 := Visit(c, ss[0]);
      var r := Scan(c1, ss[1..]);
      ScanGrows(c1, ss[1..]);
      assert r.collected[..|c.collected|] == c.collected by {
        assert c1.collected[..|c.collected|] == c.collected;
        assert r.collected[..|c1.collected|] == c1.collected;
      }
      assert r.keys[..|c.keys|] == c.keys by {
        assert c1.keys[..|c.keys|] == c.keys;
        assert r.keys[..|c1.keys|] == c1.keys;
      }
    }
  }

  /** Every post a scan appends was produced, under the key appended with it, by an element of the round. */
  lemma {:induction false} ScanSound(c: Crawl, ss: seq<Sighting>)
    requires |c.keys| == |c.collected|
    ensures var r := Scan(c, ss);
      && |c.keys| <= |r.keys| == |r.collected|
      && (forall j :: |c.keys| <= j < |r.keys| ==>
            exists m :: 0 <= m < |ss| && Produces(ss[m], r.keys[j], r.collected[j]))
    decreases |ss|
  {
    if ss != [] {
      var c1 := Visit(c, ss[0]);
      var r := Scan(c1, ss[1..]);
      ScanSound(c1, ss[1..]);
      ScanGrows(c1, ss[1..]);
      forall j | |c.keys| <= j < |r.keys|
        ensures exists m :: 0 <= m < |ss| && Produces(ss[m], r.keys[j], r.collected[j])
      {
        if j < |c1.keys| {
          assert r.keys[j] == c1.keys[j] && r.collected[j] == c1.collected[j] by {
            assert r.keys[..|c1.keys|] == c1.keys;
            assert r.collected[..|c1.collected|] == c1.collected;
          }
          assert Produces(ss[0], r.keys[j], r.collected[j]);
        } else {
          var m :| 0 <= m < |ss[1..]| && Produces(ss[1..][m], r.keys[j], r.collected[j]);
          assert Produces(ss[m + 1], r.keys[j], r.collected[j]);
        }
      }
    }
  }

  // ---------------------------------------------------------------------------
  // What the whole loop guarantees
  // ---------------------------------------------------------------------------

  /** The posts round `r` showed, if it was a round whose posts the loop could scan. */
  function SightingsAt(rounds: seq<Round>, r: nat): seq<Sighting> {
    if Scanned(rounds, r) then rounds[r].visible.sightings else []
  }

  /** Round `r` measured a height and showed posts. */
  predicate Scanned(rounds: seq<Round>, r: nat) {
    r < |rounds| && rounds[r].Live? && rounds[r].visible.Posts?
  }

  /**
   * The loop's exits: the stagnation counter stays within 0..3 and reaches 3
   * only on the stagnation exit; the target exit happens exactly when the
   * target is met; the deadline exit only at a round whose check found time
   * up; the wait-timeout exit only at a round whose wait timed out; every
   * round before the exit was scanned; and the target is overshot by less
   * than the number of posts of the last round scanned.
   */
  lemma {:induction false} RunExits(rounds: seq<Round>, target: int, i: nat, c: Crawl)
    requires c.stale < StagnationLimit
    ensures var out := Run(rounds, target, i, c);
      && out.crawl.stale <= StagnationLimit
      && (out.exit == Stagnant <==> out.crawl.stale == StagnationLimit)
      && (out.exit == TargetReached <==> |out.crawl.collected| >= target)
      && (out.exit == DeadlinePassed ==> At(rounds, out.at).Expired?)
      && (out.exit == WaitTimedOut ==> At(rounds, out.at).Live? && At(rounds, out.at).visible.WaitTimeout?)
      && (forall r :: i <= r < out.at ==> Scanned(rounds, r))
      && (out.exit == TargetReached && out.at > i ==>
            |out.crawl.collected| < target + |SightingsAt(rounds, out.at - 1)|)
      && (out.at == i ==> out.crawl.collected == c.collected)
    decreases |rounds| - i
  {
    if |c.collected| < target && At(rounds, i).Live? {
      var height, visible := At(rounds, i).height, At(rounds, i).visible;
      var stale := if height == c.lastHeight then c.stale + 1 else 0;
      if !(height == c.lastHeight && stale >= StagnationLimit) && visible.Posts? {
        var c2 := Scan(c.(stale := stale, lastHeight := height), visible.sightings);
        ScanBounds(c.(stale := stale, lastHeight := height), visible.sightings);
        RunExits(rounds, target, i + 1, c2);
        assert Run(rounds, target, i + 1, c2) == Run(rounds, target, i, c);
        assert SightingsAt(rounds, i) == visible.sightings;
      }
    }
  }

  /** Some element of a scanned round in `lo..hi-1` has dedup key `key` and is extracted as `rec`. */
  ghost predicate ObservedIn(rounds: seq<Round>, lo: nat, hi: nat, key: string, rec: TweetRecord) {
    exists r: nat, m: nat :: lo <= r < hi && m < |SightingsAt(rounds, r)| && Produces(SightingsAt(rounds, r)[m], key, rec)
  }

  /**
   * Nothing is invented: every post the loop appends was produced, under its
   * key, by an element of a round it scanned.
   */
  lemma {:induction false} RunSound(rounds: seq<Round>, target: int, i: nat, c: Crawl)
    requires Consistent(c) && c.stale < StagnationLimit
    ensures var out := Run(rounds, target, i, c);
      && Consistent(out.crawl)
      && (forall j :: |c.keys| <= j < |out.crawl.keys| ==>
            ObservedIn(rounds, i, out.at, out.crawl.keys[j], out.crawl.collected[j]))
    decreases |rounds| - i
  {
    RunGrows(rounds, target, i, c);
    if |c.collected| < target && At(rounds, i).Live? {
      var height, visible := At(rounds, i).height, At(rounds, i).visible;
      var stale := if height == c.lastHeight then c.stale + 1 else 0;
      if !(height == c.lastHeight && stale >= StagnationLimit) && visible.Posts? {
        var ss := visible.sightings;
        var c2 := Scan(c.(stale := stale, lastHeight := height), ss);
        ScanSound(c.(stale := stale, lastHeight := height), ss);
        ScanGrows(c.(stale := stale, lastHeight := height), ss);
        ScanConsistent(c.(stale := stale, lastHeight := height), ss);
        ScanBounds(c.(stale := stale, lastHeight := height), ss);
        RunGrows(rounds, target, i + 1, c2);
        RunSound(rounds, target, i + 1, c2);
        var out := Run(rounds, target, i + 1, c2);
        assert out == Run(rounds, target, i, c);
        assert SightingsAt(rounds, i) == ss;
        forall j | |c.keys| <= j < |out.crawl.keys|
          ensures ObservedIn(rounds, i, out.at, out.crawl.keys[j], out.crawl.collected[j])
        {
          if j < |c2.keys| {
            assert out.crawl.keys[j] == c2.keys[j] && out.crawl.collected[j] == c2.collected[j] by {
              assert out.crawl.keys[..|c2.keys|] == c2.keys;
              assert out.crawl.collected[..|c2.collected|] == c2.collected;
            }
            var m :| 0 <= m < |ss| && Produces(ss[m], c2.keys[j], c2.collected[j]);
            assert Produces(SightingsAt(rounds, i)[m], out.crawl.keys[j], out.crawl.collected[j]);
          } else {
            ObservedWiden(rounds, i, i + 1, out.at, out.crawl.keys[j], out.crawl.collected[j]);
          }
        }
      }
    }
  }

  /** Seen in a range of rounds is seen in any wider range. */
  lemma ObservedWiden(rounds: seq<Round>, lo: nat, lo': nat, hi: nat, key: string, rec: TweetRecord)
    requires lo <= lo' && ObservedIn(rounds, lo', hi, key, rec)
    ensures ObservedIn(rounds, lo, hi, key, rec)
  {
  }

  /** The loop keeps its state consistent and only appends to it. */
  lemma {:induction false} RunGrows(rounds: seq<Round>, target: int, i: nat, c: Crawl)
    requires Consistent(c)
    ensures var out := Run(rounds, target, i, c);
      && Consistent(out.crawl)
      && |c.collected| <= |out.crawl.collected|
      && out.crawl.collected[..|c.collected|] == c.collected && out.crawl.keys[..|c.keys|] == c.keys
      && c.processed <= out.crawl.processed
    decreases |rounds| - i
  {
    if |c.collected| < target && At(rounds, i).Live? {
      var height, visible := At(rounds, i).height, At(rounds, i).visible;
      var stale := if height == c.lastHeight then c.stale + 1 else 0;
      if !(height == c.lastHeight && stale >= StagnationLimit) && visible.Posts? {
        var c2 := Scan(c.(stale := stale, lastHeight := height), visible.sightings);
        ScanGrows(c.(stale := stale, lastHeight := height), visible.sightings);
        ScanConsistent(c.(stale := stale, lastHeight := height), visible.sightings);
        RunGrows(rounds, target, i + 1, c2);
        var out := Run(rounds, target, i + 1, c2);
        assert out == Run(rounds, target, i, c);
        assert out.crawl.collected[..|c.collected|] == c.collected by {
          assert c2.collected[..|c.collected|] == c.collected;
          assert out.crawl.collected[..|c2.collected|] == c2.collected;
        }
        assert out.crawl.keys[..|c.keys|] == c.keys by {
          assert c2.keys[..|c.keys|] == c.keys;
          assert out.crawl.keys[..|c2.keys|] == c2.keys;
        }
      }
    }
  }

  /**
   * Nothing is missed: every element of a scanned round that yields a post
   * has its key marked as processed, so a post under that key was collected
   * in that round or earlier.
   */
  lemma {:induction false} RunComplete(rounds: seq<Round>, target: int, i: nat, c: Crawl)
    ensures var out := Run(rounds, target, i, c);
      && c.processed <= out.crawl.processed
      && forall r: nat, m: nat :: i <= r < out.at && m < |SightingsAt(rounds, r)| && Yields(SightingsAt(rounds, r)[m])
           ==> SightingsAt(rounds, r)[m].element.userNameLinkHref.value in out.crawl.processed
    decreases |rounds| - i
  {
    if |c.collected| < target && At(rounds, i).Live? {
      var height, visible := At(rounds, i).height, At(rounds, i).visible;
      var stale := if height == c.lastHeight then c.stale + 1 else 0;
      if !(height == c.lastHeight && stale >= StagnationLimit) && visible.Posts? {
        var ss := visible.sightings;
        var c2 := Scan(c.(stale := stale, lastHeight := height), ss);
        ScanMarks(c.(stale := stale, lastHeight := height), ss);
        RunComplete(rounds, target, i + 1, c2);
        assert Run(rounds, target, i + 1, c2) == Run(rounds, target, i, c);
        assert SightingsAt(rounds, i) == ss;
      }
    }
  }

  /** Scanning only adds keys, and marks the key of every element that yields a post. */
  lemma {:induction false} ScanMarks(c: Crawl, ss: seq<Sighting>)
    ensures c.processed <= Scan(c, ss).processed
    ensures forall m :: 0 <= m < |ss| && Yields(ss[m]) ==> ss[m].element.userNameLinkHref.value in Scan(c, ss).processed
    decreases |ss|
  {
    if ss != [] {
      ScanMarks(Visit(c, ss[0]), ss[1..]);
      forall m | 0 < m < |ss| && Yields(ss[m])
        ensures ss[m].element.userNameLinkHref.value in Scan(c, ss).processed
      {
        assert ss[1..][m - 1] == ss[m];
      }
    }
  }

  // ---------------------------------------------------------------------------
  // Stagnation
  // ---------------------------------------------------------------------------

  /** The height the loop compares round `r` with: the previous round's, or 0 before the first. */
  function PrevHeight(rounds: seq<Round>, r: nat): int {
    if 0 < r <= |rounds| && rounds[r - 1].Live? then rounds[r - 1].height else 0
  }

  /** Round `r` measured the same height as the one before it. */
  predicate Repeats(rounds: seq<Round>, r: nat) {
    r < |rounds| && rounds[r].Live? && rounds[r].height == PrevHeight(rounds, r)
  }

  /** Rounds `r-2`, `r-1` and `r` all repeated the height before them. */
  predicate ThreeRepeats(rounds: seq<Round>, r: nat) {
    r >= 2 && Repeats(rounds, r) && Repeats(rounds, r - 1) && Repeats(rounds, r - 2)
  }

  /** At round `i` the counter `n` is the number of rounds just before `i` that repeated their height. */
  ghost predicate CountsRepeats(rounds: seq<Round>, i: nat, n: nat) {
    && n <= i
    && (forall r: nat :: i - n <= r < i ==> Repeats(rounds, r))
    && (n < i ==> !Repeats(rounds, i - n - 1))
  }

  /**
   * The counter resets on a changed height and increments on an unchanged one,
   * so it counts the rounds in a row that repeated their height; the loop
   * stops for stagnation at the first round that completes three such rounds
   * in a row, and at no earlier round.
   */
  lemma {:induction false} RunStagnation(rounds: seq<Round>, target: int, i: nat, c: Crawl)
    requires c.lastHeight == PrevHeight(rounds, i) && c.stale < StagnationLimit
    requires forall r: nat :: r < i ==> Scanned(rounds, r)
    requires CountsRepeats(rounds, i, c.stale)
    ensures var out := Run(rounds, target, i, c);
      && (out.exit == Stagnant ==> ThreeRepeats(rounds, out.at))
      && (forall r: nat :: i <= r < out.at ==> !ThreeRepeats(rounds, r))
      && (out.exit == WaitTimedOut ==> !ThreeRepeats(rounds, out.at))
    decreases |rounds| - i
  {
    if |c.collected| < target && At(rounds, i).Live? {
      var height, visible := At(rounds, i).height, At(rounds, i).visible;
      var stale := if height == c.lastHeight then c.stale + 1 else 0;
      assert Repeats(rounds, i) <==> height == c.lastHeight;
      if ThreeRepeats(rounds, i) && stale < StagnationLimit {
        assert false;
      }
      if !(height == c.lastHeight && stale >= StagnationLimit) && visible.Posts? {
        var c2 := Scan(c.(stale := stale, lastHeight := height), visible.sightings);
        assert c2.stale == stale && c2.lastHeight == height by {
          ScanBounds(c.(stale := stale, lastHeight := height), visible.sightings);
        }
        assert PrevHeight(rounds, i + 1) == height;
        assert CountsRepeats(rounds, i + 1, stale);
        RunStagnation(rounds, target, i + 1, c2);
      }
    }
  }

  /** Scanning leaves the stagnation counter and the last height alone and adds at most one post per element. */
  lemma {:induction false} ScanBounds(c: Crawl, ss: seq<Sighting>)
    ensures var r := Scan(c, ss);
      && r.stale == c.stale && r.lastHeight == c.lastHeight
      && |c.collected| <= |r.collected| <= |c.collected| + |ss|
    decreases |ss|
  {
    if ss != [] {
      ScanBounds(Visit(c, ss[0]), ss[1..]);
    }
  }

  // ---------------------------------------------------------------------------
  // The whole search, and scenarios
  // ---------------------------------------------------------------------------

  /**
   * What one call of `search_and_extract` guarantees: the collected posts have
   * pairwise distinct dedup keys, exactly the keys in `processed_urls`; each
   * was produced under its key by an element of a scanned round; no element of
   * a scanned round that yields a post is left unmarked; the target exit
   * happens exactly when the target is met; and the stagnation exit happens
   * at the first round that completes three unchanged heights in a row.
   */
  lemma SearchGuarantees(rounds: seq<Round>, target: int)
    ensures var out := Search(rounds, target);
      && Consistent(out.crawl)
      && (forall j :: 0 <= j < |out.crawl.keys| ==>
            ObservedIn(rounds, 0, out.at, out.crawl.keys[j], out.crawl.collected[j]))
      && (forall r: nat, m: nat :: r < out.at && m < |SightingsAt(rounds, r)| && Yields(SightingsAt(rounds, r)[m])
            ==> SightingsAt(rounds, r)[m].element.userNameLinkHref.value in out.crawl.processed)
      && (out.exit == TargetReached <==> |out.crawl.collected| >= target)
      && out.crawl.stale <= StagnationLimit
      && (out.exit == Stagnant ==> ThreeRepeats(rounds, out.at))
      && (out.exit == WaitTimedOut ==> !ThreeRepeats(rounds, out.at))
      && (forall r: nat :: r < out.at ==> !ThreeRepeats(rounds, r))
  {
    assert Consistent(Start);
    RunSound(rounds, target, 0, Start);
    RunComplete(rounds, target, 0, Start);
    RunExits(rounds, target, 0, Start);
    RunStagnation(rounds, target, 0, Start);
  }

  /** A round whose elements yield no post at all. */
  predicate Barren(round: Round) {
    round.Live? && round.visible.Posts? && forall s :: s in round.visible.sightings ==> !Yields(s)
  }

  /** Scanning elements none of which yields a post changes nothing. */
  lemma {:induction false} ScanBarren(c: Crawl, ss: seq<Sighting>)
    requires forall s :: s in ss ==> !Yields(s)
    ensures Scan(c, ss) == c
    decreases |ss|
  {
    if ss != [] {
      assert ss[0] in ss;
      ScanBarren(c, ss[1..]);
    }
  }

  /**
   * A page that keeps the same height and shows no new post ends the search
   * for stagnation, with nothing collected, after exactly three scanned rounds
   * (after two when the height is 0, the value `last_height` starts from).
   */
  lemma NoNewPostsStagnates(rounds: seq<Round>, target: int, h: int)
    requires target > 0 && |rounds| >= 4
    requires forall r :: 0 <= r < 4 ==> rounds[r].Live? && rounds[r].height == h
    requires forall r :: 0 <= r < (if h == 0 then 2 else 3) ==> Barren(rounds[r])
    ensures Search(rounds, target).exit == Stagnant
    ensures Search(rounds, target).crawl.collected == []
    ensures Search(rounds, target).at == if h == 0 then 2 else 3
  {
    if h == 0 {
      ScanBarren(Start.(stale := 1), rounds[0].visible.sightings);
      ScanBarren(Start.(stale := 2), rounds[1].visible.sightings);
      assert Search(rounds, target) == Run(rounds, target, 1, Start.(stale := 1));
      assert Run(rounds, target, 1, Start.(stale := 1)) == Run(rounds, target, 2, Start.(stale := 2));
    } else {
      ScanBarren(Start.(lastHeight := h), rounds[0].visible.sightings);
      ScanBarren(Start.(stale := 1, lastHeight := h), rounds[1].visible.sightings);
      ScanBarren(Start.(stale := 2, lastHeight := h), rounds[2].visible.sightings);
      assert Search(rounds, target) == Run(rounds, target, 1, Start.(lastHeight := h));
      assert Run(rounds, target, 1, Start.(lastHeight := h)) == Run(rounds, target, 2, Start.(stale := 1, lastHeight := h));
      assert Run(rounds, target, 2, Start.(stale := 1, lastHeight := h)) == Run(rounds, target, 3, Start.(stale := 2, lastHeight := h));
    }
  }

  /**
   * The dedup key decides, not the stored URL: of two elements with the same
   * key that both yield a post, only the first is collected, even when their
   * permalinks differ.
   */
  lemma SameKeyKeepsFirst(c: Crawl, s1: Sighting, s2: Sighting)
    requires Yields(s1) && Yields(s2)
    requires s1.element.userNameLinkHref == s2.element.userNameLinkHref
    requires s1.element.userNameLinkHref.value !in c.processed
    ensures Scan(c, [s1, s2]).collected == c.collected + [ExtractRecord(s1.element, s1.clock).value]
  {
    var c1 := Visit(c, s1);
    assert [s1, s2][1..] == [s2];
    assert Scan(c, [s1, s2]) == Scan(c1, [s2]);
    assert Scan(c1, [s2]) == Visit(c1, s2);
    assert !Admits(c1, s2);
  }

  /**
   * Two elements with different new keys that both yield a post are both
   * collected, even when the posts they give have the same `tweet_url`.
   */
  lemma DistinctKeysBothKept(c: Crawl, s1: Sighting, s2: Sighting)
    requires Yields(s1) && Yields(s2)
    requires s1.element.userNameLinkHref != s2.element.userNameLinkHref
    requires s1.element.userNameLinkHref.value !in c.processed && s2.element.userNameLinkHref.value !in c.processed
    ensures Scan(c, [s1, s2]).collected
            == c.collected + [ExtractRecord(s1.element, s1.clock).value, ExtractRecord(s2.element, s2.clock).value]
  {
    var c1 := Visit(c, s1);
    assert [s1, s2][1..] == [s2];
    assert Scan(c, [s1, s2]) == Scan(c1, [s2]);
    assert Scan(c1, [s2]) == Visit(c1, s2);
    assert Admits(c1, s2);
  }

  /** A well-formed post element by `handle` whose dedup key is `key`. */
  function SamplePost(handle: string, key: string): Sighting {
    Sighting(TweetElement(Some(handle), Some(key), Some(key), Some("2024-01-01T00:00:00.000Z"), Some("hello"),
                          Some("1"), Some("2"), Some("3")), "2024-01-02T00:00:00")
  }

  /**
   * Every element visible in a round is processed, so the result can exceed
   * the target: with a target of 1, a first round showing two new posts
   * returns both.
   */
  lemma OvershootsTarget(rest: seq<Round>)
    ensures var out := Search([Live(1000, Posts([SamplePost("@a", "/a/status/1"), SamplePost("@b", "/b/status/2")]))] + rest, 1);
      out.exit == TargetReached && |out.crawl.collected| == 2
  {
    var a, b := SamplePost("@a", "/a/status/1"), SamplePost("@b", "/b/status/2");
    var rounds := [Live(1000, Posts([a, b]))] + rest;
    assert '@' in "@a" && '@' in "@b" by {
      assert "@a"[0] == '@' && "@b"[0] == '@';
    }
    assert Yields(a) && Yields(b);
    assert "/a/status/1" != "/b/status/2" by {
      assert "/a/status/1"[1] != "/b/status/2"[1];
    }
    var c0 := Start.(lastHeight := 1000);
    DistinctKeysBothKept(c0, a, b);
    assert rounds[0] == Live(1000, Posts([a, b]));
    assert Search(rounds, 1) == Run(rounds, 1, 1, Scan(c0, [a, b]));
    assert |Scan(c0, [a, b]).collected| == 2;
  }
}
