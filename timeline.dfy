/**
 * The timeline component on the client: the cached infinite-query pages, the
 * like/unlike patch applied to them after a mutation succeeds, the like
 * button's decision, the flattening of pages into the displayed list, and the
 * guard that asks for the next page.
 */
module Timeline {
  import opened Common

  /** The author fields the timeline query selects. */
  datatype Author = Author(id: UserId, name: Option<string>, image: Option<string>)

  /**
   * A cached tweet snapshot. `likes` holds the viewer's like entries (read only
   * through its length) by user id; `likeCount` is `_count.likes`.
   */
  datatype Tweet = Tweet(id: TweetId, text: string, createdAt: int, author: Author,
                         likes: seq<UserId>, likeCount: int)

  datatype Action = Like | Unlike

  /** A mutation the like button sends: which procedure and `{ tweetId }`. */
  datatype Mutation = Mutation(action: Action, tweetId: TweetId)

  /** One cached timeline page as the server returned it. */
  datatype Page = Page(tweets: seq<Tweet>, nextCursor: Option<TweetId>)

  /** The infinite-query cache entry: the pages and the parameters they were fetched with. */
  datatype InfiniteData = InfiniteData(pages: seq<Page>, pageParams: seq<Option<TweetId>>)

  /** The page size the timeline passes in the patch's cache key. */
  const PageLimit: int := 10

  /** The threshold, in percent of the scrollable height, that triggers the next page. */
  const ScrollThreshold: real := 90.0

  // ---------------------------------------------------------------------------
  // The patch of one tweet
  // ---------------------------------------------------------------------------

  /** Two snapshots agree on every field the patch does not write. */
  predicate SameExceptLikes(a: Tweet, b: Tweet)
  {
    a.id == b.id && a.text == b.text && a.createdAt == b.createdAt && a.author == b.author
  }

  /**
   * The inner `map` callback: the tweet whose id matches gets the user id
   * appended and the count raised by one on like, or its likes emptied and
   * the count lowered by one on unlike (with no lower bound); every other
   * tweet is returned as it is.
   */
  function PatchTweet(t: Tweet, tweetId: TweetId, userId: UserId, action: Action): (r: Tweet)
    ensures SameExceptLikes(r, t)
    ensures t.id != tweetId ==> r == t
    ensures t.id == tweetId && action == Like ==>
      r.likes == t.likes + [userId] && r.likeCount == t.likeCount + 1
    ensures t.id == tweetId && action == Unlike ==>
      r.likes == [] && r.likeCount == t.likeCount - 1
  {
    if t.id == tweetId then
      var value := if action == Like then 1 else -1;
      t.(likes := if action == Like then t.likes + [userId] else [],
         likeCount := t.likeCount + value)
    else
      t
  }

  /** `page.tweets.map(...)`: the patch applied to every tweet of a page, in place. */
  function PatchTweets(ts: seq<Tweet>, tweetId: TweetId, userId: UserId, action: Action): (r: seq<Tweet>)
    ensures |r| == |ts|
    ensures forall i :: 0 <= i < |ts| ==> r[i] == PatchTweet(ts[i], tweetId, userId, action)
  {
    if ts == [] then []
    else [PatchTweet(ts[0], tweetId, userId, action)] + PatchTweets(ts[1..], tweetId, userId, action)
  }

  lemma {:induction false} PatchTweetsAppend(a: seq<Tweet>, b: seq<Tweet>, tweetId: TweetId, userId: UserId, action: Action)
    ensures PatchTweets(a + b, tweetId, userId, action)
         == PatchTweets(a, tweetId, userId, action) + PatchTweets(b, tweetId, userId, action)
  {
    var l := PatchTweets(a + b, tweetId, userId, action);
    var r := PatchTweets(a, tweetId, userId, action) + PatchTweets(b, tweetId, userId, action);
    assert |l| == |r|;
    forall i | 0 <= i < |l|
      ensures l[i] == r[i]
    {
      if i < |a| {
        assert (a + b)[i] == a[i];
      } else {
        assert (a + b)[i] == b[i - |a|];
      }
    }
  }

  // ---------------------------------------------------------------------------
  // The patch of the cache entry
  // ---------------------------------------------------------------------------

  /**
   * `newData.pages.map((page) => ({ tweets: ... }))` as the source writes it:
   * each page is rebuilt from its tweets alone, so its `nextCursor` is lost.
   */
  function PatchPagesAsWritten(pages: seq<Page>, tweetId: TweetId, userId: UserId, action: Action): (r: seq<Page>)
    ensures |r| == |pages|
    ensures forall i :: 0 <= i < |pages| ==>
      r[i] == Page(PatchTweets(pages[i].tweets, tweetId, userId, action), None)
  {
    if pages == [] then
      []
    else
      [Page(PatchTweets(pages[0].tweets, tweetId, userId, action), None)]
      + PatchPagesAsWritten(pages[1..], tweetId, userId, action)
  }

  /** The updater as the source writes it: `{ ...newData, pages: newTweets }`. */
  function PatchDataAsWritten(d: InfiniteData, tweetId: TweetId, userId: UserId, action: Action): InfiniteData
  {
    d.(pages := PatchPagesAsWritten(d.pages, tweetId, userId, action))
  }

  /** The page patch with each page's other fields kept: `{ ...page, tweets: ... }`. */
  function PatchPages(pages: seq<Page>, tweetId: TweetId, userId: UserId, action: Action): (r: seq<Page>)
    ensures |r| == |pages|
    ensures forall i :: 0 <= i < |pages| ==>
      r[i].tweets == PatchTweets(pages[i].tweets, tweetId, userId, action) &&
      r[i].nextCursor == pages[i].nextCursor
  {
    if pages == [] then
      []
    else
      [pages[0].(tweets := PatchTweets(pages[0].tweets, tweetId, userId, action))]
      + PatchPages(pages[1..], tweetId, userId, action)
  }

  /** The updater with the page fields kept; the rest of the model uses this one. */
  function PatchData(d: InfiniteData, tweetId: TweetId, userId: UserId, action: Action): InfiniteData
  {
    d.(pages := PatchPages(d.pages, tweetId, userId, action))
  }

  /**
   * The patch keeps the number of pages, the length and order of every page,
   * and every tweet whose id is not the patched one; the patched tweet keeps
   * every field but `likes` and its count.
   */
  lemma PatchPreservesShape(d: InfiniteData, tweetId: TweetId, userId: UserId, action: Action)
    ensures var r := PatchData(d, tweetId, userId, action);
      && |r.pages| == |d.pages|
      && r.pageParams == d.pageParams
      && (forall i :: 0 <= i < |d.pages| ==>
            |r.pages[i].tweets| == |d.pages[i].tweets| && r.pages[i].nextCursor == d.pages[i].nextCursor)
      && (forall i, j :: 0 <= i < |d.pages| && 0 <= j < |d.pages[i].tweets| ==>
            SameExceptLikes(r.pages[i].tweets[j], d.pages[i].tweets[j]))
      && (forall i, j :: 0 <= i < |d.pages| && 0 <= j < |d.pages[i].tweets| && d.pages[i].tweets[j].id != tweetId ==>
            r.pages[i].tweets[j] == d.pages[i].tweets[j])
  {
  }

  /**
   * A like followed by an unlike of the same tweet gives every matching tweet
   * its original count back and leaves its likes empty; no other tweet moves.
   */
  lemma LikeThenUnlike(d: InfiniteData, tweetId: TweetId, userId: UserId)
    ensures var r := PatchData(PatchData(d, tweetId, userId, Like), tweetId, userId, Unlike);
      && |r.pages| == |d.pages|
      && forall i :: 0 <= i < |d.pages| ==>
           r.pages[i].nextCursor == d.pages[i].nextCursor &&
           |r.pages[i].tweets| == |d.pages[i].tweets| &&
           forall j :: 0 <= j < |d.pages[i].tweets| ==>
             var t, u := d.pages[i].tweets[j], r.pages[i].tweets[j];
             if t.id == tweetId then u == t.(likes := []) else u == t
  {
  }

  /**
   * The same pair of patches as the source writes the updater: the tweets come
   * back as in `LikeThenUnlike`, but every page has lost its `nextCursor`.
   */
  lemma LikeThenUnlikeAsWritten(d: InfiniteData, tweetId: TweetId, userId: UserId)
    ensures var r := PatchDataAsWritten(PatchDataAsWritten(d, tweetId, userId, Like), tweetId, userId, Unlike);
      && |r.pages| == |d.pages|
      && forall i :: 0 <= i < |d.pages| ==>
           r.pages[i].nextCursor.None? &&
           |r.pages[i].tweets| == |d.pages[i].tweets| &&
           forall j :: 0 <= j < |d.pages[i].tweets| ==>
             var t, u := d.pages[i].tweets[j], r.pages[i].tweets[j];
             if t.id == tweetId then u == t.(likes := []) else u == t
  {
  }

  // ---------------------------------------------------------------------------
  // The displayed list
  // ---------------------------------------------------------------------------

  /** The tweets of each page, page by page. */
  function PageTweets(pages: seq<Page>): (r: seq<seq<Tweet>>)
    ensures |r| == |pages|
    ensures forall i :: 0 <= i < |pages| ==> r[i] == pages[i].tweets
  {
    seq(|pages|, i requires 0 <= i < |pages| => pages[i].tweets)
  }

  /** `pages.flatMap((page) => page.tweets)`: the tweets of all pages, page after page. */
  function Flatten(pages: seq<Page>): seq<Tweet>
  {
    Concat(PageTweets(pages))
  }

  lemma FlattenCons(pages: seq<Page>)
    requires pages != []
    ensures Flatten(pages) == pages[0].tweets + Flatten(pages[1..])
  {
    assert PageTweets(pages)[1..] == PageTweets(pages[1..]);
  }

  /** `data?.pages.flatMap(...) ?? []`: nothing is shown before the first page arrives. */
  function DisplayedTweets(data: Option<InfiniteData>): seq<Tweet>
  {
    match data
    case None => []
    case Some(d) => Flatten(d.pages)
  }

  /** The displayed list grows by a page's tweets when that page is appended. */
  lemma {:induction false} FlattenAppend(pages: seq<Page>, p: Page)
    ensures Flatten(pages + [p]) == Flatten(pages) + p.tweets
  {
    if pages != [] {
      assert (pages + [p])[1..] == pages[1..] + [p];
      FlattenCons(pages + [p]);
      FlattenCons(pages);
      FlattenAppend(pages[1..], p);
    } else {
      assert pages + [p] == [p] && [p][1..] == [];
      assert Flatten([]) == [] by { assert PageTweets([]) == []; }
      FlattenCons([p]);
    }
  }

  /** Patching the cache and then flattening shows the displayed list patched tweet by tweet. */
  lemma {:induction false} PatchCommutesWithFlatten(pages: seq<Page>, tweetId: TweetId, userId: UserId, action: Action)
    ensures Flatten(PatchPages(pages, tweetId, userId, action))
         == PatchTweets(Flatten(pages), tweetId, userId, action)
  {
    if pages != [] {
      var patched := PatchPages(pages, tweetId, userId, action);
      assert patched[1..] == PatchPages(pages[1..], tweetId, userId, action);
      FlattenCons(patched);
      FlattenCons(pages);
      PatchCommutesWithFlatten(pages[1..], tweetId, userId, action);
      PatchTweetsAppend(pages[0].tweets, Flatten(pages[1..]), tweetId, userId, action);
    }
  }

  /** After a patch the displayed list has the same tweets in the same positions, each patched. */
  lemma PatchedDisplay(d: InfiniteData, tweetId: TweetId, userId: UserId, action: Action)
    ensures var before := DisplayedTweets(Some(d));
      var after := DisplayedTweets(Some(PatchData(d, tweetId, userId, action)));
      |after| == |before| &&
      forall k :: 0 <= k < |before| ==> after[k] == PatchTweet(before[k], tweetId, userId, action)
  {
    PatchCommutesWithFlatten(d.pages, tweetId, userId, action);
  }

  // ---------------------------------------------------------------------------
  // The like button and the next-page trigger
  // ---------------------------------------------------------------------------

  /** `tweet.likes.length > 0`. */
  predicate HasLiked(t: Tweet)
  {
    |t.likes| > 0
  }

  /** The click handler: send `like` when the viewer has not liked the tweet, `unlike` otherwise. */
  function OnClick(t: Tweet): (m: Mutation)
    ensures m.tweetId == t.id
    ensures m.action == Like <==> |t.likes| == 0
    ensures m.action == Unlike <==> |t.likes| > 0
  {
    if !HasLiked(t) then Mutation(Like, t.id) else Mutation(Unlike, t.id)
  }

  /**
   * Once a click's mutation succeeds and the cache is patched with it, the
   * next click on that tweet sends the other mutation.
   */
  lemma ClickToggles(t: Tweet, userId: UserId)
    ensures var m := OnClick(t);
      OnClick(PatchTweet(t, m.tweetId, userId, m.action)).action != m.action
  {
  }

  /** `getNextPageParam: (lastPage) => lastPage.nextCursor`, applied to the last cached page. */
  function NextPageParam(d: InfiniteData): Option<TweetId>
  {
    if |d.pages| == 0 then None else d.pages[|d.pages| - 1].nextCursor
  }

  /** The patch that keeps page fields leaves the next page parameter as it was. */
  lemma PatchKeepsNextPageParam(d: InfiniteData, tweetId: TweetId, userId: UserId, action: Action)
    ensures NextPageParam(PatchData(d, tweetId, userId, action)) == NextPageParam(d)
  {
  }

  /**
   * The patch as written erases every page's cursor, so after any like or
   * unlike the next page parameter is absent even when more pages exist.
   */
  lemma PatchAsWrittenLosesNextPageParam(d: InfiniteData, tweetId: TweetId, userId: UserId, action: Action)
    ensures NextPageParam(PatchDataAsWritten(d, tweetId, userId, action)).None?
    ensures forall i :: 0 <= i < |d.pages| ==>
      PatchDataAsWritten(d, tweetId, userId, action).pages[i].nextCursor.None?
  {
  }

  /** A concrete cache with a second page to load that the patch as written cuts off. */
  lemma PatchAsWrittenCounterexample()
    ensures var a := Author("u1", None, None);
      var t := Tweet("t1", "hello world", 0, a, [], 0);
      var d := InfiniteData([Page([t], Some("t2"))], [None]);
      NextPageParam(d) == Some("t2") &&
      NextPageParam(PatchDataAsWritten(d, "t1", "u2", Like)) == None &&
      NextPageParam(PatchData(d, "t1", "u2", Like)) == Some("t2")
  {
  }

  /** The effect's guard: scrolled past 90%, another page exists, and no fetch is in flight. */
  predicate ShouldFetchNextPage(scrollPosition: real, hasNextPage: bool, isFetching: bool)
  {
    scrollPosition > ScrollThreshold && hasNextPage && !isFetching
  }

  /**
   * Reading `hasNextPage` as "the next page parameter is present": once the
   * patch as written has run, no scroll position triggers the next page.
   */
  lemma PatchAsWrittenStopsScrolling(d: InfiniteData, tweetId: TweetId, userId: UserId, action: Action,
                                     scrollPosition: real, isFetching: bool)
    ensures !ShouldFetchNextPage(scrollPosition, NextPageParam(PatchDataAsWritten(d, tweetId, userId, action)).Some?,
                                 isFetching)
  {
    PatchAsWrittenLosesNextPageParam(d, tweetId, userId, action);
  }

  /** With the same reading, the corrected patch triggers the next page exactly when the old data did. */
  lemma PatchKeepsScrolling(d: InfiniteData, tweetId: TweetId, userId: UserId, action: Action,
                            scrollPosition: real, isFetching: bool)
    ensures ShouldFetchNextPage(scrollPosition, NextPageParam(PatchData(d, tweetId, userId, action)).Some?, isFetching)
        <==> ShouldFetchNextPage(scrollPosition, NextPageParam(d).Some?, isFetching)
  {
    PatchKeepsNextPageParam(d, tweetId, userId, action);
  }

  // ---------------------------------------------------------------------------
  // Query keys
  // ---------------------------------------------------------------------------

  datatype AuthorFilter = AuthorFilter(id: Option<UserId>, name: Option<string>)

  /** The timeline's `where` input; `{}` is `Where(None)`. */
  datatype Where = Where(author: Option<AuthorFilter>)

  /** A timeline input object; the key hashes it by value. */
  datatype TimelineInput = TimelineInput(where: Where, limit: Option<int>)

  /** `[["example", "timeline"], { type: "infinite", input }]`. */
  datatype QueryKey = InfiniteTimelineKey(input: TimelineInput)

  /** The key the timeline's infinite query caches its pages under: the input is `{ where }`. */
  function TimelineQueryKey(where: Where): QueryKey
  {
    InfiniteTimelineKey(TimelineInput(where, None))
  }

  /** The key the like button's patch writes to as the source builds it: `{ where, limit: LIMIT }`. */
  function PatchQueryKeyAsWritten(where: Where): QueryKey
  {
    InfiniteTimelineKey(TimelineInput(where, Some(PageLimit)))
  }

  /** The as-written patch key never names the entry the timeline created. */
  lemma PatchKeyAsWrittenMissesTimeline(where: Where, d: InfiniteData)
    ensures PatchQueryKeyAsWritten(where) != TimelineQueryKey(where)
    ensures PatchQueryKeyAsWritten(where) !in map[TimelineQueryKey(where) := d]
  {
  }

  // ---------------------------------------------------------------------------
  // The shared query cache
  // ---------------------------------------------------------------------------

  class QueryClient {
    var cache: map<QueryKey, InfiniteData>

    constructor ()
      ensures cache == map[]
    {
      cache := map[];
    }

    /** The infinite query stores a fetched page and the parameter it was fetched with. */
    method ReceivePage(key: QueryKey, param: Option<TweetId>, page: Page)
      modifies this
      ensures key in cache
      ensures key in old(cache) ==>
        cache[key] == InfiniteData(old(cache)[key].pages + [page], old(cache)[key].pageParams + [param])
      ensures key !in old(cache) ==> cache[key] == InfiniteData([page], [param])
      ensures forall k :: k != key ==> (k in cache <==> k in old(cache))
      ensures forall k :: k != key && k in cache ==> cache[k] == old(cache)[k]
      ensures DisplayedTweets(Some(cache[key]))
           == DisplayedTweets(if key in old(cache) then Some(old(cache)[key]) else None) + page.tweets
      ensures NextPageParam(cache[key]) == page.nextCursor
    {
      var entry := if key in cache then cache[key] else InfiniteData([], []);
      FlattenAppend(entry.pages, page);
      cache := cache[key := InfiniteData(entry.pages + [page], entry.pageParams + [param])];
    }

    /**
     * `setQueryData(key, updater)` with the corrected like/unlike updater
     * (`PatchData`, which keeps each page's `nextCursor`) for an entry that is
     * present: only that entry changes, and it becomes the patched data.
     */
    method UpdateCache(key: QueryKey, tweetId: TweetId, userId: UserId, action: Action)
      requires key in cache
      modifies this
      ensures cache == old(cache)[key := PatchData(old(cache)[key], tweetId, userId, action)]
      ensures cache.Keys == old(cache).Keys
      ensures DisplayedTweets(Some(cache[key]))
           == PatchTweets(DisplayedTweets(Some(old(cache)[key])), tweetId, userId, action)
      ensures NextPageParam(cache[key]) == NextPageParam(old(cache)[key])
    {
      var oldData := cache[key];
      var newData := PatchData(oldData, tweetId, userId, action);
      PatchCommutesWithFlatten(oldData.pages, tweetId, userId, action);
      PatchKeepsNextPageParam(oldData, tweetId, userId, action);
      cache := cache[key := newData];
    }

    /**
     * The like button's `onSuccess` with the patch addressed to the key the
     * timeline caches its pages under (`{ where }`, not `{ where, limit }`):
     * the entry the timeline reads is the one patched, so the displayed list
     * shows the mutation, the next page parameter is kept, and no other
     * entry changes.
     */
    method PatchTimeline(where: Where, tweetId: TweetId, userId: UserId, action: Action)
      requires TimelineQueryKey(where) in cache
      modifies this
      ensures var key := TimelineQueryKey(where);
        cache == old(cache)[key := PatchData(old(cache)[key], tweetId, userId, action)]
      ensures var key := TimelineQueryKey(where);
        DisplayedTweets(Some(cache[key]))
        == PatchTweets(DisplayedTweets(Some(old(cache)[key])), tweetId, userId, action)
      ensures var key := TimelineQueryKey(where);
        NextPageParam(cache[key]) == NextPageParam(old(cache)[key])
    {
      UpdateCache(TimelineQueryKey(where), tweetId, userId, action);
    }
  }

  /**
   * The timeline view's own state: the last scroll position the handler
   * stored and how many next-page fetches its effect has issued.
   */
  class TimelineView {
    var scrollPosition: real
    var fetchRequests: nat

    constructor ()
      ensures scrollPosition == 0.0 && fetchRequests == 0
    {
      scrollPosition := 0.0;
      fetchRequests := 0;
    }

    /** The scroll handler stores the new position (computed outside the model). */
    method OnScroll(position: real)
      modifies this`scrollPosition
      ensures scrollPosition == position
    {
      scrollPosition := position;
    }

    /** The effect: call `fetchNextPage` exactly when the guard holds. */
    method FetchEffect(hasNextPage: bool, isFetching: bool) returns (fetched: bool)
      modifies this`fetchRequests
      ensures fetched <==> ShouldFetchNextPage(scrollPosition, hasNextPage, isFetching)
      ensures isFetching ==> !fetched
      ensures fetchRequests == old(fetchRequests) + (if fetched then 1 else 0)
    {
      fetched := false;
      if ShouldFetchNextPage(scrollPosition, hasNextPage, isFetching) {
        fetchRequests := fetchRequests + 1;
        fetched := true;
      }
    }
  }
}
