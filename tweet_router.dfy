/**
 * The tweet router on the server: the `timeline` query with its cursor
 * pagination, and the `create`, `like` and `unlike` mutations, over a record
 * store that holds posts in creation-time-descending order and a set of
 * (tweet, user) like pairs.
 */
module TweetRouter {
  import opened Common
  import CreateTweet

  /** A stored post. `id` and `createdAt` are assigned by the store. */
  datatype Post = Post(id: TweetId, text: string, authorId: UserId, createdAt: int)

  /** A like record; the store identifies it by the compound key (tweetId, userId). */
  datatype LikeRow = LikeRow(tweetId: TweetId, userId: UserId)

  /** The authenticated session that a protected procedure receives. */
  datatype Session = Session(userId: UserId)

  /** One page of the timeline and the cursor of the page after it. */
  datatype TimelinePage = TimelinePage(tweets: seq<Post>, nextCursor: Option<TweetId>)

  /** The issue the input schema reports for an out-of-range `limit`. */
  datatype LimitError = LimitTooSmall | LimitTooLarge

  /** `limit: z.number().min(1).max(100).default(10)`. */
  const DefaultLimit: nat := 10
  const MinLimit: nat := 1
  const MaxLimit: nat := 100

  // ---------------------------------------------------------------------------
  // The store's ordering and identity invariants
  // ---------------------------------------------------------------------------

  /** Rows in the order of `orderBy: [{ createdAt: "desc" }]`. */
  ghost predicate SortedByTime(rows: seq<Post>)
  {
    forall i, j :: 0 <= i < j < |rows| ==> rows[i].createdAt >= rows[j].createdAt
  }

  /** No two rows share an id. */
  ghost predicate DistinctIds(rows: seq<Post>)
  {
    forall i, j :: 0 <= i < j < |rows| ==> rows[i].id != rows[j].id
  }

  /** Ids the store assigns are never the empty string. */
  ghost predicate NonEmptyIds(rows: seq<Post>)
  {
    forall i :: 0 <= i < |rows| ==> rows[i].id != ""
  }

  /** Every row can serve as a cursor that names exactly itself. */
  ghost predicate Identified(rows: seq<Post>)
  {
    DistinctIds(rows) && NonEmptyIds(rows)
  }

  ghost predicate WellFormed(rows: seq<Post>)
  {
    SortedByTime(rows) && Identified(rows)
  }

  // ---------------------------------------------------------------------------
  // Input parsing
  // ---------------------------------------------------------------------------

  /** The `limit` field of the timeline input: absent means 10, otherwise it must lie in [1, 100]. */
  function ParseLimit(limit: Option<int>): (r: Result<nat, LimitError>)
    ensures r.Ok? <==> limit.None? || MinLimit <= limit.value <= MaxLimit
    ensures limit.None? ==> r == Ok(DefaultLimit)
    ensures limit.Some? && r.Ok? ==> r.value == limit.value
    ensures r.Ok? ==> MinLimit <= r.value <= MaxLimit
    ensures r == Err(LimitTooSmall) <==> limit.Some? && limit.value < MinLimit
    ensures r == Err(LimitTooLarge) <==> limit.Some? && MaxLimit < limit.value
  {
    match limit
    case None => Ok(DefaultLimit)
    case Some(n) =>
      if n < MinLimit as int then Err(LimitTooSmall)
      else if n > MaxLimit as int then Err(LimitTooLarge)
      else Ok(n as nat)
  }

  /**
   * `cursor ? { id: cursor } : undefined`: a missing, null or empty-string
   * cursor means "start from the newest row".
   */
  function EffectiveCursor(cursor: Option<string>): (r: Option<TweetId>)
    ensures r.Some? <==> cursor.Some? && cursor.value != ""
    ensures r.Some? ==> r.value == cursor.value
  {
    match cursor
    case Some(c) => if c != "" then Some(c) else None
    case None => None
  }

  // ---------------------------------------------------------------------------
  // The store's cursor query
  // ---------------------------------------------------------------------------

  /** The position of the first row with the given id. */
  function IndexOf(rows: seq<Post>, id: TweetId): (r: Option<nat>)
    ensures r.Some? ==> r.value < |rows| && rows[r.value].id == id
    ensures r.Some? ==> forall k :: 0 <= k < r.value ==> rows[k].id != id
    ensures r.None? ==> forall k :: 0 <= k < |rows| ==> rows[k].id != id
  {
    if |rows| == 0 then None
    else if rows[0].id == id then Some(0)
    else match IndexOf(rows[1..], id)
      case None => None
      case Some(i) => Some(i + 1)
  }

  /** With distinct ids, looking up a row's id finds that row. */
  lemma IndexOfDistinct(rows: seq<Post>, k: nat)
    requires DistinctIds(rows) && k < |rows|
    ensures IndexOf(rows, rows[k].id) == Some(k)
  {
  }

  /**
   * The rows a cursor query walks: every row from the cursor row on, the
   * cursor row included (no `skip` is passed). A cursor that names no row
   * yields no rows.
   */
  function Remaining(rows: seq<Post>, cursor: Option<TweetId>): (r: seq<Post>)
    ensures cursor.None? ==> r == rows
    ensures cursor.Some? && IndexOf(rows, cursor.value).None? ==> r == []
    ensures cursor.Some? && IndexOf(rows, cursor.value).Some? ==>
      r == rows[IndexOf(rows, cursor.value).value..] && r[0].id == cursor.value
  {
    match cursor
    case None => rows
    case Some(id) =>
      match IndexOf(rows, id)
      case None => []
      case Some(s) => rows[s..]
  }

  /** `findMany({ orderBy: createdAt desc, take, cursor })`: the first `take` rows from the cursor on. */
  function FindMany(rows: seq<Post>, cursor: Option<TweetId>, take: nat): (r: seq<Post>)
    ensures |r| <= take
    ensures |r| == take || r == Remaining(rows, cursor)
    ensures r <= Remaining(rows, cursor)
  {
    var rest := Remaining(rows, cursor);
    if |rest| <= take then rest else rest[..take]
  }

  /** A slice of rows in time order is itself in time order. */
  lemma SortedSlice(rows: seq<Post>, lo: nat, hi: nat)
    requires SortedByTime(rows) && lo <= hi <= |rows|
    ensures SortedByTime(rows[lo..hi])
  {
  }

  // ---------------------------------------------------------------------------
  // One timeline page, as a function of the store
  // ---------------------------------------------------------------------------

  /**
   * The page `timeline` returns: ask the store for `limit + 1` rows; if more
   * than `limit` came back, drop the last one and return its id as the next
   * cursor; otherwise there is no next cursor.
   */
  function Page(rows: seq<Post>, cursor: Option<string>, limit: nat): (r: TimelinePage)
    ensures |r.tweets| <= limit
    ensures r.tweets <= Remaining(rows, EffectiveCursor(cursor))
    ensures r.nextCursor.Some? <==> |Remaining(rows, EffectiveCursor(cursor))| > limit
    ensures r.nextCursor.Some? ==>
      |r.tweets| == limit && r.nextCursor.value == Remaining(rows, EffectiveCursor(cursor))[limit].id
    ensures r.nextCursor.None? ==> r.tweets == Remaining(rows, EffectiveCursor(cursor))
  {
    var fetched := FindMany(rows, EffectiveCursor(cursor), limit + 1);
    if |fetched| > limit then
      TimelinePage(fetched[..|fetched| - 1], Some(fetched[|fetched| - 1].id))
    else
      TimelinePage(fetched, None)
  }

  /**
   * At most `limit + 1` rows are fetched; only the last fetched row is ever
   * removed, and its id becomes the next cursor.
   */
  lemma PagePopsOnlyLastRow(rows: seq<Post>, cursor: Option<string>, limit: nat)
    ensures var fetched := FindMany(rows, EffectiveCursor(cursor), limit + 1);
      var page := Page(rows, cursor, limit);
      && |fetched| <= limit + 1
      && (page.nextCursor.Some? ==> |fetched| == limit + 1 && fetched == page.tweets + [fetched[limit]]
                                    && page.nextCursor.value == fetched[limit].id)
      && (page.nextCursor.None? ==> page.tweets == fetched)
  {
  }

  /** Exactly `limit` matching rows give one page and no next cursor. */
  lemma ExactlyLimitRowsHaveNoNextPage(rows: seq<Post>, limit: nat)
    requires |rows| == limit
    ensures Page(rows, None, limit) == TimelinePage(rows, None)
  {
  }

  /** Rows of one page keep the store's time order. */
  lemma PageIsSorted(rows: seq<Post>, cursor: Option<string>, limit: nat)
    requires SortedByTime(rows)
    ensures SortedByTime(Page(rows, cursor, limit).tweets)
  {
    var c := EffectiveCursor(cursor);
    if c.Some? && IndexOf(rows, c.value).Some? {
      var s := IndexOf(rows, c.value).value;
      SortedSlice(rows, s, |rows|);
    }
  }

  // ---------------------------------------------------------------------------
  // Following the cursors
  // ---------------------------------------------------------------------------

  /** Where a cursor query starts in the rows (past the end when the cursor names no row). */
  function StartOf(rows: seq<Post>, cursor: Option<TweetId>): (s: nat)
    ensures s <= |rows| && Remaining(rows, cursor) == rows[s..]
  {
    if cursor.None? then 0
    else match IndexOf(rows, cursor.value)
      case Some(i) => i
      case None => |rows|
  }

  /** A page with a next cursor is followed, in the rows, by the row that cursor names. */
  lemma PageSplit(rows: seq<Post>, cursor: Option<string>, limit: nat)
    requires Page(rows, cursor, limit).nextCursor.Some?
    ensures var s, page := StartOf(rows, EffectiveCursor(cursor)), Page(rows, cursor, limit);
      && s + limit < |rows|
      && page.nextCursor.value == rows[s + limit].id
      && Remaining(rows, EffectiveCursor(cursor)) == page.tweets + rows[s + limit..]
  {
    var s := StartOf(rows, EffectiveCursor(cursor));
    var rest := Remaining(rows, EffectiveCursor(cursor));
    var page := Page(rows, cursor, limit);
    assert rest == rows[s..];
    assert page.tweets == rest[..limit];
    assert rest[limit..] == rows[s + limit..];
    assert rest == rest[..limit] + rest[limit..];
  }

  /** With identified rows, a row's own id as cursor starts the query at that row. */
  lemma CursorOfRow(rows: seq<Post>, k: nat)
    requires Identified(rows) && k < |rows|
    ensures Remaining(rows, EffectiveCursor(Some(rows[k].id))) == rows[k..]
  {
    IndexOfDistinct(rows, k);
  }

  /** After a page with a next cursor, the next query walks the rows after that page. */
  lemma RemainingAfterPage(rows: seq<Post>, cursor: Option<string>, limit: nat)
    requires Identified(rows)
    requires Page(rows, cursor, limit).nextCursor.Some?
    ensures var page := Page(rows, cursor, limit);
      Remaining(rows, EffectiveCursor(cursor)) == page.tweets + Remaining(rows, EffectiveCursor(page.nextCursor))
  {
    PageSplit(rows, cursor, limit);
    CursorOfRow(rows, StartOf(rows, EffectiveCursor(cursor)) + limit);
  }

  /** A full page in front of pages that all fit, and all but the last are full, keeps both properties. */
  lemma PrependFullPage(first: seq<Post>, tail: seq<seq<Post>>, limit: nat)
    requires |first| == limit && |tail| >= 1
    requires forall i :: 0 <= i < |tail| ==> |tail[i]| <= limit
    requires forall i :: 0 <= i < |tail| - 1 ==> |tail[i]| == limit
    ensures forall i :: 0 <= i < |[first] + tail| ==> |([first] + tail)[i]| <= limit
    ensures forall i :: 0 <= i < |[first] + tail| - 1 ==> |([first] + tail)[i]| == limit
  {
    var pages := [first] + tail;
    assert forall i :: 0 < i < |pages| ==> pages[i] == tail[i - 1];
  }

  /**
   * The pages a client gets by starting from `cursor` and passing each
   * returned `nextCursor` back until none is returned (the store unchanged
   * meanwhile).
   */
  function PagesFrom(rows: seq<Post>, cursor: Option<string>, limit: nat): (r: seq<seq<Post>>)
    requires Identified(rows) && limit >= MinLimit
    ensures |r| >= 1
    ensures forall i :: 0 <= i < |r| ==> |r[i]| <= limit
    ensures forall i :: 0 <= i < |r| - 1 ==> |r[i]| == limit
    decreases |Remaining(rows, EffectiveCursor(cursor))|
  {
    var page := Page(rows, cursor, limit);
    if page.nextCursor.None? then
      [page.tweets]
    else
      assert |Remaining(rows, EffectiveCursor(page.nextCursor))| < |Remaining(rows, EffectiveCursor(cursor))| by {
        RemainingAfterPage(rows, cursor, limit);
      }
      var tail := PagesFrom(rows, page.nextCursor, limit);
      PrependFullPage(page.tweets, tail, limit);
      [page.tweets] + tail
  }

  /** One step of following the cursors: the first page, then the pages from its next cursor. */
  lemma PagesFromStep(rows: seq<Post>, cursor: Option<string>, limit: nat)
    requires Identified(rows) && limit >= MinLimit
    requires Page(rows, cursor, limit).nextCursor.Some?
    ensures var page := Page(rows, cursor, limit);
      PagesFrom(rows, cursor, limit) == [page.tweets] + PagesFrom(rows, page.nextCursor, limit)
  {
  }

  /** Following the cursors from `cursor` yields exactly the rows from that cursor on, in order. */
  lemma {:induction false} PagesFromCoverRemaining(rows: seq<Post>, cursor: Option<string>, limit: nat)
    requires Identified(rows) && limit >= MinLimit
    ensures Concat(PagesFrom(rows, cursor, limit)) == Remaining(rows, EffectiveCursor(cursor))
    decreases |Remaining(rows, EffectiveCursor(cursor))|
  {
    var page := Page(rows, cursor, limit);
    if page.nextCursor.Some? {
      var tail := PagesFrom(rows, page.nextCursor, limit);
      var later := Remaining(rows, EffectiveCursor(page.nextCursor));
      assert Concat(PagesFrom(rows, cursor, limit)) == page.tweets + Concat(tail) by {
        PagesFromStep(rows, cursor, limit);
        ConcatCons(page.tweets, tail);
      }
      assert Remaining(rows, EffectiveCursor(cursor)) == page.tweets + later by {
        RemainingAfterPage(rows, cursor, limit);
      }
      assert Concat(tail) == later by {
        RemainingAfterPage(rows, cursor, limit);
        PagesFromCoverRemaining(rows, page.nextCursor, limit);
      }
    } else {
      ConcatCons(page.tweets, []);
    }
  }

  /**
   * Pagination completeness: starting without a cursor and following every
   * `nextCursor` until it is absent returns every stored row exactly once, in
   * the store's creation-time-descending order.
   */
  lemma PaginationComplete(rows: seq<Post>, limit: nat)
    requires WellFormed(rows) && limit >= MinLimit
    ensures Concat(PagesFrom(rows, None, limit)) == rows
    ensures SortedByTime(Concat(PagesFrom(rows, None, limit)))
    ensures DistinctIds(Concat(PagesFrom(rows, None, limit)))
  {
    PagesFromCoverRemaining(rows, None, limit);
  }

  // ---------------------------------------------------------------------------
  // Inserting a new post at its place in time order
  // ---------------------------------------------------------------------------

  /** Where the store keeps a new post: before the first row that is not newer than it. */
  function InsertByTime(rows: seq<Post>, p: Post): (r: seq<Post>)
    ensures |r| == |rows| + 1
    ensures multiset(r) == multiset(rows) + multiset{p}
    ensures forall x :: x in r <==> x in rows || x == p
  {
    if rows == [] || rows[0].createdAt <= p.createdAt then
      [p] + rows
    else
      assert rows == [rows[0]] + rows[1..];
      [rows[0]] + InsertByTime(rows[1..], p)
  }

  /** A row no newer than the one before it extends a time-ordered sequence. */
  lemma SortedCons(x: Post, rows: seq<Post>)
    requires SortedByTime(rows)
    requires forall j :: 0 <= j < |rows| ==> x.createdAt >= rows[j].createdAt
    ensures SortedByTime([x] + rows)
  {
  }

  /** Inserting a post keeps the rows in time order. */
  lemma {:induction false} InsertByTimeKeepsOrder(rows: seq<Post>, p: Post)
    requires SortedByTime(rows)
    ensures SortedByTime(InsertByTime(rows, p))
  {
    if rows != [] && rows[0].createdAt > p.createdAt {
      var tail := InsertByTime(rows[1..], p);
      InsertByTimeKeepsOrder(rows[1..], p);
      forall j | 0 <= j < |tail|
        ensures rows[0].createdAt >= tail[j].createdAt
      {
        assert tail[j] in rows[1..] || tail[j] == p;
      }
      SortedCons(rows[0], tail);
    }
  }

  /** A post with a fresh, non-empty id keeps the ids distinct and non-empty. */
  lemma {:induction false} InsertByTimeKeepsIds(rows: seq<Post>, p: Post)
    requires DistinctIds(rows) && NonEmptyIds(rows)
    requires p.id != "" && forall k :: 0 <= k < |rows| ==> rows[k].id != p.id
    ensures DistinctIds(InsertByTime(rows, p)) && NonEmptyIds(InsertByTime(rows, p))
  {
    if rows != [] && rows[0].createdAt > p.createdAt {
      InsertByTimeKeepsIds(rows[1..], p);
      var tail := InsertByTime(rows[1..], p);
      forall j | 0 <= j < |tail|
        ensures tail[j].id != rows[0].id
      {
        assert tail[j] in rows[1..] || tail[j] == p;
      }
    }
  }

  // ---------------------------------------------------------------------------
  // The store and the procedures that use it
  // ---------------------------------------------------------------------------

  /**
   * The like rows after the mutation the like button sends for a pair: the
   * pair is removed when it is stored (`unlike`) and added otherwise (`like`).
   */
  function AfterMutation(likes: set<LikeRow>, row: LikeRow): (r: set<LikeRow>)
    ensures row in r <==> row !in likes
    ensures forall other :: other != row ==> (other in r <==> other in likes)
  {
    if row in likes then likes - {row} else likes + {row}
  }

  class TweetStore {
    var posts: seq<Post>
    var likes: set<LikeRow>

    ghost predicate Valid()
      reads this
    {
      WellFormed(posts)
    }

    constructor ()
      ensures Valid() && posts == [] && likes == {}
    {
      posts := [];
      likes := {};
    }

    /**
     * `timeline`: parse `limit`, fetch `limit + 1` rows from the cursor on,
     * and pop the extra row into `nextCursor`.
     */
    method Timeline(cursor: Option<string>, limit: Option<int>) returns (r: Result<TimelinePage, LimitError>)
      requires Valid()
      ensures r.Err? <==> ParseLimit(limit).Err?
      ensures r.Err? ==> r.error == ParseLimit(limit).error
      ensures r.Ok? ==> r.value == Page(posts, cursor, ParseLimit(limit).value)
      ensures r.Ok? ==> |r.value.tweets| <= MaxLimit && SortedByTime(r.value.tweets)
    {
      var parsed := ParseLimit(limit);
      if parsed.Err? {
        return Err(parsed.error);
      }
      var take := parsed.value;
      var tweets := FindMany(posts, EffectiveCursor(cursor), take + 1);
      var nextCursor: Option<TweetId> := None;
      if |tweets| > take {
        var nextItem := tweets[|tweets| - 1];
        tweets := tweets[..|tweets| - 1];
        nextCursor := Some(nextItem.id);
      }
      r := Ok(TimelinePage(tweets, nextCursor));
      PageIsSorted(posts, cursor, take);
    }

    /**
     * `create`: the text must pass the same schema as the form; the new post
     * is owned by the session user. The store supplies a fresh, non-empty id
     * and the creation time.
     */
    method Create(session: Session, text: string, id: TweetId, createdAt: int)
      returns (r: Result<Post, CreateTweet.SchemaError>)
      requires Valid()
      requires id != "" && forall k :: 0 <= k < |posts| ==> posts[k].id != id
      modifies this`posts
      ensures Valid()
      ensures r.Err? <==> !CreateTweet.Accepts(text)
      ensures r.Err? ==> Some(r.error) == CreateTweet.ParseTweet(text) && posts == old(posts)
      ensures r.Ok? ==> r.value == Post(id, text, session.userId, createdAt)
      ensures r.Ok? ==> posts == InsertByTime(old(posts), r.value)
    {
      var issue := CreateTweet.ParseTweet(text);
      if issue.Some? {
        return Err(issue.value);
      }
      var p := Post(id, text, session.userId, createdAt);
      InsertByTimeKeepsOrder(posts, p);
      InsertByTimeKeepsIds(posts, p);
      posts := InsertByTime(posts, p);
      r := Ok(p);
    }

    /** `like`: record the pair (tweetId, session user); no other pair changes. */
    method Like(session: Session, tweetId: TweetId) returns (row: LikeRow)
      requires Valid()
      modifies this`likes
      ensures Valid()
      ensures row == LikeRow(tweetId, session.userId)
      ensures likes == old(likes) + {row}
      ensures row !in old(likes) ==> likes == AfterMutation(old(likes), row)
    {
      row := LikeRow(tweetId, session.userId);
      likes := likes + {row};
    }

    /** `unlike`: delete by the compound key (tweetId, session user); no other pair changes. */
    method Unlike(session: Session, tweetId: TweetId) returns (row: LikeRow)
      requires Valid()
      modifies this`likes
      ensures Valid()
      ensures row == LikeRow(tweetId, session.userId)
      ensures likes == old(likes) - {row}
      ensures row in old(likes) ==> likes == AfterMutation(old(likes), row)
    {
      row := LikeRow(tweetId, session.userId);
      likes := likes - {row};
    }
  }
}
