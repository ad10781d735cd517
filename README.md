# T3Twitter core, modelled in Dafny

T3Twitter is a small social feed. Signed-in users post short texts ("tweets"). Anyone can read a
reverse-chronological timeline, which loads page by page through a cursor. Signed-in users can
like and unlike tweets. This project models the application's own logic in three parts:

- **The tweet router** (`tweet_router.dfy`, module `TweetRouter`). The store is a class holding
  the posts, newest first, and the set of (tweet, user) like pairs. The `timeline` query parses
  `limit` and asks the store for `limit + 1` rows from the cursor on. If more than `limit` rows
  come back, it pops the last one and returns that row's id as `nextCursor`. `create`, `like`
  and `unlike` are methods that change the store. The main theorem, `PaginationComplete`, says
  that following `nextCursor` until it is absent returns every stored row exactly once, in order.
- **The timeline component** (`timeline.dfy`, module `Timeline`). After a like or unlike
  succeeds, a patch rewrites the cached infinite-query pages. The module also models the like
  button's choice of mutation, the flattening of the pages into the displayed list, the
  next-page guard, and a query-cache class whose entry the patch rewrites.
- **The post form** (`create_tweet.dfy`, module `CreateTweet`). The tweet schema accepts a text
  of 10 to 280 characters, and the server reuses the same schema. The form is a state machine
  over `text` and `error`, with `handleSubmit` and the mutation's `onSuccess`.

`agreement.dfy` (module `ServerClientAgreement`) states how the server counts likes for a
signed-in viewer. It proves that the client's patch after a click gives the same page the server
would return after that mutation. `common.dfy` holds `Option`, `Result`, the id types and
sequence concatenation.

Inputs the model takes as parameters:

- The session user is an explicit `Session` value.
- The store chooses a new post's id and creation time; both are arguments of `Create`.
- The scroll position is a number the scroll handler stores.
- `hasNextPage` and `isFetching` are inputs to the next-page effect.

Facts about the code that shape the model:

- **Cursor.** The cursor is the id of the popped row, the first row not returned
  (`src/server/api/routers/tweet.ts:44,72-74`). The query includes the cursor row because no
  `skip` is passed. The model's cursor query is therefore inclusive, and pagination is complete.
- **Cursor value.** `cursor ? { id: cursor } : undefined` treats an empty-string cursor like no
  cursor (`EffectiveCursor`). The store invariant therefore includes non-empty ids; an empty id
  would restart pagination from the newest row.
- **Server validation.** `create` declares `input(tweetSchema)` (`tweet.ts:5`), so `Create`
  rejects a text the schema rejects and leaves the store unchanged.
- **Which tweets the patch touches.** The patch updates every cached snapshot whose id matches.
  Page order and page membership never change.
- **Absent cache entry.** The updater dereferences `oldData.pages` unconditionally
  (`src/components/Timeline.tsx:90`), so `UpdateCache` requires the entry to be present.
- **Stale error.** After a failed submit, a later successful submit does not clear `error`
  (`src/components/CreateTweet.tsx:28-39`). `HandleSubmit` keeps it.

## Model

| member | source | states |
|---|---|---|
| CreateTweet.ParseTweet | src/components/CreateTweet.tsx:6-13 | the schema accepts exactly the texts with 10 ≤ length ≤ 280; a shorter text is reported too short, a longer one too long |
| CreateTweet.InitialTextRejected | src/components/CreateTweet.tsx:11-17 | the form's initial empty text fails validation as too short |
| CreateTweet.CreateTweetForm.constructor | src/components/CreateTweet.tsx:16-17 | a new form has `text = ""`, no error, nothing sent, and its text is rejected |
| CreateTweet.CreateTweetForm.Change | src/components/CreateTweet.tsx:47-50 | typing stores the value in `text` and changes nothing else |
| CreateTweet.CreateTweetForm.HandleSubmit | src/components/CreateTweet.tsx:28-39 | a mutation is sent iff the text passes the schema; on failure `error` is the schema's issue and nothing is sent; on success exactly the current text is sent; every text ever sent passes the schema |
| CreateTweet.CreateTweetForm.OnSuccess | src/components/CreateTweet.tsx:19-24 | on mutation success `text` becomes `""`, the timeline is invalidated once, nothing else changes |
| TweetRouter.ParseLimit | src/server/api/routers/tweet.ts:21 | `limit` is accepted iff absent or within [1, 100]; absent means 10; below 1 and above 100 are distinct errors |
| TweetRouter.EffectiveCursor | src/server/api/routers/tweet.ts:44 | a cursor takes effect iff it is present and non-empty, and then names that id |
| TweetRouter.IndexOf | src/server/api/routers/tweet.ts:44 | the cursor lookup finds the first row with the id, or reports that no row has it |
| TweetRouter.Remaining | src/server/api/routers/tweet.ts:40-44 | a cursor query walks every row from the cursor row on, cursor row included; no cursor walks all rows |
| TweetRouter.FindMany | src/server/api/routers/tweet.ts:40-44 | the store returns at most `take` rows, a prefix of the rows from the cursor on, all of them when fewer exist |
| TweetRouter.Page | src/server/api/routers/tweet.ts:70-76 | a page has at most `limit` rows and is a prefix of the rows from the cursor; `nextCursor` is present iff more than `limit` rows remain, and then it is the id of the row right after the page; otherwise the page is all remaining rows |
| TweetRouter.PagePopsOnlyLastRow | src/server/api/routers/tweet.ts:72-75 | at most `limit + 1` rows are fetched; only the last fetched row is removed, and its id is `nextCursor` |
| TweetRouter.ExactlyLimitRowsHaveNoNextPage | src/server/api/routers/tweet.ts:72 | exactly `limit` matching rows give one full page and no `nextCursor` |
| TweetRouter.PageIsSorted | src/server/api/routers/tweet.ts:42 | every page keeps the store's `createdAt`-descending order |
| TweetRouter.CursorOfRow | src/server/api/routers/tweet.ts:44 | with distinct non-empty ids, a row's own id as cursor starts the query at exactly that row |
| TweetRouter.RemainingAfterPage | src/server/api/routers/tweet.ts:43-74 | the rows from a cursor are the returned page followed by exactly the rows the returned `nextCursor` walks |
| TweetRouter.PagesFrom | src/server/api/routers/tweet.ts:40-76 | following cursors yields at least one page; every page has at most `limit` rows and every page but the last exactly `limit` |
| TweetRouter.PagesFromCoverRemaining | src/server/api/routers/tweet.ts:44-76 | the pages reached from a cursor concatenate to exactly the rows from that cursor on |
| TweetRouter.PaginationComplete | src/server/api/routers/tweet.ts:40-76 | from no cursor, following every `nextCursor` until absent returns every stored row exactly once, in `createdAt`-descending order |
| TweetRouter.InsertByTime | src/server/api/routers/tweet.ts:9-14 | a created post joins the rows, which gain exactly that post and lose nothing |
| TweetRouter.InsertByTimeKeepsOrder | src/server/api/routers/tweet.ts:9-14 | inserting a created post keeps the rows in `createdAt`-descending order |
| TweetRouter.InsertByTimeKeepsIds | src/server/api/routers/tweet.ts:9-14 | a post with a fresh, non-empty id keeps the stored ids distinct and non-empty |
| TweetRouter.TweetStore.Timeline | src/server/api/routers/tweet.ts:34-77 | an out-of-range `limit` fails with its error; otherwise the popped result is the page `Page` describes, time-ordered and at most 100 rows |
| TweetRouter.TweetStore.Create | src/server/api/routers/tweet.ts:5-15 | a text the schema rejects fails with the schema's issue and leaves the store unchanged; otherwise the new post has the given text and the session user as author, and the posts become the old posts with it inserted in time order; likes unchanged |
| TweetRouter.TweetStore.Like | src/server/api/routers/tweet.ts:85-96 | the like set gains exactly (tweetId, session user), returned as the record; posts unchanged; for a pair not yet stored this is the toggle `AfterMutation` |
| TweetRouter.TweetStore.Unlike | src/server/api/routers/tweet.ts:104-117 | the like set loses exactly the compound key (tweetId, session user); no other pair or post changes; for a stored pair this is the toggle `AfterMutation` |
| TweetRouter.AfterMutation | src/server/api/routers/tweet.ts:85-117 | the mutation the button sends toggles exactly one pair: it is stored afterwards iff it was not before, and every other pair keeps its membership |
| Timeline.PatchTweet | src/components/Timeline.tsx:89-103 | the matching tweet gets the user id appended and count +1 on like, or empty likes and count −1 on unlike (no lower bound); all its other fields are kept; any other tweet is returned unchanged |
| Timeline.PatchTweets | src/components/Timeline.tsx:92-104 | a page keeps its length and order, and each tweet is patched where it stands |
| Timeline.PatchPagesAsWritten | src/components/Timeline.tsx:90-106 | as written: the number of pages is kept, every page's tweets are patched, and every page's `nextCursor` is dropped |
| Timeline.PatchPages | src/components/Timeline.tsx:90-106 | corrected: the number of pages is kept, every page's tweets are patched, and every page's `nextCursor` is kept |
| Timeline.PatchPreservesShape | src/components/Timeline.tsx:90-111 | corrected (page fields kept, `{ ...page, tweets }`): the patch keeps the number of pages, each page's length and order, all non-patched tweets, and all fields but `likes` and the count of the patched one |
| Timeline.LikeThenUnlike | src/components/Timeline.tsx:89-98 | corrected (page fields kept): like then unlike of a tweet restores its count and leaves its likes empty; nothing else changes |
| Timeline.LikeThenUnlikeAsWritten | src/components/Timeline.tsx:89-106 | as written: like then unlike restores the tweets in the same way, but every page's `nextCursor` is gone |
| Timeline.FlattenAppend | src/components/Timeline.tsx:213 | appending a page appends its tweets to the displayed list |
| Timeline.PatchCommutesWithFlatten | src/components/Timeline.tsx:90-106 | flattening the patched pages equals patching the flattened list |
| Timeline.PatchedDisplay | src/components/Timeline.tsx:213 | after a patch the displayed list has the same length and each position holds the patched tweet from before |
| Timeline.OnClick | src/components/Timeline.tsx:180-186 | a click sends `like` for the tweet's id exactly when `likes` is empty, `unlike` otherwise (`hasLiked`, line 149) |
| Timeline.ClickToggles | src/components/Timeline.tsx:180-186 | after the clicked mutation is patched in, the next click on that tweet sends the other mutation |
| Timeline.PatchKeepsNextPageParam | src/components/Timeline.tsx:90-106 | the corrected patch leaves the next page parameter unchanged |
| Timeline.PatchAsWrittenLosesNextPageParam | src/components/Timeline.tsx:90-106 | as written, every page's cursor is gone after any like or unlike, so the next page parameter is absent |
| Timeline.PatchAsWrittenStopsScrolling | src/components/Timeline.tsx:209-221 | as written, once a like or unlike is patched in, no scroll position triggers the next page (with `hasNextPage` read as the next page parameter being present) |
| Timeline.PatchKeepsScrolling | src/components/Timeline.tsx:209-221 | corrected: after the patch, the next page is triggered exactly when it was before |
| Timeline.PatchAsWrittenCounterexample | src/components/Timeline.tsx:90-106 | a one-page cache whose next cursor is "t2" loses it under the as-written patch and keeps it under the corrected one |
| Timeline.PatchKeyAsWrittenMissesTimeline | src/components/Timeline.tsx:76-83 | the as-written patch key differs from the timeline's key, so a cache holding only the timeline's entry has nothing at the patch key |
| Timeline.QueryClient.ReceivePage | src/components/Timeline.tsx:203-213 | a fetched page and its parameter are appended to its key's entry (created if absent); other entries unchanged; the displayed list grows by exactly that page's tweets, and the next page parameter becomes that page's `nextCursor` |
| Timeline.QueryClient.UpdateCache | src/components/Timeline.tsx:76-113 | corrected: applied with the updater that keeps each page's `nextCursor` (`PatchData`), not the one at lines 90-106; only the keyed entry changes, to the patched data; the displayed list becomes the old one patched tweet by tweet; the next page parameter is kept |
| Timeline.QueryClient.PatchTimeline | src/components/Timeline.tsx:76-113 | corrected (key `{ where }`, as the timeline's query at lines 203-211 uses): a like or unlike patches exactly the entry the timeline reads; its displayed list becomes the old one patched tweet by tweet, its next page parameter is kept, and no other entry changes |
| Timeline.TimelineView.OnScroll | src/components/Timeline.tsx:37-47 | the scroll handler stores the new position |
| Timeline.TimelineView.FetchEffect | src/components/Timeline.tsx:217-221 | `fetchNextPage` is called iff the guard holds, never while a fetch is in flight, once per call at most |
| ServerClientAgreement.ViewerLikes | src/server/api/routers/tweet.ts:58-66 | the viewer's like entries for a post number at most one, and one iff the pair is stored |
| ServerClientAgreement.ViewOf | src/server/api/routers/tweet.ts:45-66 | a post is presented with its own id, text, time and author, the count of its like rows, and a like shown iff the viewer's pair is stored |
| ServerClientAgreement.ViewAfterMutation | src/components/Timeline.tsx:89-100 | for every post, the server's view after the like or unlike equals the client patch of its view before |
| ServerClientAgreement.ClickMatchesStore | src/components/Timeline.tsx:180-186 | the button sends `unlike` exactly when the store holds the viewer's pair, `like` otherwise |
| ServerClientAgreement.PatchedPageMatchesServer | src/components/Timeline.tsx:90-106 | after a click's mutation, the patched page equals the page the server would now return |

## Findings

| source | as written | input that shows it | evidently intended | confidence | as-written member | corrected member |
|---|---|---|---|---|---|---|
| src/components/Timeline.tsx:91-105 | the patch rebuilds each page as `{ tweets }`, so every page loses its `nextCursor`; `getNextPageParam` (line 209) then finds no next page | a one-page cache `[{ tweets: [t1], nextCursor: "t2" }]`, then liking `t1`; as written this shows only once the key of the next row is corrected, because with the as-written key the updater receives no entry and throws at line 90 before any cursor is lost | keep the page's other fields (`{ ...page, tweets }`) so infinite scrolling continues after a like | high for the lost cursor; medium that this hides the next page, because that rests on the infinite query reading `getNextPageParam` from the cached last page; not executed | Timeline.PatchAsWrittenCounterexample | Timeline.PatchKeepsNextPageParam |
| src/components/Timeline.tsx:228-233 | the patch's cache key uses the input `{ where, limit: LIMIT }`, but the timeline's query was created with the input `{ where }` (lines 204-207) | the home timeline (`where = {}`): the patch key has `limit: 10`, the timeline's key has no `limit` | the patch should address the timeline's own entry | medium: rests on the cache comparing keys by value, including the input object; not executed | Timeline.PatchKeyAsWrittenMissesTimeline | Timeline.QueryClient.PatchTimeline |

## Left out

- Relative-time formatting and its locale table (`Timeline.tsx:15-34,170`): library formatting.
- The scroll-percentage computation (`Timeline.tsx:36-59`): it reads the DOM and divides floating-point numbers. The position is an input to `OnScroll`.
- Rendering, images, links and styling, including `LoggedOutBanner`, `Container` and the markup of `Timeline` and `CreateTweet`.
- Router wiring in `src/server/api/root.ts`: glue only.
- The `where` author filter of `timeline` (`tweet.ts:22-31,41`) is not modelled. The pagination functions apply to any sequence of posts in time order, so they also cover a filtered sequence.
- The store query: a cursor that names no row yields no rows. This is an assumption about the store; the source does not show it.
- The store orders rows with equal `createdAt` in some way the source does not show. The model places a new post before older or equal rows.
- Fractional `limit` values: `z.number()` accepts non-integers, but `ParseLimit` takes integers only.
- The protected-procedure check that rejects a mutation without a session: that middleware is not part of this model. The mutations take an authenticated `Session`.
- The viewer-likes filter for an unauthenticated viewer (`userId` undefined, `tweet.ts:38,60`): its effect depends on the ORM, so `ViewOf` takes a signed-in viewer only.
- The patch of an absent cache entry: the updater dereferences it and throws, so `UpdateCache` requires the entry to be present.
- How the infinite query derives `hasNextPage` and `isFetching`, and the async scheduling of `mutateAsync`, `fetchNextPage` and `invalidate`. These are inputs or counters in the model.
- Schema error-message text, and the unreachable "Tweet is required" message.
- Concurrent inserts during pagination, and `console.log`.
- TweetRouter.TweetStore.Like: does not return the store's uniqueness error for a pair that already exists. The like set is unchanged in that case, which the contract covers.
- TweetRouter.TweetStore.Like: does not model the store's foreign-key error when `tweetId` names no stored post (`tweet.ts:90-95` creates a like row related to that post). The model adds the pair anyway; its contract does not relate the like set to the stored posts.
- TweetRouter.TweetStore.Unlike: does not return the store's not-found error for a pair that is absent. The like set is unchanged in that case, which the contract covers.
- Timeline.Tweet: the server returns viewer likes as `{ id, userId }` records, while the patch appends a bare user id. The model keeps user ids only, because the client reads nothing but the list's length.
- CreateTweet.ParseTweet: counts the Unicode scalar values of the text (Dafny's `char`), while the schema's `.min(10)` and `.max(280)` count JavaScript `.length`, the UTF-16 code units. A character above U+FFFF, such as an emoji, counts 1 in the model and 2 in the schema. So the two disagree on texts with such characters. Six U+1F600 emoji have length 12 in the schema and are accepted, but the model rejects them as too short; 141 to 280 of them are rejected by the schema as too long and accepted by the model. For texts of characters up to U+FFFF the two lengths agree.
