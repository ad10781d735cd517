/**
 * The client patch repeats the server's like bookkeeping: the timeline query
 * derives each post's like count and the viewer's like entries from the like
 * rows, and after a like or unlike the client edits its cached copy instead
 * of asking again. This module states the server's derivation for an
 * authenticated viewer and proves that the two agree.
 */
module ServerClientAgreement {
  import opened Common
  import opened TweetRouter
  import Timeline

  /** The like rows of one tweet (`_count: { select: { likes: true } }`). */
  function LikersOf(likes: set<LikeRow>, tweetId: TweetId): set<LikeRow>
  {
    set row | row in likes && row.tweetId == tweetId
  }

  /** The viewer's like entries of one tweet (`likes: { where: { userId } }`), by user id. */
  function ViewerLikes(likes: set<LikeRow>, tweetId: TweetId, viewer: UserId): (r: seq<UserId>)
    ensures |r| <= 1
    ensures |r| == 1 <==> LikeRow(tweetId, viewer) in likes
    ensures forall k :: 0 <= k < |r| ==> r[k] == viewer
  {
    if LikeRow(tweetId, viewer) in likes then [viewer] else []
  }

  /** How the timeline query presents a stored post to a signed-in viewer. */
  function ViewOf(p: Post, authorOf: UserId -> Timeline.Author, likes: set<LikeRow>, viewer: UserId): (t: Timeline.Tweet)
    ensures t.id == p.id && t.text == p.text && t.createdAt == p.createdAt && t.author == authorOf(p.authorId)
    ensures t.likeCount == |LikersOf(likes, p.id)|
    ensures Timeline.HasLiked(t) <==> LikeRow(p.id, viewer) in likes
  {
    Timeline.Tweet(p.id, p.text, p.createdAt, authorOf(p.authorId),
                   ViewerLikes(likes, p.id, viewer), |LikersOf(likes, p.id)|)
  }

  /** The presented posts of one page, in page order. */
  function ViewsOf(posts: seq<Post>, authorOf: UserId -> Timeline.Author, likes: set<LikeRow>, viewer: UserId)
    : seq<Timeline.Tweet>
  {
    seq(|posts|, i requires 0 <= i < |posts| => ViewOf(posts[i], authorOf, likes, viewer))
  }

  /** The mutation the store sees for a like pair: unlike when it is present, like otherwise. */
  function ActionFor(likes: set<LikeRow>, row: LikeRow): Timeline.Action
  {
    if row in likes then Timeline.Unlike else Timeline.Like
  }

  /**
   * For any post, presenting it after the like or unlike equals patching its
   * presentation from before: count up by one and the viewer's id added on a
   * like, count down by one and no entries on an unlike, nothing for other posts.
   */
  lemma ViewAfterMutation(p: Post, authorOf: UserId -> Timeline.Author, likes: set<LikeRow>,
                          tweetId: TweetId, viewer: UserId)
    ensures var row := LikeRow(tweetId, viewer);
      ViewOf(p, authorOf, AfterMutation(likes, row), viewer)
      == Timeline.PatchTweet(ViewOf(p, authorOf, likes, viewer), tweetId, viewer, ActionFor(likes, row))
  {
    var row := LikeRow(tweetId, viewer);
    var after := AfterMutation(likes, row);
    if p.id == tweetId {
      if row in likes {
        assert after == likes - {row};
        assert LikersOf(after, p.id) == LikersOf(likes, p.id) - {row};
        assert row in LikersOf(likes, p.id);
        assert |LikersOf(after, p.id)| == |LikersOf(likes, p.id)| - 1;
        assert ViewerLikes(after, p.id, viewer) == [];
      } else {
        assert after == likes + {row};
        assert LikersOf(after, p.id) == LikersOf(likes, p.id) + {row};
        assert row !in LikersOf(likes, p.id);
        assert |LikersOf(after, p.id)| == |LikersOf(likes, p.id)| + 1;
        assert ViewerLikes(likes, p.id, viewer) == [] && ViewerLikes(after, p.id, viewer) == [viewer];
      }
    } else {
      assert after == likes - {row} || after == likes + {row};
      assert LikersOf(after, p.id) == LikersOf(likes, p.id);
      assert LikeRow(p.id, viewer) in after <==> LikeRow(p.id, viewer) in likes;
    }
  }

  /**
   * The like button sends the mutation that matches the store: the viewer's
   * view of a post shows a like exactly when the store holds the pair.
   */
  lemma ClickMatchesStore(p: Post, authorOf: UserId -> Timeline.Author, likes: set<LikeRow>, viewer: UserId)
    ensures var m := Timeline.OnClick(ViewOf(p, authorOf, likes, viewer));
      m.tweetId == p.id && m.action == ActionFor(likes, LikeRow(p.id, viewer))
  {
  }

  /**
   * After the click's mutation succeeds, the patched page equals the page the
   * server would return now: the client's count and likes do not drift.
   */
  lemma {:induction false} PatchedPageMatchesServer(posts: seq<Post>, authorOf: UserId -> Timeline.Author,
                                                    likes: set<LikeRow>, p: Post, viewer: UserId)
    ensures var m := Timeline.OnClick(ViewOf(p, authorOf, likes, viewer));
      Timeline.PatchTweets(ViewsOf(posts, authorOf, likes, viewer), m.tweetId, viewer, m.action)
      == ViewsOf(posts, authorOf, AfterMutation(likes, LikeRow(p.id, viewer)), viewer)
  {
    var m := Timeline.OnClick(ViewOf(p, authorOf, likes, viewer));
    ClickMatchesStore(p, authorOf, likes, viewer);
    var before := ViewsOf(posts, authorOf, likes, viewer);
    var patched := Timeline.PatchTweets(before, m.tweetId, viewer, m.action);
    var after := ViewsOf(posts, authorOf, AfterMutation(likes, LikeRow(p.id, viewer)), viewer);
    forall i | 0 <= i < |posts|
      ensures patched[i] == after[i]
    {
      ViewAfterMutation(posts[i], authorOf, likes, p.id, viewer);
    }
  }
}
