/** `scrape_subreddit_posts`: the top submissions of a subreddit are matched
    against the NGO list; a submission matched to at least one NGO yields a content
    row, one mention row per matched NGO, and the rows of its scraped comments.

    Fetching the submissions is left out: they are an input sequence.  The date
    window test (`target_date` and `date_range` against `created_utc`) is the
    parameter `inWindow`. */
module Reddit {
  import opened Records
  import opened Ngos
  import Rows
  import RedditMatch
  import RedditComments

  type Score = RedditMatch.Score
  type Scorer = (string, string) -> Score

  const PlatformId := 1

  datatype Submission = Submission(
    id: string,
    title: string,
    selftext: string,
    url: string,
    author: Option<string>,
    /** `created_utc` already formatted as `%Y-%m-%d %H:%M:%S` */
    createdAt: string,
    score: int,
    /** `None` when the submission has no `ups` attribute */
    ups: Option<int>,
    numComments: int,
    comments: seq<RedditComments.Comment>)

  /** the content row of a kept submission; the like count is `ups` when present,
      else `score`, and the view count is `score` */
  function PostRecord(s: Submission): ContentRecord {
    ContentRecord(s.id, PlatformId, s.title, s.selftext, s.url, s.author, s.createdAt,
                  s.score, if s.ups.Some? then s.ups.value else s.score, s.numComments,
                  "Post", [("url", Some(s.url)), ("author", s.author)])
  }

  function Matches(s: Submission, ngos: seq<Ngo>, threshold: int, scorer: Scorer): set<int> {
    RedditMatch.PostMatches(ngos, RedditMatch.PostContent(s.title, s.selftext), threshold, scorer)
  }

  /** a submission inside the date window with at least one matched NGO */
  predicate Kept(s: Submission, ngos: seq<Ngo>, threshold: int, scorer: Scorer, inWindow: Submission -> bool) {
    inWindow(s) && Matches(s, ngos, threshold, scorer) != {}
  }

  function KeptBy(ngos: seq<Ngo>, threshold: int, scorer: Scorer, inWindow: Submission -> bool): Submission -> bool {
    (s: Submission) => Kept(s, ngos, threshold, scorer, inWindow)
  }

  /** one mention per matched NGO of one submission */
  function MentionsOf(ids: set<int>, postId: string): set<Mention> {
    set id | id in ids :: Mention(id, postId)
  }

  /** the mention rows of the kept submissions, as a bag (each submission's are
      written in the iteration order of a set, which is not modelled) */
  function MentionBag(subs: seq<Submission>, ngos: seq<Ngo>, threshold: int, scorer: Scorer, inWindow: Submission -> bool): multiset<Mention> {
    if subs == [] then multiset{}
    else
      var s := subs[|subs| - 1];
      MentionBag(subs[..|subs| - 1], ngos, threshold, scorer, inWindow)
        + if Kept(s, ngos, threshold, scorer, inWindow) then multiset(MentionsOf(Matches(s, ngos, threshold, scorer), s.id)) else multiset{}
  }

  /** the NGOs matched over all kept submissions */
  function FoundIds(subs: seq<Submission>, ngos: seq<Ngo>, threshold: int, scorer: Scorer, inWindow: Submission -> bool): set<int> {
    if subs == [] then {}
    else
      var s := subs[|subs| - 1];
      FoundIds(subs[..|subs| - 1], ngos, threshold, scorer, inWindow)
        + if Kept(s, ngos, threshold, scorer, inWindow) then Matches(s, ngos, threshold, scorer) else {}
  }

  /** the comment rows of the kept submissions, post after post */
  function CommentRows(subs: seq<Submission>, ngos: seq<Ngo>, threshold: int, scorer: Scorer, inWindow: Submission -> bool): seq<RedditComments.CommentRecord> {
    if subs == [] then []
    else
      var s := subs[|subs| - 1];
      CommentRows(subs[..|subs| - 1], ngos, threshold, scorer, inWindow)
        + if Kept(s, ngos, threshold, scorer, inWindow) then PostCommentRows(s) else []
  }

  function PostCommentRows(s: Submission): seq<RedditComments.CommentRecord> {
    Rows.Map(RedditComments.EmittedAsWritten(s.comments, RedditComments.MaxCommentsPerDepth, RedditComments.MaxDepthPerPost),
             RedditComments.RecordOf)
  }

  /** `for ngo_id in matched_ngos: ngo_content_data.append(...)` */
  method AppendMentions(mentions: seq<Mention>, matched: set<int>, postId: string) returns (result: seq<Mention>)
    ensures multiset(result) == multiset(mentions) + multiset(MentionsOf(matched, postId))
  {
    result := mentions;
    var remaining := matched;
    while remaining != {}
      invariant remaining <= matched
      invariant multiset(result) == multiset(mentions) + multiset(MentionsOf(matched - remaining, postId))
      decreases remaining
    {
      assert (exists x :: x in remaining) || remaining == {};
      var id :| id in remaining;
      assert MentionsOf(matched - (remaining - {id}), postId) == MentionsOf(matched - remaining, postId) + {Mention(id, postId)};
      assert Mention(id, postId) !in MentionsOf(matched - remaining, postId);
      result := result + [Mention(id, postId)];
      remaining := remaining - {id};
    }
    assert matched - remaining == matched;
  }

  method ScrapeSubredditPosts(submissions: seq<Submission>, ngos: seq<Ngo>, fuzzyThreshold: int, scorer: Scorer,
                              inWindow: Submission -> bool)
    returns (posts: seq<ContentRecord>, mentions: seq<Mention>, ngosFound: set<int>, comments: seq<RedditComments.CommentRecord>)
    ensures posts == Rows.Map(Rows.Filter(submissions, KeptBy(ngos, fuzzyThreshold, scorer, inWindow)), PostRecord)
    ensures multiset(mentions) == MentionBag(submissions, ngos, fuzzyThreshold, scorer, inWindow)
    ensures ngosFound == FoundIds(submissions, ngos, fuzzyThreshold, scorer, inWindow)
    ensures comments == CommentRows(submissions, ngos, fuzzyThreshold, scorer, inWindow)
  {
    posts, mentions, ngosFound, comments := [], [], {}, [];
    ghost var keep := KeptBy(ngos, fuzzyThreshold, scorer, inWindow);
    for i := 0 to |submissions|
      invariant posts == Rows.Map(Rows.Filter(submissions[..i], keep), PostRecord)
      invariant multiset(mentions) == MentionBag(submissions[..i], ngos, fuzzyThreshold, scorer, inWindow)
      invariant ngosFound == FoundIds(submissions[..i], ngos, fuzzyThreshold, scorer, inWindow)
      invariant comments == CommentRows(submissions[..i], ngos, fuzzyThreshold, scorer, inWindow)
    {
      var submission := submissions[i];
      PrefixStep(submissions, i, ngos, fuzzyThreshold, scorer, inWindow);
      if !inWindow(submission) {
        assert !Kept(submission, ngos, fuzzyThreshold, scorer, inWindow);
        continue;
      }
      var content := RedditMatch.PostContent(submission.title, submission.selftext);
      var matched := RedditMatch.MatchPost(content, ngos, fuzzyThreshold, scorer);
      if matched != {} {
        assert Kept(submission, ngos, fuzzyThreshold, scorer, inWindow);
        ngosFound := ngosFound + matched;
        Rows.MapAppend(Rows.Filter(submissions[..i], keep), [submission], PostRecord);
        assert Rows.Map([submission], PostRecord) == [PostRecord(submission)];
        posts := posts + [PostRecord(submission)];
        mentions := AppendMentions(mentions, matched, submission.id);
        var tree := RedditComments.ScrapePostComments(submission.comments, RedditComments.MaxCommentsPerDepth, RedditComments.MaxDepthPerPost);
        comments := comments + tree;
      }
    }
    assert submissions[..|submissions|] == submissions;
  }

  /** the specification functions over one more submission */
  lemma PrefixStep(subs: seq<Submission>, i: int, ngos: seq<Ngo>, threshold: int, scorer: Scorer, inWindow: Submission -> bool)
    requires 0 <= i < |subs|
    ensures var s, pre := subs[i], subs[..i]; var kept := Kept(s, ngos, threshold, scorer, inWindow);
      && Rows.Filter(subs[..i + 1], KeptBy(ngos, threshold, scorer, inWindow))
         == Rows.Filter(pre, KeptBy(ngos, threshold, scorer, inWindow)) + (if kept then [s] else [])
      && MentionBag(subs[..i + 1], ngos, threshold, scorer, inWindow)
         == MentionBag(pre, ngos, threshold, scorer, inWindow) + (if kept then multiset(MentionsOf(Matches(s, ngos, threshold, scorer), s.id)) else multiset{})
      && FoundIds(subs[..i + 1], ngos, threshold, scorer, inWindow)
         == FoundIds(pre, ngos, threshold, scorer, inWindow) + (if kept then Matches(s, ngos, threshold, scorer) else {})
      && CommentRows(subs[..i + 1], ngos, threshold, scorer, inWindow)
         == CommentRows(pre, ngos, threshold, scorer, inWindow) + (if kept then PostCommentRows(s) else [])
  {
    assert subs[..i + 1][..i] == subs[..i];
  }

  // ---------------------------------------------------------------------------
  // Properties

  /** The NGOs found are exactly the NGOs of the mention rows. */
  lemma {:induction false} FoundIdsAreMentioned(subs: seq<Submission>, ngos: seq<Ngo>, threshold: int, scorer: Scorer, inWindow: Submission -> bool)
    ensures FoundIds(subs, ngos, threshold, scorer, inWindow) == set m | m in MentionBag(subs, ngos, threshold, scorer, inWindow) :: m.ngoId
  {
    if subs != [] {
      var s := subs[|subs| - 1];
      var before := MentionBag(subs[..|subs| - 1], ngos, threshold, scorer, inWindow);
      var added := if Kept(s, ngos, threshold, scorer, inWindow) then MentionsOf(Matches(s, ngos, threshold, scorer), s.id) else {};
      FoundIdsAreMentioned(subs[..|subs| - 1], ngos, threshold, scorer, inWindow);
      MentionedIds(Matches(s, ngos, threshold, scorer), s.id);
      assert MentionBag(subs, ngos, threshold, scorer, inWindow) == before + multiset(added);
      IdsOfUnion(before, added);
    }
  }

  lemma MentionedIds(ids: set<int>, postId: string)
    ensures (set m | m in MentionsOf(ids, postId) :: m.ngoId) == ids
  {
    forall id | id in ids ensures id in (set m | m in MentionsOf(ids, postId) :: m.ngoId) {
      assert Mention(id, postId) in MentionsOf(ids, postId);
    }
  }

  lemma IdsOfUnion(before: multiset<Mention>, added: set<Mention>)
    ensures (set m | m in before + multiset(added) :: m.ngoId) == (set m | m in before :: m.ngoId) + (set m | m in added :: m.ngoId)
  {
  }

  /** A kept submission whose id no other submission shares has exactly one mention
      row per matched NGO and none for any other NGO; nothing else is mentioned. */
  lemma {:induction false} OneMentionPerMatch(subs: seq<Submission>, ngos: seq<Ngo>, threshold: int, scorer: Scorer, inWindow: Submission -> bool, k: int, id: int)
    requires 0 <= k < |subs|
    requires forall j | 0 <= j < |subs| && j != k :: subs[j].id != subs[k].id
    ensures MentionBag(subs, ngos, threshold, scorer, inWindow)[Mention(id, subs[k].id)]
            == if Kept(subs[k], ngos, threshold, scorer, inWindow) && id in Matches(subs[k], ngos, threshold, scorer) then 1 else 0
    decreases |subs|
  {
    var n := |subs| - 1;
    var init := subs[..n];
    var s := subs[n];
    var m := Mention(id, subs[k].id);
    if k < n {
      OneMentionPerMatch(init, ngos, threshold, scorer, inWindow, k, id);
      assert init[k] == subs[k];
      assert m !in MentionsOf(Matches(s, ngos, threshold, scorer), s.id);
    } else {
      NotMentioned(init, ngos, threshold, scorer, inWindow, m);
    }
  }

  lemma {:induction false} NotMentioned(subs: seq<Submission>, ngos: seq<Ngo>, threshold: int, scorer: Scorer, inWindow: Submission -> bool, m: Mention)
    requires forall j | 0 <= j < |subs| :: subs[j].id != m.externalContentId
    ensures m !in MentionBag(subs, ngos, threshold, scorer, inWindow)
    decreases |subs|
  {
    if subs != [] {
      NotMentioned(subs[..|subs| - 1], ngos, threshold, scorer, inWindow, m);
    }
  }

  /** Every mention names an NGO of the list and a kept submission. */
  lemma {:induction false} MentionsAreSound(subs: seq<Submission>, ngos: seq<Ngo>, threshold: int, scorer: Scorer, inWindow: Submission -> bool)
    ensures forall m | m in MentionBag(subs, ngos, threshold, scorer, inWindow) ::
      (exists i | 0 <= i < |ngos| :: ngos[i].id == m.ngoId) &&
      (exists j | 0 <= j < |subs| :: subs[j].id == m.externalContentId && Kept(subs[j], ngos, threshold, scorer, inWindow))
    decreases |subs|
  {
    if subs != [] {
      var n := |subs| - 1;
      var s := subs[n];
      var pre := subs[..n];
      var before := MentionBag(pre, ngos, threshold, scorer, inWindow);
      var added: multiset<Mention> := if Kept(s, ngos, threshold, scorer, inWindow) then multiset(MentionsOf(Matches(s, ngos, threshold, scorer), s.id)) else multiset{};
      assert MentionBag(subs, ngos, threshold, scorer, inWindow) == before + added;
      MentionsAreSound(pre, ngos, threshold, scorer, inWindow);
      RedditMatch.PostMatchesAreIds(ngos, RedditMatch.PostContent(s.title, s.selftext), threshold, scorer);
      forall m: Mention | m in before + added
        ensures (exists i | 0 <= i < |ngos| :: ngos[i].id == m.ngoId) &&
                (exists j | 0 <= j < |subs| :: subs[j].id == m.externalContentId && Kept(subs[j], ngos, threshold, scorer, inWindow))
      {
        if m in before {
          var j :| 0 <= j < n && pre[j].id == m.externalContentId && Kept(pre[j], ngos, threshold, scorer, inWindow);
          assert subs[j] == pre[j];
        } else {
          assert m in MentionsOf(Matches(s, ngos, threshold, scorer), s.id);
          assert m.ngoId in Matches(s, ngos, threshold, scorer) && m.externalContentId == s.id;
        }
      }
    }
  }

  /** Each kept submission contributes at most 12 comment rows. */
  lemma {:induction false} CommentRowsBounded(subs: seq<Submission>, ngos: seq<Ngo>, threshold: int, scorer: Scorer, inWindow: Submission -> bool)
    ensures |CommentRows(subs, ngos, threshold, scorer, inWindow)| <= 12 * |Rows.Filter(subs, KeptBy(ngos, threshold, scorer, inWindow))|
    decreases |subs|
  {
    if subs != [] {
      var s := subs[|subs| - 1];
      CommentRowsBounded(subs[..|subs| - 1], ngos, threshold, scorer, inWindow);
      RedditComments.EmittedBounded(s.comments, RedditComments.MaxCommentsPerDepth, RedditComments.MaxDepthPerPost);
      RedditComments.DefaultBound();
    }
  }
}
