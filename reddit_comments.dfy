/** Comment scraping for one Reddit post, down to `depth` levels, each comment row
    followed by the rows of its replies.  As written, every level takes the first
    `limit` comments of `list()`, the breadth-first list of all comments below it;
    the docstring's "number of comments to scrape per depth" is modelled beside it
    as `Emitted`, which takes the first `limit` comments of the level itself.

    A comment tree is modelled after `replace_more(limit=0)` has removed the
    "load more comments" placeholders; a forest is the sequence of top-level
    comments (the `CommentForest`), and `replies` is a comment's own forest. */
module RedditComments {
  import opened Records
  import Rows

  const MaxCommentsPerDepth := 3
  const MaxDepthPerPost := 2

  datatype Comment = Comment(
    id: string,
    submissionId: string,
    author: Option<string>,
    body: string,
    /** `created_utc` already formatted as `%Y-%m-%d %H:%M:%S` */
    createdAt: string,
    ups: int,
    parentId: string,
    permalink: string,
    replies: seq<Comment>)

  datatype CommentRecord = CommentRecord(
    commentId: string,
    postExternalId: string,
    author: Option<string>,
    body: string,
    createdAt: string,
    likeCount: int,
    replyCount: int,
    parentId: string,
    metadata: Metadata)

  /** the row written for one comment; `reply_count` counts its direct replies */
  function RecordOf(c: Comment): CommentRecord {
    CommentRecord(c.id, c.submissionId, c.author, c.body, c.createdAt, c.ups,
                  |c.replies|, c.parentId, [("permalink", Some(c.permalink))])
  }

  function CommentId(c: Comment): string { c.id }

  // ---------------------------------------------------------------------------
  // Sizes

  /** the number of comments in a tree */
  function Size(c: Comment): nat
    decreases c, 1
  {
    1 + ForestSize(c.replies)
  }

  function ForestSize(cs: seq<Comment>): nat
    decreases cs, 0
  {
    if cs == [] then 0 else ForestSize(cs[..|cs| - 1]) + Size(cs[|cs| - 1])
  }

  lemma {:induction false} ForestSizeAppend(a: seq<Comment>, b: seq<Comment>)
    ensures ForestSize(a + b) == ForestSize(a) + ForestSize(b)
    decreases |b|
  {
    if b == [] {
      assert a + b == a;
    } else {
      var b' := b[..|b| - 1];
      assert (a + b)[..|a + b| - 1] == a + b';
      ForestSizeAppend(a, b');
    }
  }

  lemma PrefixSize(cs: seq<Comment>, n: nat)
    requires n <= |cs|
    ensures ForestSize(cs[..n]) <= ForestSize(cs)
  {
    var a, b := cs[..n], cs[n..];
    assert a + b == cs;
    ForestSizeAppend(a, b);
  }

  lemma {:induction false} MemberSize(cs: seq<Comment>, i: int)
    requires 0 <= i < |cs|
    ensures Size(cs[i]) <= ForestSize(cs)
    decreases |cs|
  {
    if i < |cs| - 1 {
      MemberSize(cs[..|cs| - 1], i);
    }
  }

  // ---------------------------------------------------------------------------
  // The trees' comments in two orders

  /** every comment of the forest, each before its replies (depth-first) */
  function Preorder(cs: seq<Comment>): seq<Comment>
    decreases ForestSize(cs)
  {
    if cs == [] then []
    else
      var last := cs[|cs| - 1];
      PrefixSize(cs, |cs| - 1);
      Preorder(cs[..|cs| - 1]) + [last] + Preorder(last.replies)
  }

  /** `CommentForest.list()`: every comment of the forest, level by level
      (a queue seeded with the forest; each comment popped is listed and its
      replies are queued) */
  function BfsList(queue: seq<Comment>): seq<Comment>
    decreases ForestSize(queue)
  {
    if queue == [] then []
    else
      FrontSize(queue);
      ForestSizeAppend(queue[1..], queue[0].replies);
      [queue[0]] + BfsList(queue[1..] + queue[0].replies)
  }

  lemma FrontSize(cs: seq<Comment>)
    requires cs != []
    ensures ForestSize(cs) == Size(cs[0]) + ForestSize(cs[1..])
  {
    ForestSizeAppend([cs[0]], cs[1..]);
    assert [cs[0]] + cs[1..] == cs;
    assert [cs[0]][..0] == [];
  }

  /** Each comment `list()` returns is the root of a tree no bigger than the forest. */
  lemma {:induction false} BfsListBounded(queue: seq<Comment>)
    ensures forall i | 0 <= i < |BfsList(queue)| :: Size(BfsList(queue)[i]) <= ForestSize(queue)
    decreases ForestSize(queue)
  {
    if queue != [] {
      FrontSize(queue);
      var rest := queue[1..] + queue[0].replies;
      ForestSizeAppend(queue[1..], queue[0].replies);
      BfsListBounded(rest);
      forall i | 0 <= i < |BfsList(queue)| ensures Size(BfsList(queue)[i]) <= ForestSize(queue) {
        if i > 0 { assert BfsList(queue)[i] == BfsList(rest)[i - 1]; }
      }
    }
  }

  // ---------------------------------------------------------------------------
  // Scraping, as written: each level slices `comment_forest.list()`, the
  // breadth-first list of ALL comments below it, not just its top level

  /** the comments scraped from a forest: the first `limit` comments of its
      breadth-first list, each followed by what is scraped from its replies one
      level down */
  function EmittedAsWritten(forest: seq<Comment>, limit: int, depth: int): seq<Comment>
    decreases ForestSize(forest), 1
  {
    if depth == 0 then []
    else
      var listed := BfsList(forest);
      var comments := Rows.PyPrefix(listed, limit);
      BfsListBounded(forest);
      EachAsWritten(forest, comments, limit, depth)
  }

  function EachAsWritten(root: seq<Comment>, cs: seq<Comment>, limit: int, depth: int): seq<Comment>
    requires forall i | 0 <= i < |cs| :: Size(cs[i]) <= ForestSize(root)
    decreases ForestSize(root), 0, |cs|
  {
    if cs == [] then []
    else
      var last := cs[|cs| - 1];
      assert Size(last) == 1 + ForestSize(last.replies);
      EachAsWritten(root, cs[..|cs| - 1], limit, depth) + [last] + EmittedAsWritten(last.replies, limit, depth - 1)
  }

  /** `scrape_post_comments(comment_forest, limit, depth)` */
  method ScrapePostComments(forest: seq<Comment>, limit: int, depth: int) returns (rows: seq<CommentRecord>)
    ensures rows == Rows.Map(EmittedAsWritten(forest, limit, depth), RecordOf)
    decreases ForestSize(forest)
  {
    if depth == 0 {
      return [];
    }
    var comments := Rows.PyPrefix(BfsList(forest), limit);
    UnfoldAsWritten(forest, limit, depth);
    rows := [];
    for i := 0 to |comments|
      invariant rows == Rows.Map(EachAsWritten(forest, comments[..i], limit, depth), RecordOf)
    {
      var comment := comments[i];
      assert Size(comment) == 1 + ForestSize(comment.replies);
      var childRows := ScrapePostComments(comment.replies, limit, depth - 1);
      RowsStep(forest, comments, i, limit, depth);
      rows := rows + [RecordOf(comment)] + childRows;
    }
    assert comments[..|comments|] == comments;
  }

  /** one call's comments: the first `limit` of the breadth-first list */
  lemma UnfoldAsWritten(forest: seq<Comment>, limit: int, depth: int)
    requires depth != 0
    ensures var comments := Rows.PyPrefix(BfsList(forest), limit);
      && (forall j | 0 <= j < |comments| :: Size(comments[j]) <= ForestSize(forest))
      && EmittedAsWritten(forest, limit, depth) == EachAsWritten(forest, comments, limit, depth)
  {
    var comments := Rows.PyPrefix(BfsList(forest), limit);
    BfsListBounded(forest);
    PrefixBounded(forest, comments);
  }

  /** the rows of one more comment of the level: its own, then its replies' */
  lemma RowsStep(root: seq<Comment>, cs: seq<Comment>, i: int, limit: int, depth: int)
    requires forall j | 0 <= j < |cs| :: Size(cs[j]) <= ForestSize(root)
    requires 0 <= i < |cs|
    ensures Rows.Map(EachAsWritten(root, cs[..i + 1], limit, depth), RecordOf)
         == Rows.Map(EachAsWritten(root, cs[..i], limit, depth), RecordOf) + [RecordOf(cs[i])]
            + Rows.Map(EmittedAsWritten(cs[i].replies, limit, depth - 1), RecordOf)
  {
    var done := EachAsWritten(root, cs[..i], limit, depth);
    var below := EmittedAsWritten(cs[i].replies, limit, depth - 1);
    assert cs[..i + 1][..i] == cs[..i];
    assert EachAsWritten(root, cs[..i + 1], limit, depth) == done + [cs[i]] + below;
    Rows.MapAppend(done, [cs[i]], RecordOf);
    Rows.MapAppend(done + [cs[i]], below, RecordOf);
  }

  /** an upper bound on the comments scraped: `limit` per level, each with its replies */
  function Bound(limit: nat, depth: nat): nat {
    if depth == 0 then 0 else limit * (1 + Bound(limit, depth - 1))
  }

  lemma MulMonotone(a: nat, b: nat, x: nat)
    requires a <= b
    ensures a * x <= b * x
  {
    assert b * x == a * x + (b - a) * x;
  }

  /** `n` comments' worth and one more, each at most `b` rows */
  lemma SumBound(done: nat, below: nat, n: nat, b: nat)
    requires done <= n * b && below + 1 <= b
    ensures done + 1 + below <= (n + 1) * b
  {
    MulSucc(n, b);
  }

  lemma MulSucc(a: nat, x: nat)
    ensures (a + 1) * x == a * x + x
  {
  }

  lemma DefaultBound()
    ensures Bound(MaxCommentsPerDepth, MaxDepthPerPost) == 12
  {
  }


  /** At most `Bound(limit, depth)` comments are scraped (12 for the defaults), and
      none at depth 0: `limit` per call, each followed by at most what one level
      fewer allows. */
  lemma {:induction false} EmittedBounded(forest: seq<Comment>, limit: nat, depth: nat)
    ensures |EmittedAsWritten(forest, limit, depth)| <= Bound(limit, depth)
    decreases ForestSize(forest), 1
  {
    if depth > 0 {
      var comments := Rows.PyPrefix(BfsList(forest), limit);
      UnfoldAsWritten(forest, limit, depth);
      EachAsWrittenBounded(forest, comments, limit, depth);
      MulMonotone(|comments|, limit, 1 + Bound(limit, depth - 1));
    }
  }

  lemma {:induction false} EachAsWrittenBounded(root: seq<Comment>, cs: seq<Comment>, limit: nat, depth: nat)
    requires depth > 0
    requires forall i | 0 <= i < |cs| :: Size(cs[i]) <= ForestSize(root)
    ensures |EachAsWritten(root, cs, limit, depth)| <= |cs| * (1 + Bound(limit, depth - 1))
    decreases ForestSize(root), 0, |cs|
  {
    if cs != [] {
      var last := cs[|cs| - 1];
      assert Size(last) == 1 + ForestSize(last.replies);
      var b := 1 + Bound(limit, depth - 1);
      EachAsWrittenBounded(root, cs[..|cs| - 1], limit, depth);
      EmittedBounded(last.replies, limit, depth - 1);
      SumBound(|EachAsWritten(root, cs[..|cs| - 1], limit, depth)|, |EmittedAsWritten(last.replies, limit, depth - 1)|, |cs| - 1, b);
    }
  }

  /** the comments taken from the breadth-first list root trees no bigger than the forest */
  lemma PrefixBounded(forest: seq<Comment>, comments: seq<Comment>)
    requires forall i | 0 <= i < |BfsList(forest)| :: Size(BfsList(forest)[i]) <= ForestSize(forest)
    requires |comments| <= |BfsList(forest)| && comments == BfsList(forest)[..|comments|]
    ensures forall i | 0 <= i < |comments| :: Size(comments[i]) <= ForestSize(forest)
  {
    forall i | 0 <= i < |comments| ensures Size(comments[i]) <= ForestSize(forest) {
      assert comments[i] == BfsList(forest)[i];
    }
  }

  /** Every comment scraped is a comment of the tree. */
  lemma {:induction false} AsWrittenInTree(forest: seq<Comment>, limit: int, depth: int)
    ensures forall x | x in EmittedAsWritten(forest, limit, depth) :: x in Preorder(forest)
    decreases ForestSize(forest), 1
  {
    if depth != 0 {
      var comments := Rows.PyPrefix(BfsList(forest), limit);
      UnfoldAsWritten(forest, limit, depth);
      BfsInPreorder(forest);
      forall i | 0 <= i < |comments| ensures comments[i] in Preorder(forest) {
        assert comments[i] == BfsList(forest)[i];
      }
      EachAsWrittenInTree(forest, comments, limit, depth);
    }
  }

  lemma {:induction false} EachAsWrittenInTree(root: seq<Comment>, cs: seq<Comment>, limit: int, depth: int)
    requires forall i | 0 <= i < |cs| :: Size(cs[i]) <= ForestSize(root)
    requires forall i | 0 <= i < |cs| :: cs[i] in Preorder(root)
    ensures forall x | x in EachAsWritten(root, cs, limit, depth) :: x in Preorder(root)
    decreases ForestSize(root), 0, |cs|
  {
    if cs != [] {
      var last := cs[|cs| - 1];
      assert Size(last) == 1 + ForestSize(last.replies);
      EachAsWrittenInTree(root, cs[..|cs| - 1], limit, depth);
      AsWrittenInTree(last.replies, limit, depth - 1);
      RepliesInPreorder(root);
    }
  }

  /** Each scraped row describes a comment of the tree: its id, post, author, body,
      date, votes and parent, and as reply count the number of that comment's direct
      replies. At depth 0 nothing is scraped. */
  lemma RowsDescribeComments(forest: seq<Comment>, limit: int, depth: int, k: int)
    requires 0 <= k < |Rows.Map(EmittedAsWritten(forest, limit, depth), RecordOf)|
    ensures var r := Rows.Map(EmittedAsWritten(forest, limit, depth), RecordOf)[k];
      exists c | c in Preorder(forest) ::
        && r.commentId == c.id && r.postExternalId == c.submissionId && r.author == c.author
        && r.body == c.body && r.createdAt == c.createdAt && r.likeCount == c.ups
        && r.parentId == c.parentId && r.replyCount == |c.replies|
    ensures EmittedAsWritten(forest, limit, 0) == []
  {
    var c := EmittedAsWritten(forest, limit, depth)[k];
    AsWrittenInTree(forest, limit, depth);
    assert c in Preorder(forest);
  }

  /** With one level, the first `limit` comments of the breadth-first list are
      scraped; they are the first `limit` top-level comments only when the forest
      has that many. */
  lemma OneLevelAsWritten(forest: seq<Comment>, limit: int)
    ensures EmittedAsWritten(forest, limit, 1) == Rows.PyPrefix(BfsList(forest), limit)
    ensures 0 <= limit <= |forest| ==> EmittedAsWritten(forest, limit, 1) == Rows.PyPrefix(forest, limit)
  {
    var comments := Rows.PyPrefix(BfsList(forest), limit);
    UnfoldAsWritten(forest, limit, 1);
    EachAsWrittenOneLevel(forest, comments, limit);
    BfsListStartsWithQueue(forest);
    if 0 <= limit <= |forest| {
      assert BfsList(forest)[..limit] == forest[..limit];
    }
  }

  lemma {:induction false} EachAsWrittenOneLevel(root: seq<Comment>, cs: seq<Comment>, limit: int)
    requires forall i | 0 <= i < |cs| :: Size(cs[i]) <= ForestSize(root)
    ensures EachAsWritten(root, cs, limit, 1) == cs
    decreases |cs|
  {
    if cs != [] {
      EachAsWrittenOneLevel(root, cs[..|cs| - 1], limit);
      assert cs[..|cs| - 1] + [cs[|cs| - 1]] == cs;
    }
  }

  // ---------------------------------------------------------------------------
  // The two orders related

  /** `list()` starts with the forest's own comments, in order. */
  lemma {:induction false} BfsListStartsWithQueue(queue: seq<Comment>)
    ensures |queue| <= |BfsList(queue)| && BfsList(queue)[..|queue|] == queue
    decreases ForestSize(queue)
  {
    if queue != [] {
      var rest := queue[1..] + queue[0].replies;
      FrontSize(queue);
      ForestSizeAppend(queue[1..], queue[0].replies);
      BfsListStartsWithQueue(rest);
      assert BfsList(queue) == [queue[0]] + BfsList(rest);
      assert BfsList(rest)[..|queue| - 1] == queue[1..];
      assert BfsList(queue)[..|queue|] == [queue[0]] + BfsList(rest)[..|queue| - 1];
    }
  }

  lemma {:induction false} PreorderFront(queue: seq<Comment>)
    requires queue != []
    ensures Preorder(queue) == [queue[0]] + Preorder(queue[0].replies) + Preorder(queue[1..])
  {
    var first := queue[0];
    PreorderAppend([first], queue[1..]);
    assert [first] + queue[1..] == queue;
    assert [first][..0] == [];
    assert Preorder([first]) == Preorder([]) + [first] + Preorder(first.replies);
  }

  /** `list()` lists only comments of the tree. */
  lemma {:induction false} BfsInPreorder(queue: seq<Comment>)
    ensures forall x | x in BfsList(queue) :: x in Preorder(queue)
    decreases ForestSize(queue)
  {
    if queue != [] {
      var rest := queue[1..] + queue[0].replies;
      FrontSize(queue);
      ForestSizeAppend(queue[1..], queue[0].replies);
      BfsInPreorder(rest);
      PreorderAppend(queue[1..], queue[0].replies);
      PreorderFront(queue);
      assert BfsList(queue) == [queue[0]] + BfsList(rest);
    }
  }

  /** The replies of a comment of the tree, and theirs, are comments of the tree. */
  lemma {:induction false} RepliesInPreorder(queue: seq<Comment>)
    ensures forall c, x | c in Preorder(queue) && x in Preorder(c.replies) :: x in Preorder(queue)
    decreases ForestSize(queue)
  {
    if queue != [] {
      var init, last := queue[..|queue| - 1], queue[|queue| - 1];
      PrefixSize(queue, |queue| - 1);
      MemberSize(queue, |queue| - 1);
      RepliesInPreorder(init);
      RepliesInPreorder(last.replies);
      assert Preorder(queue) == Preorder(init) + [last] + Preorder(last.replies);
    }
  }

  // ---------------------------------------------------------------------------
  // Scraping per level, as the docstring describes it: `limit` comments of the
  // level itself, so that each comment is scraped at most once

  /** the comments scraped from a forest: the first `limit` top-level comments,
      each followed by what is scraped from its replies one level down */
  function Emitted(forest: seq<Comment>, limit: int, depth: int): seq<Comment>
    decreases ForestSize(forest), 1
  {
    if depth == 0 then []
    else
      var comments := Rows.PyPrefix(forest, limit);
      PrefixSize(forest, |comments|);
      EmittedEach(comments, limit, depth)
  }

  function EmittedEach(cs: seq<Comment>, limit: int, depth: int): seq<Comment>
    decreases ForestSize(cs), 0
  {
    if cs == [] then []
    else
      var last := cs[|cs| - 1];
      PrefixSize(cs, |cs| - 1);
      EmittedEach(cs[..|cs| - 1], limit, depth) + [last] + Emitted(last.replies, limit, depth - 1)
  }

  /** Per level, too, at most `Bound(limit, depth)` comments are scraped. */
  lemma PerLevelBounded(forest: seq<Comment>, limit: nat, depth: nat)
    ensures |Emitted(forest, limit, depth)| <= Bound(limit, depth)
    decreases ForestSize(forest), 1
  {
    if depth > 0 {
      var comments := Rows.PyPrefix(forest, limit);
      PrefixSize(forest, |comments|);
      EmittedEachBounded(comments, limit, depth);
      MulMonotone(|comments|, limit, 1 + Bound(limit, depth - 1));
    }
  }

  lemma {:induction false} EmittedEachBounded(cs: seq<Comment>, limit: nat, depth: nat)
    requires depth > 0
    ensures |EmittedEach(cs, limit, depth)| <= |cs| * (1 + Bound(limit, depth - 1))
    decreases ForestSize(cs), 0
  {
    if cs != [] {
      var last := cs[|cs| - 1];
      PrefixSize(cs, |cs| - 1);
      MemberSize(cs, |cs| - 1);
      EmittedEachBounded(cs[..|cs| - 1], limit, depth);
      PerLevelBounded(last.replies, limit, depth - 1);
      MulSucc(|cs| - 1, 1 + Bound(limit, depth - 1));
    }
  }

  /** Scraped per level, the comments are comments of the forest, in depth-first order. */
  lemma {:induction false} EmittedInPreorder(forest: seq<Comment>, limit: int, depth: int)
    ensures Rows.IsSubsequence(Emitted(forest, limit, depth), Preorder(forest))
    decreases ForestSize(forest), 1
  {
    if depth == 0 {
      assert Emitted(forest, limit, depth) == [];
    } else {
      var comments := Rows.PyPrefix(forest, limit);
      PrefixSize(forest, |comments|);
      EmittedEachInPreorder(comments, limit, depth);
      PreorderAppend(comments, forest[|comments|..]);
      assert comments + forest[|comments|..] == forest;
      Rows.SubsequenceAppend(EmittedEach(comments, limit, depth), Preorder(comments), Preorder(forest[|comments|..]));
    }
  }

  lemma {:induction false} EmittedEachInPreorder(cs: seq<Comment>, limit: int, depth: int)
    ensures Rows.IsSubsequence(EmittedEach(cs, limit, depth), Preorder(cs))
    decreases ForestSize(cs), 0
  {
    if cs != [] {
      var last := cs[|cs| - 1];
      var init := cs[..|cs| - 1];
      PrefixSize(cs, |cs| - 1);
      MemberSize(cs, |cs| - 1);
      EmittedEachInPreorder(init, limit, depth);
      EmittedInPreorder(last.replies, limit, depth - 1);
      Rows.SubsequenceReflexive([last]);
      Rows.SubsequenceConcat(EmittedEach(init, limit, depth), Preorder(init), [last], [last]);
      Rows.SubsequenceConcat(EmittedEach(init, limit, depth) + [last], Preorder(init) + [last],
                             Emitted(last.replies, limit, depth - 1), Preorder(last.replies));
    }
  }

  lemma {:induction false} PreorderAppend(a: seq<Comment>, b: seq<Comment>)
    ensures Preorder(a + b) == Preorder(a) + Preorder(b)
    decreases |b|
  {
    if b == [] {
      assert a + b == a;
    } else {
      var b' := b[..|b| - 1];
      assert (a + b)[..|a + b| - 1] == a + b';
      PreorderAppend(a, b');
    }
  }

  /** When the comment ids of the tree are distinct, so are the ones scraped per
      level: no comment row is written twice. */
  lemma NoCommentTwice(forest: seq<Comment>, limit: int, depth: int)
    requires Rows.DistinctKeys(Preorder(forest), CommentId)
    ensures Rows.DistinctKeys(Emitted(forest, limit, depth), CommentId)
  {
    EmittedInPreorder(forest, limit, depth);
    Rows.SubsequenceDistinctKeys(Emitted(forest, limit, depth), Preorder(forest), CommentId);
  }

  /** Per level, one level scrapes exactly the first `limit` top-level comments. */
  lemma OneLevelIsTopComments(forest: seq<Comment>, limit: int)
    ensures Emitted(forest, limit, 1) == Rows.PyPrefix(forest, limit)
  {
    var comments := Rows.PyPrefix(forest, limit);
    PrefixSize(forest, |comments|);
    EachOneLevel(comments, limit);
  }

  lemma {:induction false} EachOneLevel(cs: seq<Comment>, limit: int)
    ensures EmittedEach(cs, limit, 1) == cs
    decreases |cs|
  {
    if cs != [] {
      PrefixSize(cs, |cs| - 1);
      EachOneLevel(cs[..|cs| - 1], limit);
      assert cs[..|cs| - 1] + [cs[|cs| - 1]] == cs;
    }
  }

  /** a post with one top-level comment that has one reply */
  const ExampleReply := Comment("r", "p", None, "a reply", "", 0, "t1_c", "", [])
  const ExampleTop := Comment("c", "p", None, "a comment", "", 0, "t3_p", "", [ExampleReply])

  lemma ExampleOrders()
    ensures BfsList([ExampleTop]) == [ExampleTop, ExampleReply]
    ensures Preorder([ExampleTop]) == [ExampleTop, ExampleReply]
  {
    var r, c := ExampleReply, ExampleTop;
    assert [r][..0] == [] && [c][..0] == [] && [r][1..] + r.replies == [] && [c][1..] + c.replies == [r];
    assert BfsList([r]) == [r] + BfsList([]);
    assert Preorder([r]) == Preorder([]) + [r] + Preorder([]);
  }

  lemma ExampleAsWritten()
    ensures EmittedAsWritten([ExampleTop], 3, 2) == [ExampleTop, ExampleReply, ExampleReply]
  {
    var r, c := ExampleReply, ExampleTop;
    ExampleOrders();
    var listed := [c, r];
    assert listed[..1] == [c] && [c][..0] == [] && [r][..0] == [] && [r][1..] + r.replies == [];
    assert Rows.PyPrefix([r], 3) == [r] && Rows.PyPrefix(listed, 3) == listed;
    BfsListBounded([c]);
    BfsListBounded([r]);
    assert BfsList([r]) == [r] + BfsList([]);
    assert EmittedAsWritten([r], 3, 1) == [r] by {
      assert EachAsWritten([r], [r], 3, 1) == EachAsWritten([r], [], 3, 1) + [r] + EmittedAsWritten([], 3, 0);
    }
    assert EachAsWritten([c], [c], 3, 2) == EachAsWritten([c], [], 3, 2) + [c] + EmittedAsWritten([r], 3, 1);
    assert EachAsWritten([c], listed, 3, 2) == EachAsWritten([c], [c], 3, 2) + [r] + EmittedAsWritten([], 3, 1);
  }

  lemma ExampleIntended()
    ensures Emitted([ExampleTop], 3, 2) == [ExampleTop, ExampleReply]
  {
    var r, c := ExampleReply, ExampleTop;
    assert [r][..0] == [] && [c][..0] == [];
    assert Rows.PyPrefix([c], 3) == [c] && Rows.PyPrefix([r], 3) == [r];
    assert Emitted([r], 3, 1) == [r] by {
      assert EmittedEach([r], 3, 1) == EmittedEach([], 3, 1) + [r] + Emitted([], 3, 0);
    }
    assert EmittedEach([c], 3, 2) == EmittedEach([], 3, 2) + [c] + Emitted([r], 3, 1);
  }

  /** With the default limits, the reply of the example is listed under the top
      level and again under its parent, so its row is written twice; the intended
      scraping writes each comment once. */
  lemma ReplyScrapedTwice()
    ensures Rows.DistinctKeys(Preorder([ExampleTop]), CommentId)
    ensures !Rows.DistinctKeys(EmittedAsWritten([ExampleTop], MaxCommentsPerDepth, MaxDepthPerPost), CommentId)
    ensures Emitted([ExampleTop], MaxCommentsPerDepth, MaxDepthPerPost) == [ExampleTop, ExampleReply]
  {
    ExampleOrders();
    ExampleAsWritten();
    ExampleIntended();
    assert CommentId(ExampleTop) != CommentId(ExampleReply);
    TwoKeysDistinct(ExampleTop, ExampleReply, CommentId);
    RepeatedKey([ExampleTop, ExampleReply, ExampleReply], CommentId, 1, 2);
  }

  lemma TwoKeysDistinct<T, K>(a: T, b: T, key: T -> K)
    requires key(a) != key(b)
    ensures Rows.DistinctKeys([a, b], key)
  {
  }

  lemma RepeatedKey<T, K>(s: seq<T>, key: T -> K, i: int, j: int)
    requires 0 <= i < j < |s| && key(s[i]) == key(s[j])
    ensures !Rows.DistinctKeys(s, key)
  {
  }
}
