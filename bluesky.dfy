/** The Bluesky scraper's string helpers and row logic: the post URL built from an
    AT-URI, the search URL with its date window, the timestamp clean-up, the post
    rows, the published-date filter, and the pairing of posts with NGOs.

    The search itself (`scrape_posts`' request and JSON decoding) is a parameter
    `search`; `datetime.fromisoformat` is a parameter `fromIso`. */
module Bluesky {
  import opened Text
  import opened Records
  import opened Ngos
  import Rows
  import Calendar

  const PlatformId := 3

  // ---------------------------------------------------------------------------
  // Post URLs

  const AtPrefix := "at://did:plc:"
  const ProfilePrefix := "https://bsky.app/profile/"

  /** `extract_url(uri)`: "" for a URI without the `at://did:plc:` prefix or with
      fewer than five '/'-separated parts; else the profile URL of the DID (third
      part) and the post id (last part) */
  function ExtractUrl(uri: string): string {
    if !StartsWith(uri, AtPrefix) then ""
    else
      var parts := Split(uri, '/');
      if |parts| < 5 then ""
      else ProfilePrefix + parts[2] + "/post/" + parts[|parts| - 1]
  }

  /** The URL is empty exactly for the URIs the function rejects. */
  lemma ExtractUrlEmptyIff(uri: string)
    ensures ExtractUrl(uri) == "" <==> !(StartsWith(uri, AtPrefix) && |Split(uri, '/')| >= 5)
  {
    if StartsWith(uri, AtPrefix) && |Split(uri, '/')| >= 5 {
      assert ExtractUrl(uri)[0] == 'h';
    }
  }

  lemma NoSlashInDid(did: string)
    requires '/' !in did
    ensures '/' !in "did:plc:" + did
  {
    assert forall i | 0 <= i < |"did:plc:" + did| :: ("did:plc:" + did)[i] == if i < 8 then "did:plc:"[i] else did[i - 8];
  }

  /** the parts of a post URI, joined with '/' */
  lemma JoinPostUri(did: string, collection: string, postId: string)
    ensures Join(["at:", "", "did:plc:" + did, collection, postId], '/') == AtPrefix + did + "/" + collection + "/" + postId
  {
    var parts := ["at:", "", "did:plc:" + did, collection, postId];
    assert parts[1..][1..] == parts[2..] && parts[2..][1..] == parts[3..] && parts[3..][1..] == parts[4..];
    assert Join(parts[3..], '/') == collection + "/" + postId;
    assert Join(parts[2..], '/') == "did:plc:" + did + "/" + collection + "/" + postId;
  }

  /** The URI of a post from `did:plc:<did>` in collection `<collection>` with record
      key `<postId>` yields that DID's profile URL for that post. */
  lemma ExtractUrlOfPostUri(did: string, collection: string, postId: string)
    requires '/' !in did && '/' !in collection && '/' !in postId
    ensures ExtractUrl(AtPrefix + did + "/" + collection + "/" + postId) == ProfilePrefix + "did:plc:" + did + "/post/" + postId
  {
    var uri := AtPrefix + did + "/" + collection + "/" + postId;
    var parts := ["at:", "", "did:plc:" + did, collection, postId];
    NoSlashInDid(did);
    JoinPostUri(did, collection, postId);
    forall k | 0 <= k < |parts| ensures '/' !in parts[k] {
    }
    SplitJoin(parts, '/');
    PostUriPrefix(did, collection, postId);
    ExtractUrlOfParts(uri, parts);
  }

  lemma PostUriPrefix(did: string, collection: string, postId: string)
    ensures StartsWith(AtPrefix + did + "/" + collection + "/" + postId, AtPrefix)
  {
    var u := AtPrefix + did + "/" + collection + "/" + postId;
    assert forall i | 0 <= i < |AtPrefix| :: u[i] == AtPrefix[i];
  }

  /** a URI with the prefix and five parts yields the profile URL of its third and last parts */
  lemma ExtractUrlOfParts(uri: string, parts: seq<string>)
    requires StartsWith(uri, AtPrefix) && Split(uri, '/') == parts && |parts| == 5
    ensures ExtractUrl(uri) == ProfilePrefix + parts[2] + "/post/" + parts[4]
  {
  }

  const ExampleUri := "at://did:plc:X/app.bsky.feed.post/P"
  const ExampleUrl := "https://bsky.app/profile/did:plc:X/post/P"

  lemma ExampleUriJoined()
    ensures AtPrefix + "X" + "/" + "app.bsky.feed.post" + "/" + "P" == ExampleUri
  {
  }

  lemma ExampleUrlJoined()
    ensures ProfilePrefix + "did:plc:" + "X" + "/post/" + "P" == ExampleUrl
  {
  }

  /** the example of the function's documentation */
  lemma ExtractUrlExample()
    ensures ExtractUrl(ExampleUri) == ExampleUrl
  {
    ExampleUriJoined();
    ExampleUrlJoined();
    ExtractUrlOfPostUri("X", "app.bsky.feed.post", "P");
  }

  // ---------------------------------------------------------------------------
  // The search URL

  datatype ApiUrl =
    | NoUrl            // the function prints a message and returns None
    | Url(url: string)
    | DateOverflow     // `timedelta` arithmetic leaves the date range: OverflowError escapes

  const SearchPrefix := "https://public.api.bsky.app/xrpc/app.bsky.feed.searchPosts?q=\""

  /** `strftime("%Y-%m-%dT%H:%M:%SZ")` of a midnight */
  function Stamp(d: Calendar.Date): string
    requires Calendar.Valid(d)
  {
    Calendar.FormatDate(d) + "T00:00:00Z"
  }

  function SearchBase(keyword: string, maxResults: int): string {
    SearchPrefix + keyword + "\"&limit=" + IntToString(maxResults)
  }

  /** a target date given and non-empty (`if target_date:`) */
  predicate HasTarget(targetDate: Option<string>) { targetDate.Some? && targetDate.value != "" }

  /** `get_api_url(keyword, max_results, sort_method, target_date, date_range)` */
  function GetApiUrl(keyword: string, maxResults: int, sortMethod: string, targetDate: Option<string>, dateRange: int): ApiUrl {
    if keyword == "" then NoUrl
    else if HasTarget(targetDate) then
      match Calendar.ParseDate(targetDate.value)
      case None => NoUrl
      case Some(t) =>
        if dateRange < 0 then NoUrl
        else
          match (Calendar.SubDays(t, dateRange), Calendar.AddDays(t, dateRange))
          case (Some(since), Some(until)) =>
            Url(SearchBase(keyword, maxResults) + "&since=" + Stamp(since) + "&until=" + Stamp(until))
          case _ => DateOverflow
    else Url(SearchBase(keyword, maxResults) + "&sort=" + sortMethod)
  }

  /** No URL exactly when the keyword is empty, or a target date is given that does
      not parse, or one is given with a negative range; an empty keyword wins over
      a bad date, and a bad date over a bad range. */
  lemma GetApiUrlRejects(keyword: string, maxResults: int, sortMethod: string, targetDate: Option<string>, dateRange: int)
    ensures GetApiUrl(keyword, maxResults, sortMethod, targetDate, dateRange) == NoUrl <==>
      (keyword == "" || (HasTarget(targetDate) && (Calendar.ParseDate(targetDate.value).None? || dateRange < 0)))
    ensures keyword == "" ==> GetApiUrl(keyword, maxResults, sortMethod, targetDate, dateRange) == NoUrl
    ensures HasTarget(targetDate) && Calendar.ParseDate(targetDate.value).None? ==>
      GetApiUrl(keyword, maxResults, sortMethod, targetDate, dateRange) == NoUrl
  {
  }

  /** A URL without a target date asks for a sort order and no window; with one it
      carries a window of `dateRange` days either side of the target, at midnight,
      so `since` is not after `until`, they are `2 * dateRange` days apart, and they
      coincide when the range is 0. In both the keyword is quoted. */
  lemma GetApiUrlWindow(keyword: string, maxResults: int, sortMethod: string, targetDate: Option<string>, dateRange: int)
    requires GetApiUrl(keyword, maxResults, sortMethod, targetDate, dateRange).Url?
    ensures var u := GetApiUrl(keyword, maxResults, sortMethod, targetDate, dateRange).url;
      && StartsWith(u, SearchPrefix + keyword + "\"&limit=")
      && (!HasTarget(targetDate) ==> u == SearchBase(keyword, maxResults) + "&sort=" + sortMethod)
      && (HasTarget(targetDate) ==>
            exists t, since, until ::
              && Calendar.ParseDate(targetDate.value) == Some(t)
              && Calendar.Valid(since) && Calendar.Valid(until)
              && u == SearchBase(keyword, maxResults) + "&since=" + Stamp(since) + "&until=" + Stamp(until)
              && Calendar.AtOrBefore(since, t) && Calendar.AtOrBefore(t, until)
              && Calendar.AddDays(since, 2 * dateRange) == Some(until)
              && (since == until <==> dateRange == 0))
  {
    var u := GetApiUrl(keyword, maxResults, sortMethod, targetDate, dateRange).url;
    var head, base := SearchPrefix + keyword + "\"&limit=", SearchBase(keyword, maxResults);
    assert head[..|head|] == head;
    StartsWithAppend(head, head, IntToString(maxResults));
    if HasTarget(targetDate) {
      var t := Calendar.ParseDate(targetDate.value).value;
      var since, until := Calendar.SubDays(t, dateRange).value, Calendar.AddDays(t, dateRange).value;
      WindowAroundTarget(t, dateRange);
      assert u == base + "&since=" + Stamp(since) + "&until=" + Stamp(until);
      StartsWithAppend(base, head, "&since=");
      StartsWithAppend(base + "&since=", head, Stamp(since));
      StartsWithAppend(base + "&since=" + Stamp(since), head, "&until=");
      StartsWithAppend(base + "&since=" + Stamp(since) + "&until=", head, Stamp(until));
    } else {
      StartsWithAppend(base, head, "&sort=");
      StartsWithAppend(base + "&sort=", head, sortMethod);
    }
  }

  lemma WindowAroundTarget(t: Calendar.Date, n: nat)
    requires Calendar.Valid(t) && Calendar.SubDays(t, n).Some? && Calendar.AddDays(t, n).Some?
    ensures var since, until := Calendar.SubDays(t, n).value, Calendar.AddDays(t, n).value;
      && Calendar.AtOrBefore(since, t) && Calendar.AtOrBefore(t, until)
      && Calendar.AddDays(since, 2 * n) == Some(until)
      && (since == until <==> n == 0)
  {
    var since, until := Calendar.SubDays(t, n).value, Calendar.AddDays(t, n).value;
    Calendar.SubDaysBackward(t, n);
    Calendar.AddDaysForward(t, n);
    Calendar.AddAfterSub(t, n);
    assert Calendar.AddDays(since, n) == Some(t);
    Calendar.AddDaysSplitTo(since, n, n, 2 * n);
    if since == until {
      assert Calendar.AtOrBefore(t, since);
    }
  }

  // ---------------------------------------------------------------------------
  // Timestamps

  /** a '.' followed by six digits at p */
  predicate FractionAt(s: string, p: int) {
    0 <= p && p + 7 <= |s| && s[p] == '.' && AllDigits(s[p + 1..p + 7])
  }

  /** the last position below n where a fraction starts */
  function LastFractionBelow(s: string, n: int): (r: Option<nat>)
    ensures r.Some? ==> r.value < n && FractionAt(s, r.value) && forall q | r.value < q < n :: !FractionAt(s, q)
    ensures r.None? ==> forall q | 0 <= q < n :: !FractionAt(s, q)
    decreases n
  {
    if n <= 0 then None
    else if FractionAt(s, n - 1) then Some(n - 1)
    else LastFractionBelow(s, n - 1)
  }

  /** the number of digits in the run starting at i */
  function DigitRun(s: string, i: nat): (k: nat)
    ensures i + k <= |s| || k == 0
    ensures forall j | i <= j < i + k :: IsDigitChar(s[j])
    ensures i + k >= |s| || !IsDigitChar(s[i + k])
    decreases |s| - i
  {
    if i >= |s| || !IsDigitChar(s[i]) then 0 else 1 + DigitRun(s, i + 1)
  }

  /** `re.sub(r"(.*\.\d{6})\d*(.*)", r"\1\2", line)` on one line: the greedy `.*`
      picks the last '.' followed by six digits, and the digits after those six
      are cut */
  function TruncateLine(s: string): string {
    match LastFractionBelow(s, |s|)
    case None => s
    case Some(p) => s[..p + 7] + s[p + 7 + DigitRun(s, p + 7)..]
  }

  /** The cut keeps everything up to the six kept digits, and no digit follows them. */
  lemma TruncateLineKeepsSix(s: string, p: nat)
    requires LastFractionBelow(s, |s|) == Some(p)
    ensures var t := TruncateLine(s);
      && t[..p + 7] == s[..p + 7] && FractionAt(t, p)
      && (p + 7 == |t| || !IsDigitChar(t[p + 7]))
      && LastFractionBelow(t, |t|) == Some(p)
  {
    var k := DigitRun(s, p + 7);
    var t := TruncateLine(s);
    assert t == s[..p + 7] + s[p + 7 + k..];
    assert t[..p + 7] == s[..p + 7];
    assert t[p + 1..p + 7] == s[p + 1..p + 7];
    forall q | p < q < |t| ensures !FractionAt(t, q) {
      if q < p + 7 {
        assert t[q] == s[q] && IsDigitChar(s[p + 1..p + 7][q - p - 1]);
      } else if FractionAt(t, q) {
        assert t[q..q + 7] == s[q + k..q + k + 7];
        assert s[q + k + 1..q + k + 7] == t[q + 1..q + 7];
        assert FractionAt(s, q + k);
        assert false;
      }
    }
    LastFractionIs(t, p);
  }

  lemma LastFractionIs(s: string, p: nat)
    requires FractionAt(s, p) && forall q | p < q < |s| :: !FractionAt(s, q)
    ensures LastFractionBelow(s, |s|) == Some(p)
  {
    var r := LastFractionBelow(s, |s|);
    assert r.Some? by { assert FractionAt(s, p); }
    assert !(r.value > p) && !(r.value < p);
  }

  /** Cutting twice cuts no more than cutting once. */
  lemma TruncateLineIdempotent(s: string)
    ensures TruncateLine(TruncateLine(s)) == TruncateLine(s)
  {
    var t := TruncateLine(s);
    match LastFractionBelow(s, |s|)
    case None =>
    case Some(p) =>
      TruncateLineKeepsSix(s, p);
      assert DigitRun(t, p + 7) == 0;
      assert t[..p + 7] + t[p + 7..] == t;
  }

  function TruncateFraction(s: string): string {
    Join(Rows.Map(Split(s, '\n'), TruncateLine), '\n')
  }

  /** the text handed to `fromisoformat`: fractions cut to six digits, and when it
      ends with "Z", every "Z" written as "+00:00" */
  function NormalizeBskyDate(raw: string): string {
    var t := TruncateFraction(raw);
    if EndsWith(t, "Z") then ReplaceAll(t, "Z", "+00:00") else t
  }

  /** On one line with its only "Z" at the end, that "Z" becomes "+00:00". */
  lemma NormalizeTrailingZ(raw: string)
    requires '\n' !in raw
    requires |TruncateLine(raw)| >= 1 && TruncateLine(raw)[|TruncateLine(raw)| - 1] == 'Z'
    requires 'Z' !in TruncateLine(raw)[..|TruncateLine(raw)| - 1]
    ensures NormalizeBskyDate(raw) == TruncateLine(raw)[..|TruncateLine(raw)| - 1] + "+00:00"
  {
    var t := TruncateLine(raw);
    NormalizeOneLine(raw);
    assert t[|t| - 1..] == "Z";
    forall i | 0 <= i < |t| - 1 ensures !OccursAt(t, "Z", i) {
      assert t[i] == t[..|t| - 1][i];
    }
    ReplaceAllOnlyAtEnd(t, "Z", "+00:00");
  }

  /** A single line is cut like one line. */
  lemma NormalizeOneLine(raw: string)
    requires '\n' !in raw
    ensures TruncateFraction(raw) == TruncateLine(raw)
  {
    assert Split(raw, '\n') == [raw];
    assert Rows.Map([raw], TruncateLine) == [TruncateLine(raw)];
  }

  const DocStamp := "2025-04-14T13:50:14.61812900+00:00"

  lemma DocStampFraction()
    ensures LastFractionBelow(DocStamp, |DocStamp|) == Some(19)
  {
    var s := DocStamp;
    assert FractionAt(s, 19) by { assert s[19] == '.' && s[20..26] == "618129"; }
    forall q | 19 < q < |s| ensures !FractionAt(s, q) {
      assert s[q] != '.';
    }
    LastFractionIs(s, 19);
  }

  lemma DocStampRun()
    ensures DigitRun(DocStamp, 26) == 2
  {
    assert DigitRun(DocStamp, 28) == 0;
    assert DigitRun(DocStamp, 27) == 1;
  }

  lemma DocStampCut()
    ensures TruncateLine(DocStamp) == DocStamp[..26] + DocStamp[28..]
  {
    DocStampFraction();
    DocStampRun();
  }

  const DocStampNormalized := "2025-04-14T13:50:14.618129+00:00"

  lemma DocStampJoined()
    ensures DocStamp[..26] + DocStamp[28..] == DocStampNormalized
  {
    forall i | 0 <= i < |DocStampNormalized| ensures (DocStamp[..26] + DocStamp[28..])[i] == DocStampNormalized[i] {
      if i < 26 { } else { }
    }
  }

  /** the example of the source's comment: eight fraction digits become six */
  lemma NormalizeExample()
    ensures NormalizeBskyDate(DocStamp) == DocStampNormalized
  {
    forall q | 0 <= q < |DocStamp| ensures DocStamp[q] != '\n' { }
    NormalizeOneLine(DocStamp);
    DocStampCut();
    DocStampJoined();
    assert DocStampNormalized[|DocStampNormalized| - 1] == '0';
  }

  datatype DateTime = DateTime(date: Calendar.Date, hour: int, minute: int, second: int)

  predicate ValidDateTime(dt: DateTime) {
    Calendar.Valid(dt.date) && 0 <= dt.hour < 24 && 0 <= dt.minute < 60 && 0 <= dt.second < 60
  }

  /** `strftime("%Y-%m-%d %H:%M:%S")` */
  function FormatDateTime(dt: DateTime): string
    requires ValidDateTime(dt)
  {
    Calendar.FormatDate(dt.date) + " " + ZeroPad(dt.hour, 2) + ":" + ZeroPad(dt.minute, 2) + ":" + ZeroPad(dt.second, 2)
  }

  /** `parse_bsky_date(raw_date)`; `fromIso` stands for `datetime.fromisoformat`,
      None where it raises */
  function ParseBskyDate(raw: string, fromIso: string -> Option<DateTime>): string {
    if raw == "" then ""
    else match fromIso(NormalizeBskyDate(raw))
      case Some(dt) => if ValidDateTime(dt) then FormatDateTime(dt) else ""
      case None => ""
  }

  /** The result is empty, or a 19-character `YYYY-MM-DD HH:MM:SS` text. */
  lemma ParseBskyDateShape(raw: string, fromIso: string -> Option<DateTime>)
    ensures var r := ParseBskyDate(raw, fromIso);
      r == "" || (|r| == 19 && r[4] == '-' && r[7] == '-' && r[10] == ' ' && r[13] == ':' && r[16] == ':')
    ensures raw == "" ==> ParseBskyDate(raw, fromIso) == ""
  {
    if raw != "" && fromIso(NormalizeBskyDate(raw)).Some? {
      var dt := fromIso(NormalizeBskyDate(raw)).value;
      if ValidDateTime(dt) {
        FormatDateTimeShape(dt);
      }
    }
  }

  lemma FormatDateTimeShape(dt: DateTime)
    requires ValidDateTime(dt)
    ensures var r := FormatDateTime(dt);
      |r| == 19 && r[4] == '-' && r[7] == '-' && r[10] == ' ' && r[13] == ':' && r[16] == ':'
  {
    Calendar.FormatDateShape(dt.date);
    ZeroPadLength(dt.hour, 2);
    ZeroPadLength(dt.minute, 2);
    ZeroPadLength(dt.second, 2);
  }

  // ---------------------------------------------------------------------------
  // Post rows

  /** a post of the search response as far as the scraper reads it */
  datatype RawPost = RawPost(uri: Option<string>, text: Option<string>, createdAt: Option<string>,
                             handle: Option<string>, likeCount: Option<int>, replyCount: Option<int>)

  function OrElse<T>(o: Option<T>, default: T): T { if o.Some? then o.value else default }

  /** a post with a URI, a text and an author handle; the others are skipped, the
      last by the handler of the `KeyError` its record raises */
  predicate Usable(p: RawPost) {
    p.uri.Some? && p.uri.value != "" && p.text.Some? && p.text.value != "" && p.handle.Some?
  }

  const NoDate := "0000-00-00 00:00:00"

  function PublishedAt(createdAt: Option<string>, fromIso: string -> Option<DateTime>): string {
    if createdAt.Some? && createdAt.value != "" && createdAt.value != NoDate then ParseBskyDate(createdAt.value, fromIso) else ""
  }

  function PostRecord(p: RawPost, fromIso: string -> Option<DateTime>): ContentRecord {
    var uri := OrElse(p.uri, "");
    ContentRecord(uri, PlatformId, "", OrElse(p.text, ""), ExtractUrl(uri), p.handle,
                  PublishedAt(p.createdAt, fromIso), 0, OrElse(p.likeCount, 0), OrElse(p.replyCount, 0), "Post", [])
  }

  function RecordBy(fromIso: string -> Option<DateTime>): RawPost -> ContentRecord {
    (p: RawPost) => PostRecord(p, fromIso)
  }

  /** the loop of `scrape_posts` over the response's posts */
  method PostRecords(posts: seq<RawPost>, fromIso: string -> Option<DateTime>) returns (records: seq<ContentRecord>)
    ensures records == Rows.Map(Rows.Filter(posts, Usable), RecordBy(fromIso))
  {
    records := [];
    for i := 0 to |posts|
      invariant records == Rows.Map(Rows.Filter(posts[..i], Usable), RecordBy(fromIso))
    {
      var post := posts[i];
      assert posts[..i + 1][..i] == posts[..i];
      if post.uri.None? || post.uri.value == "" {
        continue;
      }
      if post.text.None? || post.text.value == "" {
        continue;
      }
      if post.handle.None? {
        continue;
      }
      Rows.MapAppend(Rows.Filter(posts[..i], Usable), [post], RecordBy(fromIso));
      records := records + [PostRecord(post, fromIso)];
    }
    assert posts[..|posts|] == posts;
  }

  /** Every row comes from a usable post, in order, and has its URI as id, the
      post URL derived from it, the post's text and author, no views, and a
      published date that is empty or `YYYY-MM-DD HH:MM:SS`. */
  lemma PostRecordsSound(posts: seq<RawPost>, fromIso: string -> Option<DateTime>, i: int)
    requires 0 <= i < |Rows.Map(Rows.Filter(posts, Usable), RecordBy(fromIso))|
    ensures var r := Rows.Map(Rows.Filter(posts, Usable), RecordBy(fromIso))[i];
      && (exists k | 0 <= k < |posts| :: Usable(posts[k]) && r.externalContentId == posts[k].uri.value
            && r.description == posts[k].text.value && r.author == posts[k].handle)
      && r.externalContentId != "" && r.description != "" && r.author.Some?
      && r.url == ExtractUrl(r.externalContentId)
      && r.platformId == PlatformId && r.viewCount == 0 && r.title == "" && r.metadata == []
      && (r.publishedAt == "" || |r.publishedAt| == 19)
  {
    var kept := Rows.Filter(posts, Usable);
    var p := kept[i];
    assert p in posts && Usable(p);
    var k :| 0 <= k < |posts| && posts[k] == p;
    ParseBskyDateShape(OrElse(p.createdAt, ""), fromIso);
  }

  // ---------------------------------------------------------------------------
  // The published-date filter of `save_content_to_csv`

  predicate HasValidDate(r: ContentRecord) { r.publishedAt != "" && r.publishedAt != NoDate }

  /** the rows written, or None when no file is written (no posts, or none valid),
      and the number of posts dropped */
  method SaveContent(posts: seq<ContentRecord>) returns (saved: Option<seq<ContentRecord>>, invalidCount: int)
    ensures saved.Some? <==> exists i | 0 <= i < |posts| :: HasValidDate(posts[i])
    ensures saved.Some? ==> saved.value == Rows.Filter(posts, HasValidDate)
    ensures invalidCount == |posts| - |Rows.Filter(posts, HasValidDate)|
  {
    if posts == [] {
      return None, 0;
    }
    var validPosts := [];
    for i := 0 to |posts|
      invariant validPosts == Rows.Filter(posts[..i], HasValidDate)
    {
      assert posts[..i + 1][..i] == posts[..i];
      if posts[i].publishedAt != "" && posts[i].publishedAt != NoDate {
        validPosts := validPosts + [posts[i]];
      }
    }
    assert posts[..|posts|] == posts;
    invalidCount := |posts| - |validPosts|;
    if validPosts == [] {
      return None, invalidCount;
    }
    assert HasValidDate(validPosts[0]) && validPosts[0] in posts;
    saved := Some(validPosts);
  }

  /** The posts dropped are exactly those without a valid date: the count reported
      is that number. */
  lemma InvalidCountIsDropped(posts: seq<ContentRecord>)
    ensures |posts| - |Rows.Filter(posts, HasValidDate)| == Rows.Count(posts, (r: ContentRecord) => !HasValidDate(r))
  {
    Rows.FilterLengthIsCount(posts, HasValidDate);
  }

  // ---------------------------------------------------------------------------
  // Pairing posts with NGOs in `main`

  function MentionBy(id: int): ContentRecord -> Mention {
    (p: ContentRecord) => Mention(id, p.externalContentId)
  }

  /** one pair per post for one NGO */
  function PairsFor(id: int, posts: seq<ContentRecord>): seq<Mention> {
    Rows.Map(posts, MentionBy(id))
  }

  /** an explicit keyword: every post with every NGO listing exactly that keyword */
  function KeywordPairs(ngos: seq<Ngo>, keyword: string, posts: seq<ContentRecord>): seq<Mention> {
    if ngos == [] then []
    else
      var ngo := ngos[|ngos| - 1];
      KeywordPairs(ngos[..|ngos| - 1], keyword, posts) + if keyword in ngo.keywords then PairsFor(ngo.id, posts) else []
  }

  /** no keyword: each keyword of each NGO searched, its posts paired with that NGO */
  function NgoPairs(id: int, keywords: seq<string>, search: string -> seq<ContentRecord>): seq<Mention> {
    if keywords == [] then []
    else NgoPairs(id, keywords[..|keywords| - 1], search) + PairsFor(id, search(keywords[|keywords| - 1]))
  }

  function AllPairs(ngos: seq<Ngo>, search: string -> seq<ContentRecord>): seq<Mention> {
    if ngos == [] then []
    else
      var ngo := ngos[|ngos| - 1];
      AllPairs(ngos[..|ngos| - 1], search) + NgoPairs(ngo.id, ngo.keywords, search)
  }

  function NgoPosts(keywords: seq<string>, search: string -> seq<ContentRecord>): seq<ContentRecord> {
    if keywords == [] then []
    else NgoPosts(keywords[..|keywords| - 1], search) + search(keywords[|keywords| - 1])
  }

  function AllPosts(ngos: seq<Ngo>, search: string -> seq<ContentRecord>): seq<ContentRecord> {
    if ngos == [] then []
    else AllPosts(ngos[..|ngos| - 1], search) + NgoPosts(ngos[|ngos| - 1].keywords, search)
  }

  method AppendPairs(pairs: seq<Mention>, id: int, posts: seq<ContentRecord>) returns (result: seq<Mention>)
    ensures result == pairs + PairsFor(id, posts)
  {
    result := pairs;
    for j := 0 to |posts|
      invariant result == pairs + PairsFor(id, posts[..j])
    {
      assert PairsFor(id, posts[..j + 1]) == PairsFor(id, posts[..j]) + [Mention(id, posts[j].externalContentId)];
      result := result + [Mention(id, posts[j].externalContentId)];
    }
    assert posts[..|posts|] == posts;
  }

  /** the pairs of the explicit-keyword branch of `main` */
  method PairKeyword(ngos: seq<Ngo>, keyword: string, posts: seq<ContentRecord>) returns (pairs: seq<Mention>)
    ensures pairs == KeywordPairs(ngos, keyword, posts)
  {
    pairs := [];
    for i := 0 to |ngos|
      invariant pairs == KeywordPairs(ngos[..i], keyword, posts)
    {
      assert ngos[..i + 1][..i] == ngos[..i];
      if keyword in ngos[i].keywords {
        pairs := AppendPairs(pairs, ngos[i].id, posts);
      }
    }
    assert ngos[..|ngos|] == ngos;
  }

  /** the posts and pairs one NGO contributes when every keyword is searched */
  method CollectNgo(id: int, keywords: seq<string>, search: string -> seq<ContentRecord>)
    returns (posts: seq<ContentRecord>, pairs: seq<Mention>)
    ensures posts == NgoPosts(keywords, search) && pairs == NgoPairs(id, keywords, search)
  {
    posts, pairs := [], [];
    for j := 0 to |keywords|
      invariant posts == NgoPosts(keywords[..j], search) && pairs == NgoPairs(id, keywords[..j], search)
    {
      assert keywords[..j + 1][..j] == keywords[..j];
      var found := search(keywords[j]);
      if found != [] {
        posts := posts + found;
        pairs := AppendPairs(pairs, id, found);
      } else {
        assert posts == posts + found;
        assert pairs == pairs + PairsFor(id, found);
      }
    }
    assert keywords[..|keywords|] == keywords;
  }

  /** the collection loops of `main`; `search(kw)` stands for `scrape_posts(kw, ...)`,
      with a failed search as no posts */
  method CollectPosts(ngos: seq<Ngo>, keyword: Option<string>, search: string -> seq<ContentRecord>)
    returns (allPosts: seq<ContentRecord>, pairs: seq<Mention>)
    ensures keyword.Some? ==> allPosts == search(keyword.value) && pairs == KeywordPairs(ngos, keyword.value, search(keyword.value))
    ensures keyword.None? ==> allPosts == AllPosts(ngos, search) && pairs == AllPairs(ngos, search)
  {
    allPosts, pairs := [], [];
    if keyword.Some? {
      var posts := search(keyword.value);
      if posts != [] {
        allPosts := posts;
        pairs := PairKeyword(ngos, keyword.value, posts);
      } else {
        EmptyKeywordPairs(ngos, keyword.value);
      }
    } else {
      for i := 0 to |ngos|
        invariant allPosts == AllPosts(ngos[..i], search) && pairs == AllPairs(ngos[..i], search)
      {
        assert ngos[..i + 1][..i] == ngos[..i];
        var posts, found := CollectNgo(ngos[i].id, ngos[i].keywords, search);
        allPosts, pairs := allPosts + posts, pairs + found;
      }
      assert ngos[..|ngos|] == ngos;
    }
  }

  lemma {:induction false} EmptyKeywordPairs(ngos: seq<Ngo>, keyword: string)
    ensures KeywordPairs(ngos, keyword, []) == []
    decreases |ngos|
  {
    if ngos != [] { EmptyKeywordPairs(ngos[..|ngos| - 1], keyword); }
  }

  /** An explicit keyword pairs a post with an NGO exactly when the NGO lists that
      very keyword string (compared with its case). */
  lemma {:induction false} KeywordPairsIff(ngos: seq<Ngo>, keyword: string, posts: seq<ContentRecord>, m: Mention)
    ensures m in KeywordPairs(ngos, keyword, posts) <==>
      (exists i | 0 <= i < |ngos| :: keyword in ngos[i].keywords && m.ngoId == ngos[i].id) &&
      (exists j | 0 <= j < |posts| :: m.externalContentId == posts[j].externalContentId)
    decreases |ngos|
  {
    if ngos != [] {
      var n := |ngos| - 1;
      var init, last := ngos[..n], ngos[n];
      var added := if keyword in last.keywords then PairsFor(last.id, posts) else [];
      assert KeywordPairs(ngos, keyword, posts) == KeywordPairs(init, keyword, posts) + added;
      KeywordPairsIff(init, keyword, posts, m);
      PairsForIff(last.id, posts, m);
      assert forall i | 0 <= i < n :: init[i] == ngos[i];
      if (exists i | 0 <= i < |ngos| :: keyword in ngos[i].keywords && m.ngoId == ngos[i].id) &&
         (exists j | 0 <= j < |posts| :: m.externalContentId == posts[j].externalContentId) {
        var i :| 0 <= i < |ngos| && keyword in ngos[i].keywords && m.ngoId == ngos[i].id;
        if i < n {
          assert init[i] == ngos[i];
        }
      }
    }
  }

  /** a pair of `PairsFor(id, posts)` is `id` with one of the posts */
  lemma PairsForIff(id: int, posts: seq<ContentRecord>, m: Mention)
    ensures m in PairsFor(id, posts) <==>
      m.ngoId == id && exists j | 0 <= j < |posts| :: m.externalContentId == posts[j].externalContentId
  {
    if m.ngoId == id && exists j | 0 <= j < |posts| :: m.externalContentId == posts[j].externalContentId {
      var j :| 0 <= j < |posts| && m.externalContentId == posts[j].externalContentId;
      assert PairsFor(id, posts)[j] == m;
    }
  }

  /** With at least one post, the NGOs paired are the owners of the keyword: for
      "OSF" both 91 and 108, where the video matcher credits only 108. */
  lemma KeywordPairsOwners(ngos: seq<Ngo>, keyword: string, posts: seq<ContentRecord>)
    requires posts != []
    ensures (set m | m in KeywordPairs(ngos, keyword, posts) :: m.ngoId) == Owners(ngos, keyword)
  {
    forall id | id in Owners(ngos, keyword) ensures id in (set m | m in KeywordPairs(ngos, keyword, posts) :: m.ngoId) {
      var i :| 0 <= i < |ngos| && ListsKeyword(keyword)(ngos[i]) && ngos[i].id == id;
      KeywordPairsIff(ngos, keyword, posts, Mention(id, posts[0].externalContentId));
    }
    forall m | m in KeywordPairs(ngos, keyword, posts) ensures m.ngoId in Owners(ngos, keyword) {
      KeywordPairsIff(ngos, keyword, posts, m);
      var i :| 0 <= i < |ngos| && keyword in ngos[i].keywords && m.ngoId == ngos[i].id;
      assert ListsKeyword(keyword)(ngos[i]);
    }
  }

  lemma OsfPairsBoth(posts: seq<ContentRecord>)
    requires posts != []
    ensures (set m | m in KeywordPairs(Registry, "OSF", posts) :: m.ngoId) == {91, 108}
  {
    KeywordPairsOwners(Registry, "OSF", posts);
    OwnersOfOsf();
  }

  /** Without a keyword, a post is paired with an NGO exactly when searching one of
      that NGO's keywords returned it. */
  lemma {:induction false} NgoPairsIff(id: int, keywords: seq<string>, search: string -> seq<ContentRecord>, m: Mention)
    ensures m in NgoPairs(id, keywords, search) <==>
      m.ngoId == id && exists k | 0 <= k < |keywords| :: exists j | 0 <= j < |search(keywords[k])| ::
        m.externalContentId == search(keywords[k])[j].externalContentId
    decreases |keywords|
  {
    if keywords != [] {
      var n := |keywords| - 1;
      NgoPairsIff(id, keywords[..n], search, m);
      assert forall k | 0 <= k < n :: keywords[..n][k] == keywords[k];
      if m.ngoId == id && exists k | 0 <= k < |keywords| :: exists j | 0 <= j < |search(keywords[k])| ::
           m.externalContentId == search(keywords[k])[j].externalContentId {
        var k :| 0 <= k < |keywords| && exists j | 0 <= j < |search(keywords[k])| ::
           m.externalContentId == search(keywords[k])[j].externalContentId;
        var j :| 0 <= j < |search(keywords[k])| && m.externalContentId == search(keywords[k])[j].externalContentId;
        if k == n {
          assert PairsFor(id, search(keywords[n]))[j] == m;
        }
      }
      if m in PairsFor(id, search(keywords[n])) {
        var j :| 0 <= j < |search(keywords[n])| && PairsFor(id, search(keywords[n]))[j] == m;
      }
    }
  }

  /** Without a keyword, the pairs are those of the NGOs one by one. */
  lemma {:induction false} AllPairsIff(ngos: seq<Ngo>, search: string -> seq<ContentRecord>, m: Mention)
    ensures m in AllPairs(ngos, search) <==> exists i | 0 <= i < |ngos| :: m in NgoPairs(ngos[i].id, ngos[i].keywords, search)
    decreases |ngos|
  {
    if ngos != [] {
      var n := |ngos| - 1;
      var init := ngos[..n];
      AllPairsIff(init, search, m);
      assert AllPairs(ngos, search) == AllPairs(init, search) + NgoPairs(ngos[n].id, ngos[n].keywords, search);
      if m in AllPairs(init, search) {
        var i :| 0 <= i < n && m in NgoPairs(init[i].id, init[i].keywords, search);
        assert init[i] == ngos[i];
      }
      if exists i | 0 <= i < |ngos| :: m in NgoPairs(ngos[i].id, ngos[i].keywords, search) {
        var i :| 0 <= i < |ngos| && m in NgoPairs(ngos[i].id, ngos[i].keywords, search);
        if i < n {
          assert init[i] == ngos[i];
        }
      }
    }
  }

  /** The saved mapping (`drop_duplicates`) holds each pair once and loses none. */
  lemma SavedMapping(pairs: seq<Mention>)
    ensures Rows.DistinctKeys(Rows.DedupBy(pairs, (m: Mention) => m), (m: Mention) => m)
    ensures forall m :: m in Rows.DedupBy(pairs, (m: Mention) => m) <==> m in pairs
  {
    var saved := Rows.DedupBy(pairs, (m: Mention) => m);
    forall m ensures m in saved <==> m in pairs {
      assert m in saved <==> m in Rows.KeysOf(saved, (m: Mention) => m);
      assert m in pairs <==> m in Rows.KeysOf(pairs, (m: Mention) => m);
    }
  }
}
