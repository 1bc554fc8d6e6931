# NGO mention matching and dataset cleaning, verified in Dafny

This project models the deterministic core of a set of scrapers and cleaners that
track how often nonprofit organisations (NGOs) are mentioned on social media and
how they appear in public datasets:

- **the NGO registry** (`ngos_list`): 125 organisations, each with an id, a name
  and the keywords that identify it;
- **the YouTube video matcher** (`find_ngos_in_video`): a keyword dictionary in
  which a later NGO overwrites an earlier one with the same keyword, acronyms
  matched as case-insensitive whole words, other keywords as lower-case
  substrings with a fuzzy-score fallback; and the keep-first de-duplication of
  video records;
- **the Reddit post matcher** inside `scrape_subreddit_posts`: an exact phase
  (case-sensitive whole-word acronyms, case-insensitive substrings, one `break`
  per NGO), then, only when that finds nothing, a fuzzy phase that takes the single
  best-scoring non-acronym name; the posts kept, their mention rows and the
  recursive comment scraper `scrape_post_comments` as written, which at every
  level takes the first `limit` comments of `list()`, the breadth-first list of all
  comments below it (beside it, the per-level scraping its docstring describes);
- **the Bluesky helpers**: `extract_url` (AT-URI to web URL), `get_api_url` (the
  search URL and its symmetric date window), `parse_bsky_date` (six-digit
  fractions and the trailing `Z`), the post rows built from a search response, the
  published-date filter of `save_content_to_csv`, and the keyword-to-NGO pairing of
  `main`;
- **the 2020 nonprofit employment cleaner**: NAICS code check, numeric cleaning,
  exclusion of U.S. totals, multi-state areas and MSAs, `convert_state`,
  de-duplication on (title, NAICS), the Puerto Rico / Virgin Islands exclusions and
  the 3037-row cut;
- **the 2020 charities cleaner**: left merge with the EIN-to-state table, rows
  without a state dropped, state codes spelled out, de-duplication on EIN, and the
  Puerto Rico / Virgin Islands exclusions.

Modules: `Text` (ASCII character classes, `lower`, `strip`, `split`, `join`,
`replace`, `\b…\b` word search, decimal text), `Rows` (filter, map, keep-first
de-duplication, prefixes, subsequences), `Records` (shared row types), `Ngos`,
`YouTube`, `RedditMatch`, `RedditComments`, `Reddit`, `Calendar` (proleptic
Gregorian dates for `timedelta` and `%Y-%m-%d`), `Bluesky`, `States`,
`Employment`, `Charities`.

Foreign pieces are parameters: the fuzzy scorer `fuzz.partial_ratio` (and the
scorer of `process.extractOne`) is any function to a score in 0..100;
`pd.to_numeric` is a function from text to an optional real;
`datetime.fromisoformat` is a function from text to an optional date-time; the
Reddit date-window test is a predicate on submissions; the Bluesky search is a
function from keyword to the posts it returns. Characters are ASCII: `isupper`
means "has an upper-case letter and no lower-case letter", a word character is
`[A-Za-z0-9_]`, whitespace is Python's ASCII whitespace.

## Model

| member | source | states |
|---|---|---|
| Ngos.RegistryNumbered | Social_Media/ngos_list.py:1-627 | the registry has 125 entries with ids 1..125 in list order (so distinct) and every keyword list is non-empty |
| Ngos.RegistryUpperNames | Social_Media/ngos_list.py:1-627 | the names passing `isupper` are exactly those of ids 2, 12, 25, 26, 28, 32, 49, 55, 67, 78 and 81 |
| Ngos.UpperNameIff | Social_Media/ngos_list.py:1-627 | an entry's name passes `isupper` iff its id is one of those eleven |
| Ngos.OwnersOfMacArthur | Social_Media/ngos_list.py:447-511 | "MacArthur Foundation" is listed by NGOs 90 and 102 and no other |
| Ngos.OwnersOfOpenSociety | Social_Media/ngos_list.py:452-541 | "Open Society Foundations" is listed by NGOs 91 and 108 and no other |
| Ngos.OwnersOfOsf | Social_Media/ngos_list.py:452-541 | "OSF" is listed by NGOs 91 and 108 and no other |
| Ngos.OwnersOfCarnegie | Social_Media/ngos_list.py:457-536 | "Carnegie Corporation of New York" is listed by NGOs 92 and 107 and no other |
| Ngos.OwnersOfWho | Social_Media/ngos_list.py:162-166 | "WHO" is listed by NGO 33 alone |
| Ngos.LaterEntriesRepeatKeywords | Social_Media/ngos_list.py:447-541 | every keyword of NGO 90 is listed again by NGO 102, and every keyword of NGO 91 by NGO 108 |
| YouTube.BuildKeywordMap | Social_Media/youtube_scraper.py:226-230 | the nested loops build exactly the last-entry-wins keyword dictionary |
| YouTube.KeywordMapDomain | Social_Media/youtube_scraper.py:227-230 | a keyword is in the dictionary iff some entry lists it |
| YouTube.KeywordMapLastOwner | Social_Media/youtube_scraper.py:227-230 | a keyword of the dictionary maps to the id of an entry listing it that no later entry lists again |
| YouTube.LastOwnerWins | Social_Media/youtube_scraper.py:228-230 | when several entries list a keyword, the dictionary credits it to the last of them |
| YouTube.SoleOwner | Social_Media/youtube_scraper.py:228-230 | a keyword listed by a single entry maps to that entry's id |
| YouTube.CreditKeyword | Social_Media/youtube_scraper.py:234-247 | the per-keyword test: acronym whole-word search ignoring case, else lower-case substring, else partial ratio at least the threshold |
| YouTube.FindNgosInVideo | Social_Media/youtube_scraper.py:217-249 | the loop returns exactly the ids that some keyword of the dictionary credits in "title description" |
| YouTube.MatchesAreRegistryIds | Social_Media/youtube_scraper.py:223-249 | every returned id is the id of some entry of the list, and the result is a set |
| YouTube.AcronymIgnoresScorer | Social_Media/youtube_scraper.py:234-238 | an acronym is credited iff it occurs as a case-insensitive whole word, whatever the scorer and threshold |
| YouTube.PlainKeywordCredit | Social_Media/youtube_scraper.py:240-247 | a non-acronym keyword found as a lower-case substring is credited; otherwise it is credited iff its partial ratio reaches the threshold |
| YouTube.ThresholdMonotone | Social_Media/youtube_scraper.py:246 | raising the fuzzy threshold never adds an id |
| YouTube.CreditedKeywordCounts | Social_Media/youtube_scraper.py:233-247 | a credited keyword credits the id the dictionary maps it to, independently of all other keywords |
| YouTube.ShadowedNeverMatched | Social_Media/youtube_scraper.py:228-230 | an entry all of whose keywords a later entry with another id lists again is never returned |
| YouTube.RegistryIdsDistinct | Social_Media/ngos_list.py:1-627 | the registry's 125 ids are pairwise distinct |
| YouTube.RegistryMatchesInRange | Social_Media/youtube_scraper.py:223-249 | over the registry every returned id lies in 1..125 |
| YouTube.Ngos90And91NeverMatched | Social_Media/youtube_scraper.py:228-230 | over the registry NGOs 90 and 91 are never returned, whatever the text, scorer and threshold |
| YouTube.WhoBelongsTo33 | Social_Media/youtube_scraper.py:228-230 | the registry's dictionary maps "WHO" to NGO 33 |
| YouTube.WhoCreditsWho | Social_Media/youtube_scraper.py:234-238 | the acronym "WHO" is credited by the ordinary word "Who" of the title "Who we are" |
| YouTube.OrdinaryWhoCredits33 | Social_Media/youtube_scraper.py:233-238 | a video titled "Who we are" credits NGO 33, whatever its description |
| YouTube.DedupVideos | Social_Media/youtube_scraper.py:384-389 | the loop keeps exactly the keep-first de-duplication by external content id |
| YouTube.DedupVideosProperties | Social_Media/youtube_scraper.py:384-389 | the kept records have distinct ids, the same set of ids, original order, and are exactly the first record of each id |
| RedditMatch.ScanKeywords | Social_Media/reddit_scraper.py:115-126 | the keyword loop with `break` reports a hit iff some keyword of that NGO matches |
| RedditMatch.ExactPhase | Social_Media/reddit_scraper.py:113-126 | the exact phase returns exactly the ids of the NGOs with a matching keyword |
| RedditMatch.ExactMatchIff | Social_Media/reddit_scraper.py:113-126 | for an NGO with its own id, it is exactly matched iff one of its keywords hits (case-sensitive whole word for acronyms, case-insensitive substring otherwise) |
| RedditMatch.ExtractOne | Social_Media/reddit_scraper.py:133 | no result iff there are no choices; otherwise a choice and its score, the score maximal among the choices |
| RedditMatch.FirstIdWithName | Social_Media/reddit_scraper.py:138 | no id iff no candidate has the name; otherwise the id of a candidate carrying it |
| RedditMatch.MatchPost | Social_Media/reddit_scraper.py:113-140 | the two phases return exactly the post's match set |
| RedditMatch.ExactResultIsFinal | Social_Media/reddit_scraper.py:129 | a non-empty exact result is the final result, otherwise the fuzzy result is; more than one id means they came from the exact phase |
| RedditMatch.FuzzyMatchIsBest | Social_Media/reddit_scraper.py:129-140 | the fuzzy phase adds at most one id, never 0, of a non-acronym entry whose score is maximal, reaches the threshold, and which is the first with its name |
| RedditMatch.FuzzyWinner | Social_Media/reddit_scraper.py:130-140 | a non-empty fuzzy result is the single id of such a winning entry |
| RedditMatch.FuzzyMatchFinds | Social_Media/reddit_scraper.py:130-140 | when some non-acronym name reaches the threshold and no id is 0, the fuzzy phase yields exactly one id |
| RedditMatch.PostMatchesAreIds | Social_Media/reddit_scraper.py:113-140 | every matched id is the id of an entry of the list |
| RedditMatch.ExactHitIsVideoCredit | Social_Media/reddit_scraper.py:116-125 | a keyword the post matcher finds exactly is also credited by the video matcher's test |
| Reddit.AppendMentions | Social_Media/reddit_scraper.py:166-170 | appending the mention rows adds one (ngo id, post id) row per matched id |
| Reddit.ScrapeSubredditPosts | Social_Media/reddit_scraper.py:97-182 | the post loop returns the content rows of the kept submissions in order, their mention rows, the set of NGOs found and their comment rows |
| Reddit.FoundIdsAreMentioned | Social_Media/reddit_scraper.py:144-170 | the NGOs found are exactly the NGOs of the mention rows |
| Reddit.OneMentionPerMatch | Social_Media/reddit_scraper.py:144-170 | a submission with its own id has one mention row per matched NGO if kept, and none otherwise |
| Reddit.NotMentioned | Social_Media/reddit_scraper.py:144-170 | no mention row names a post id that no submission has |
| Reddit.MentionsAreSound | Social_Media/reddit_scraper.py:144-170 | every mention row names an NGO of the list and a kept submission |
| Reddit.CommentRowsBounded | Social_Media/reddit_scraper.py:172-174 | each kept submission contributes at most 12 comment rows, scraped as written |
| RedditComments.ScrapePostComments | Social_Media/reddit_scraper.py:184-219 | depth 0 writes nothing; otherwise, for each of the first `limit` comments of the forest's breadth-first `list()`, its row followed by the rows scraped from its replies one level down |
| RedditComments.EmittedBounded | Social_Media/reddit_scraper.py:190-217 | as written, at most limit·(1 + bound(depth − 1)) comments are scraped, none at depth 0 |
| RedditComments.DefaultBound | Social_Media/reddit_scraper.py:20-23 | the defaults (3 per level, depth 2) bound a post's comment rows by 12 |
| RedditComments.AsWrittenInTree | Social_Media/reddit_scraper.py:194-217 | as written, every comment scraped is a comment of the post's tree |
| RedditComments.RowsDescribeComments | Social_Media/reddit_scraper.py:200-212 | as written, each row carries a tree comment's fields, with reply count its number of direct replies; depth 0 scrapes nothing |
| RedditComments.OneLevelAsWritten | Social_Media/reddit_scraper.py:194 | as written, depth 1 scrapes the first `limit` comments of the breadth-first list, which are the first `limit` top-level comments when the forest has at least `limit` |
| RedditComments.BfsListStartsWithQueue | Social_Media/reddit_scraper.py:194 | `list()` starts with the forest's own comments, in order |
| RedditComments.BfsInPreorder | Social_Media/reddit_scraper.py:194 | `list()` lists only comments of the tree |
| RedditComments.PerLevelBounded | Social_Media/reddit_scraper.py:186-188 | scraped per level, as the docstring describes, the same bound holds |
| RedditComments.EmittedInPreorder | Social_Media/reddit_scraper.py:186-188 | scraped per level, the comments are comments of the tree in depth-first order, each before its descendants |
| RedditComments.NoCommentTwice | Social_Media/reddit_scraper.py:186-188 | scraped per level, with distinct comment ids in the tree no comment row is written twice |
| RedditComments.OneLevelIsTopComments | Social_Media/reddit_scraper.py:186-188 | scraped per level, depth 1 takes exactly the first `limit` top-level comments |
| RedditComments.BfsListBounded | Social_Media/reddit_scraper.py:194 | each comment of the flattened list roots a tree no bigger than the forest |
| RedditComments.ExampleAsWritten | Social_Media/reddit_scraper.py:194 | as written, a comment with one reply yields the reply's row twice |
| RedditComments.ExampleIntended | Social_Media/reddit_scraper.py:194 | scraping per level yields the comment and its reply once each |
| RedditComments.ReplyScrapedTwice | Social_Media/reddit_scraper.py:194 | with the default limits, a tree with distinct ids still gets a duplicated row as written, and not when scraped per level |
| Calendar.NextDay | Social_Media/bluesky_scraper.py:90 | the following day exists except after 9999-12-31, and is later |
| Calendar.PrevDay | Social_Media/bluesky_scraper.py:89 | the preceding day exists except before 0001-01-01, and is earlier |
| Calendar.NextPrev | Social_Media/bluesky_scraper.py:89-90 | stepping a day back and forth are inverse |
| Calendar.AddDaysForward | Social_Media/bluesky_scraper.py:90 | adding days never moves backwards, and moves forwards unless 0 days are added |
| Calendar.SubDaysBackward | Social_Media/bluesky_scraper.py:89 | subtracting days never moves forwards, and moves backwards unless 0 days are subtracted |
| Calendar.AddAfterSub | Social_Media/bluesky_scraper.py:89-90 | adding back the days subtracted returns to the start |
| Calendar.AddDaysSplit | Social_Media/bluesky_scraper.py:89-90 | adding a + b days is adding a days, then b days |
| Calendar.ParseFormat | Social_Media/bluesky_scraper.py:82 | the strict `%Y-%m-%d` parser reads back every date formatting writes |
| Bluesky.ExtractUrlEmptyIff | Social_Media/bluesky_scraper.py:62-68 | the URL is empty iff the URI lacks the "at://did:plc:" prefix or splits into fewer than 5 parts |
| Bluesky.ExtractUrlOfPostUri | Social_Media/bluesky_scraper.py:65-71 | a post URI with slash-free parts becomes "https://bsky.app/profile/did:plc:DID/post/ID" |
| Bluesky.ExtractUrlExample | Social_Media/bluesky_scraper.py:57-60 | "at://did:plc:X/app.bsky.feed.post/P" becomes "https://bsky.app/profile/did:plc:X/post/P" |
| Bluesky.GetApiUrlRejects | Social_Media/bluesky_scraper.py:77-88 | no URL iff the keyword is empty, or a target date is given that does not parse or comes with a negative range; checked in that order |
| Bluesky.GetApiUrlWindow | Social_Media/bluesky_scraper.py:89-100 | the keyword is quoted; without a target the URL asks for a sort; with one it carries since ≤ target ≤ until at midnight, 2·range days apart, equal iff the range is 0 |
| Bluesky.WindowAroundTarget | Social_Media/bluesky_scraper.py:89-90 | range days either side of a date give since ≤ date ≤ until, 2·range days apart, equal iff the range is 0 |
| Bluesky.LastFractionBelow | Social_Media/bluesky_scraper.py:114-115 | the greedy `.*` finds the last '.' followed by six digits, or none |
| Bluesky.DigitRun | Social_Media/bluesky_scraper.py:114 | the `\d*` run: all digits, ended by a non-digit or the end |
| Bluesky.TruncateLineKeepsSix | Social_Media/bluesky_scraper.py:114-115 | the cut keeps the text up to the six kept digits, and no digit follows them |
| Bluesky.TruncateLineIdempotent | Social_Media/bluesky_scraper.py:114-115 | cutting the fraction twice is cutting it once |
| Bluesky.NormalizeTrailingZ | Social_Media/bluesky_scraper.py:119-120 | a line whose only "Z" is at the end gets "+00:00" in its place |
| Bluesky.NormalizeOneLine | Social_Media/bluesky_scraper.py:115 | a single-line stamp is cut as one line |
| Bluesky.NormalizeExample | Social_Media/bluesky_scraper.py:113 | "2025-04-14T13:50:14.61812900+00:00" becomes "2025-04-14T13:50:14.618129+00:00" |
| Bluesky.ParseBskyDateShape | Social_Media/bluesky_scraper.py:103-125 | the result is "" (always for empty input) or a 19-character `YYYY-MM-DD HH:MM:SS` text |
| Bluesky.PostRecords | Social_Media/bluesky_scraper.py:148-182 | the loop with its `continue`s keeps exactly the posts with a URI, a text and an author, in order, each made into its row |
| Bluesky.PostRecordsSound | Social_Media/bluesky_scraper.py:163-176 | each row is a usable post's URI, text and author, its URL the one derived from the URI, no views or title, a date empty or 19 characters |
| Bluesky.SaveContent | Social_Media/bluesky_scraper.py:189-205 | something is saved iff some post has a valid date; it is exactly those posts in order, and the invalid count is the number dropped |
| Bluesky.InvalidCountIsDropped | Social_Media/bluesky_scraper.py:199 | the invalid count is the number of posts without a valid date |
| Bluesky.PairKeyword | Social_Media/bluesky_scraper.py:262-268 | the loops over NGOs and posts build the pairing for an explicit keyword |
| Bluesky.CollectNgo | Social_Media/bluesky_scraper.py:273-283 | the loop over one NGO's keywords collects the posts found and pairs each with the NGO |
| Bluesky.CollectPosts | Social_Media/bluesky_scraper.py:254-283 | with a keyword its posts and pairing; without one every keyword's posts and every NGO's pairs |
| Bluesky.EmptyKeywordPairs | Social_Media/bluesky_scraper.py:259 | a search returning no posts yields no pairs |
| Bluesky.KeywordPairsIff | Social_Media/bluesky_scraper.py:262-268 | a post is paired with an NGO iff the NGO lists that exact keyword string |
| Bluesky.KeywordPairsOwners | Social_Media/bluesky_scraper.py:262-268 | when posts are found, the NGOs paired are exactly the owners of the keyword |
| Bluesky.OsfPairsBoth | Social_Media/bluesky_scraper.py:262-268 | searching "OSF" pairs its posts with both NGOs 91 and 108 |
| Bluesky.NgoPairsIff | Social_Media/bluesky_scraper.py:272-283 | without a keyword, a post is paired with an NGO iff searching one of its keywords returned it |
| Bluesky.AllPairsIff | Social_Media/bluesky_scraper.py:272-283 | the pairs of the whole loop are those of some NGO of the list |
| Bluesky.SavedMapping | Social_Media/bluesky_scraper.py:225 | the saved mapping has no duplicate row and the same rows as collected |
| States.NamesAreLong | Data_Integration/clean_nonprofit_employment2020.py:5-17 | every state name of the table has at least four letters and none is "Puerto Rico" |
| Employment.StateCodeIff | Data_Integration/clean_nonprofit_employment2020.py:79-81 | the code found is exactly the one `,\s*([A-Z]{2})\s*$` captures |
| Employment.EndingDetermined | Data_Integration/clean_nonprofit_employment2020.py:79-81 | wherever the regex matches, the code found is its capture |
| Employment.EndingOfCode | Data_Integration/clean_nonprofit_employment2020.py:79-81 | a code found sits where the regex matches |
| Employment.ConvertStateMeaning | Data_Integration/clean_nonprofit_employment2020.py:78-83 | without a match the title is unchanged; with one, every ", XX" becomes ", " + the mapped name; an unknown code leaves the title unchanged |
| Employment.ConvertSimpleTitle | Data_Integration/clean_nonprofit_employment2020.py:78-83 | "place, XX" with no earlier ", XX" becomes "place, " + the name |
| Employment.ConvertStateExample | Data_Integration/clean_nonprofit_employment2020.py:78-83 | "Boston, MA" becomes "Boston, Massachusetts" |
| Employment.ConvertStateNoSpace | Data_Integration/clean_nonprofit_employment2020.py:79-82 | "Foo,CA" matches the regex but is unchanged, since ", CA" does not occur |
| Employment.TotalsInAnyCase | Data_Integration/clean_nonprofit_employment2020.py:71 | "U.S. Totals" written in any case is caught by the exclusion |
| Employment.TwoStatesExample | Data_Integration/clean_nonprofit_employment2020.py:74 | "Philadelphia, PA-NJ" names two states and is excluded |
| Employment.CellConversion | Data_Integration/clean_nonprofit_employment2020.py:60-65 | a cell becomes a number iff it is text that parses once the ',' (or '%') characters are removed and the ends stripped; the text parsed holds none of them |
| Employment.CleanMeasures | Data_Integration/clean_nonprofit_employment2020.py:59-61 | the loop over the six numeric columns converts each of them in every row |
| Employment.ConvertTitleColumn | Data_Integration/clean_nonprofit_employment2020.py:85 | the column is converted title by title, failing on a missing title |
| Employment.CleanFile | Data_Integration/clean_nonprofit_employment2020.py:47-111 | no table gives None; otherwise the stages in order give the cleaned table, or the error of a missing title |
| Employment.NaicsStageIff | Data_Integration/clean_nonprofit_employment2020.py:47-48 | a row survives the NAICS filter iff its stripped code is a non-empty string of digits |
| Employment.NumericRowOrigin | Data_Integration/clean_nonprofit_employment2020.py:59-68 | a row left after `dropna` has its six measures and share converted from an input row, all numbers |
| Employment.TitledRowOrigin | Data_Integration/clean_nonprofit_employment2020.py:47-75 | a row left after the title exclusions passed the NAICS, numeric, totals, two-state and MSA tests |
| Employment.CleanedRowOrigin | Data_Integration/clean_nonprofit_employment2020.py:47-99 | every cleaned row comes from an input row that passed every test; its title is that title with the state spelled out, and it is not Puerto Rico or the Virgin Islands |
| Employment.FinalStageKeys | Data_Integration/clean_nonprofit_employment2020.py:94-99 | at most 3037 rows, no two sharing (title, NAICS), each the first of its key |
| Employment.FinalStageComplete | Data_Integration/clean_nonprofit_employment2020.py:94-99 | short of the 3037 cut, the first row of every key outside Puerto Rico and the Virgin Islands is kept |
| Charities.CleanFile | Data_Integration/clean_charities2020.py:53-77 | None iff either table is missing; otherwise the cleaned rows, with distinct EINs and no Puerto Rico or VI state |
| Charities.MergeOneIff | Data_Integration/clean_charities2020.py:53 | one filing gets a row per mapping row with its EIN, or one row without a state when there is none |
| Charities.LeftMergeIff | Data_Integration/clean_charities2020.py:53-56 | the merged rows are each a filing with the state of a mapping row for its EIN, or with no state when no row has its EIN |
| Charities.CleanedSound | Data_Integration/clean_charities2020.py:53-69 | every cleaned row is a filing whose EIN is in the mapping, with that state spelled out, and is not Puerto Rico or VI |
| Charities.CleanedDistinct | Data_Integration/clean_charities2020.py:65 | no two cleaned rows share an EIN |
| Charities.CleanedKeepsFirst | Data_Integration/clean_charities2020.py:65-69 | the first located row of each EIN is kept iff its state is neither excluded value, and no other row is kept |
| Charities.ExcludedStates | Data_Integration/clean_charities2020.py:4-16 | a state ends up Puerto Rico or VI iff it was "PR", "Puerto Rico" or "VI"; "DC" becomes District of Columbia |

## Left out

- Platform I/O: the YouTube, Reddit and Bluesky API clients, pagination, `get_videos_from_channel`, `get_video_details`, `get_comment_from_video`, `get_channel_id_by_name`, the Reddit `top(limit=300)` fetch and CSV reading and writing. These are driven by remote responses and the file system; fetched data are inputs.
- The YouTube `main` loop that gathers videos and mention rows (Social_Media/youtube_scraper.py:361-372): it only calls the matcher and appends its results.
- The internals of `thefuzz`: `partial_ratio` and the default processor of `process.extractOne` are an abstract scorer with scores in 0..100.
- RedditMatch.ExtractOne: which of several equally scored names it returns is library behaviour; the model returns the first and the contracts promise only a maximal score.
- The Reddit date window (Social_Media/reddit_scraper.py:106-111) is a predicate parameter, since it works on float epoch seconds through `pd.to_datetime`.
- The `created_utc` timestamp formatting of Reddit posts and comments and of YouTube videos: a submission or comment carries its formatted date as a field.
- `replace_more(limit=0)`: comment trees are given with their "load more" placeholders already removed.
- The order of the mention rows of one post: the source iterates a Python set, so the mentions are specified as a multiset.
- The three-value return on the Reddit error path (Social_Media/reddit_scraper.py:95): the fetch is not modelled.
- `datetime.fromisoformat`: a parameter, since the fraction lengths it accepts depend on the Python version.
- Calendar.ParseDate: a strict `YYYY-MM-DD` parser; `strptime` also accepts unpadded numbers such as "2025-4-1".
- Bluesky.GetApiUrl: an overflow of the window past year 1 or 9999, where `timedelta` raises `OverflowError`, is the `DateOverflow` result.
- Bluesky search failures (a request error or a response without `posts`) are a search that returns no posts; Bluesky comments are never collected, so the empty comment file is not modelled.
- Bluesky.PostRecords: a post without `author.handle` raises `KeyError`, which the loop catches; the model drops such a post. Other `KeyError`s of a malformed response are not modelled.
- pandas specifics: positional column selection, renaming, `astype(str)` of EINs, the dtype of a column (a `.str` accessor on a non-text column), and the order `merge` gives to one EIN's several mapping rows (the model uses mapping order).
- `pd.to_numeric` is a parameter: the model says only which text it is given and that an unparsable cell is dropped by `dropna`.
- The printing of duplicate rows (Data_Integration/clean_nonprofit_employment2020.py:88-91) and every other console message.
- Employment.CleanFile: the `ValueError` branch (Data_Integration/clean_nonprofit_employment2020.py:109-111) is not distinguished from a table that cannot be read.
- Unicode: characters are ASCII; there is no Unicode case folding and no Unicode `\b`, `\d` or `\s`.
- Data_Integration/generate_sql_from_prompt.py is not part of this model: it sends a fixed prompt to a language-model API.
- CLI parsing, environment variables and credentials, and the random choice of channels.
- The documentation says that a keyword shared by two NGOs credits both; the video matcher's dictionary credits only the last, and the model follows the code (YouTube.LastOwnerWins, YouTube.Ngos90And91NeverMatched). The Bluesky pairing does credit both (Bluesky.OsfPairsBoth).

## Findings

| source | as written | input that shows it | evidently intended | confidence | as-written member | corrected member |
|---|---|---|---|---|---|---|
| Social_Media/reddit_scraper.py:194 | each level slices `comment_forest.list()`, which flattens the whole forest below it, so a reply is taken once at the top level and again under its parent | a post with one comment that has one reply, default limits 3 and 2: the reply's row is written twice | take the first `limit` comments of the level itself, so each comment is written once | not executed | RedditComments.ReplyScrapedTwice | RedditComments.NoCommentTwice |

The comment scraper `RedditComments.ScrapePostComments` and the post loop `Reddit.ScrapeSubredditPosts` follow the code as written (`RedditComments.EmittedAsWritten`). The per-level definition `RedditComments.Emitted` is the scraping that the docstring at Social_Media/reddit_scraper.py:186-188 describes; the lemmas about it, with `NoCommentTwice` among them, are the corrected half of the finding.
