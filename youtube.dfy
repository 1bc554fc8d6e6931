/** The video matcher of the YouTube scraper: which NGOs a video's title and
    description mention, and the keep-first de-duplication of collected videos.

    The fuzzy scorer `fuzz.partial_ratio` is a parameter, any function from two
    strings to a score in 0..100. */
module YouTube {
  import opened Text
  import opened Ngos
  import opened Records
  import Rows

  type Score = r: int | 0 <= r <= 100

  /** the text searched: title, one space, description */
  function VideoText(title: string, description: string): string { title + " " + description }

  /** The keyword dictionary: each keyword maps to the id of the last NGO in list
      order that lists it, a later entry overwriting an earlier one. */
  function KeywordMap(ngos: seq<Ngo>): map<string, int>
    decreases |ngos|
  {
    if ngos == [] then map[]
    else
      var last := ngos[|ngos| - 1];
      KeywordMap(ngos[..|ngos| - 1]) + KeywordsTo(last.keywords, last.id)
  }

  /** every keyword of `keywords` mapped to `id` */
  function KeywordsTo(keywords: seq<string>, id: int): map<string, int> {
    map k | k in keywords :: id
  }

  /** Whether `keyword` counts as found in `text`: an acronym (`str.isupper`) as a
      case-insensitive whole word; any other keyword as a lower-case substring, or
      else when its fuzzy score against the lower-cased text reaches the threshold. */
  predicate KeywordCredited(keyword: string, text: string, threshold: int, ratio: (string, string) -> Score) {
    if IsUpper(keyword) then ContainsWord(text, keyword, true)
    else Contains(Lower(text), Lower(keyword)) || ratio(Lower(keyword), Lower(text)) >= threshold
  }

  /** the ids credited by some keyword of the dictionary */
  function VideoMatches(ngos: seq<Ngo>, text: string, threshold: int, ratio: (string, string) -> Score): set<int> {
    var m := KeywordMap(ngos);
    CreditedIds(m, m.Keys, text, threshold, ratio)
  }

  /** the ids the dictionary `m` gives the credited keywords of `ks` */
  function CreditedIds(m: map<string, int>, ks: set<string>, text: string, threshold: int, ratio: (string, string) -> Score): set<int> {
    set k | k in ks && k in m && KeywordCredited(k, text, threshold, ratio) :: m[k]
  }

  /** The dictionary-building loops: every keyword of every entry, in list order,
      written over whatever an earlier entry stored for it. */
  method BuildKeywordMap(ngos: seq<Ngo>) returns (keywordToNgo: map<string, int>)
    ensures keywordToNgo == KeywordMap(ngos)
  {
    keywordToNgo := map[];
    var i := 0;
    while i < |ngos|
      invariant 0 <= i <= |ngos|
      invariant keywordToNgo == KeywordMap(ngos[..i])
    {
      var ngo := ngos[i];
      var j := 0;
      while j < |ngo.keywords|
        invariant 0 <= j <= |ngo.keywords|
        invariant keywordToNgo == KeywordMap(ngos[..i]) + KeywordsTo(ngo.keywords[..j], ngo.id)
      {
        KeywordsToStep(KeywordMap(ngos[..i]), ngo.keywords, j, ngo.id);
        keywordToNgo := keywordToNgo[ngo.keywords[j] := ngo.id];
        j := j + 1;
      }
      assert ngo.keywords[..j] == ngo.keywords;
      assert ngos[..i + 1][..i] == ngos[..i];
      i := i + 1;
    }
    assert ngos[..i] == ngos;
  }

  /** one more keyword stored over a dictionary */
  lemma KeywordsToStep(m: map<string, int>, keywords: seq<string>, j: int, id: int)
    requires 0 <= j < |keywords|
    ensures m + KeywordsTo(keywords[..j + 1], id) == (m + KeywordsTo(keywords[..j], id))[keywords[j] := id]
  {
    assert keywords[..j + 1] == keywords[..j] + [keywords[j]];
  }

  /** the test applied to one keyword of the dictionary */
  method CreditKeyword(keyword: string, videoText: string, fuzzyThreshold: int, partialRatio: (string, string) -> Score)
    returns (credited: bool)
    ensures credited == KeywordCredited(keyword, videoText, fuzzyThreshold, partialRatio)
  {
    if IsUpper(keyword) {
      credited := ContainsWord(videoText, keyword, true);
    } else {
      if Contains(Lower(videoText), Lower(keyword)) {
        credited := true;
      } else {
        var ratio := partialRatio(Lower(keyword), Lower(videoText));
        credited := ratio >= fuzzyThreshold;
      }
    }
  }

  method FindNgosInVideo(title: string, description: string, ngos: seq<Ngo>, fuzzyThreshold: int,
                         partialRatio: (string, string) -> Score)
    returns (found: set<int>)
    ensures found == VideoMatches(ngos, VideoText(title, description), fuzzyThreshold, partialRatio)
  {
    var videoText := title + " " + description;
    var keywordToNgo := BuildKeywordMap(ngos);
    found := {};
    var remaining := keywordToNgo.Keys;
    while remaining != {}
      invariant remaining <= keywordToNgo.Keys
      invariant found == CreditedIds(keywordToNgo, keywordToNgo.Keys - remaining, videoText, fuzzyThreshold, partialRatio)
      decreases |remaining|
    {
      var keyword :| keyword in remaining;
      var credited := CreditKeyword(keyword, videoText, fuzzyThreshold, partialRatio);
      CreditedIdsStep(keywordToNgo, remaining, keyword, found, credited, videoText, fuzzyThreshold, partialRatio);
      if credited {
        found := found + {keywordToNgo[keyword]};
      }
      remaining := remaining - {keyword};
    }
    assert keywordToNgo.Keys - remaining == keywordToNgo.Keys;
  }

  /** one more keyword of the dictionary tested */
  lemma CreditedIdsStep(m: map<string, int>, remaining: set<string>, k: string, found: set<int>, credited: bool,
                        text: string, threshold: int, ratio: (string, string) -> Score)
    requires k in remaining && remaining <= m.Keys
    requires found == CreditedIds(m, m.Keys - remaining, text, threshold, ratio)
    requires credited == KeywordCredited(k, text, threshold, ratio)
    ensures (if credited then found + {m[k]} else found) == CreditedIds(m, m.Keys - (remaining - {k}), text, threshold, ratio)
  {
    assert m.Keys - (remaining - {k}) == (m.Keys - remaining) + {k};
    CreditedIdsAdd(m, m.Keys - remaining, k, text, threshold, ratio);
  }

  lemma CreditedIdsAdd(m: map<string, int>, done: set<string>, k: string, text: string, threshold: int, ratio: (string, string) -> Score)
    requires k in m
    ensures CreditedIds(m, done + {k}, text, threshold, ratio)
         == CreditedIds(m, done, text, threshold, ratio) + (if KeywordCredited(k, text, threshold, ratio) then {m[k]} else {})
  {
  }

  // ---------------------------------------------------------------------------
  // The keyword dictionary

  /** one more entry stored over the dictionary of the entries before it */
  lemma KeywordMapStep(ngos: seq<Ngo>, k: string)
    requires ngos != []
    ensures var init, last := ngos[..|ngos| - 1], ngos[|ngos| - 1];
      && (k in last.keywords ==> k in KeywordMap(ngos) && KeywordMap(ngos)[k] == last.id)
      && (k !in last.keywords ==> (k in KeywordMap(ngos) <==> k in KeywordMap(init)))
      && (k !in last.keywords && k in KeywordMap(init) ==> KeywordMap(ngos)[k] == KeywordMap(init)[k])
  {
  }

  /** The dictionary holds exactly the keywords some entry lists. */
  lemma {:induction false} KeywordMapDomain(ngos: seq<Ngo>, k: string)
    ensures k in KeywordMap(ngos) <==> exists i | 0 <= i < |ngos| :: k in ngos[i].keywords
    decreases |ngos|
  {
    if ngos != [] {
      var init := ngos[..|ngos| - 1];
      var n := |ngos| - 1;
      KeywordMapStep(ngos, k);
      KeywordMapDomain(init, k);
      if k in ngos[n].keywords {
        assert k in KeywordMap(ngos);
      } else {
        forall i | 0 <= i < |ngos| && k in ngos[i].keywords ensures k in KeywordMap(init) {
          assert i < n && init[i] == ngos[i];
        }
        if k in KeywordMap(init) {
          var i :| 0 <= i < |init| && k in init[i].keywords;
          assert ngos[i] == init[i];
        }
      }
    }
  }

  /** Each keyword of the dictionary maps to the id of the last entry listing it. */
  lemma {:induction false} KeywordMapLastOwner(ngos: seq<Ngo>, k: string) returns (i: int)
    requires k in KeywordMap(ngos)
    ensures 0 <= i < |ngos| && k in ngos[i].keywords && KeywordMap(ngos)[k] == ngos[i].id
    ensures forall j | i < j < |ngos| :: k !in ngos[j].keywords
    decreases |ngos|
  {
    var init := ngos[..|ngos| - 1];
    var n := |ngos| - 1;
    KeywordMapStep(ngos, k);
    if k in ngos[n].keywords {
      i := n;
    } else {
      i := KeywordMapLastOwner(init, k);
      assert ngos[i] == init[i];
      forall j | i < j < |ngos| ensures k !in ngos[j].keywords {
        if j < n { assert ngos[j] == init[j]; }
      }
    }
  }

  /** When several entries list a keyword, the dictionary credits it to the last of them. */
  lemma LastOwnerWins(ngos: seq<Ngo>, k: string, i: int)
    requires 0 <= i < |ngos| && k in ngos[i].keywords
    requires forall j | i < j < |ngos| :: k !in ngos[j].keywords
    ensures k in KeywordMap(ngos) && KeywordMap(ngos)[k] == ngos[i].id
  {
    KeywordMapDomain(ngos, k);
    var i' := KeywordMapLastOwner(ngos, k);
    assert i' == i;
  }

  // ---------------------------------------------------------------------------
  // Properties of the matcher

  /** Every matched id is the id of some entry (and a set holds no duplicates). */
  lemma MatchesAreRegistryIds(ngos: seq<Ngo>, text: string, threshold: int, ratio: (string, string) -> Score)
    ensures forall x | x in VideoMatches(ngos, text, threshold, ratio) :: exists i | 0 <= i < |ngos| :: ngos[i].id == x
  {
    forall x | x in VideoMatches(ngos, text, threshold, ratio) ensures exists i | 0 <= i < |ngos| :: ngos[i].id == x {
      var k :| k in KeywordMap(ngos) && KeywordMap(ngos)[k] == x && KeywordCredited(k, text, threshold, ratio);
      var i := KeywordMapLastOwner(ngos, k);
    }
  }

  /** An acronym keyword is credited exactly when it occurs as a case-insensitive whole
      word; the fuzzy scorer and the threshold play no part. */
  lemma AcronymIgnoresScorer(k: string, text: string, th1: int, r1: (string, string) -> Score,
                             th2: int, r2: (string, string) -> Score)
    requires IsUpper(k)
    ensures KeywordCredited(k, text, th1, r1) <==> ContainsWord(text, k, true)
    ensures KeywordCredited(k, text, th1, r1) <==> KeywordCredited(k, text, th2, r2)
  {
  }

  /** A non-acronym keyword whose lower-case form occurs in the lower-cased text is
      credited whatever the scorer; otherwise it is credited exactly when its score
      reaches the threshold. */
  lemma PlainKeywordCredit(k: string, text: string, th: int, ratio: (string, string) -> Score)
    requires !IsUpper(k)
    ensures Contains(Lower(text), Lower(k)) ==> KeywordCredited(k, text, th, ratio)
    ensures !Contains(Lower(text), Lower(k)) ==>
      (KeywordCredited(k, text, th, ratio) <==> ratio(Lower(k), Lower(text)) >= th)
  {
  }

  /** Raising the fuzzy threshold never adds an id. */
  lemma ThresholdMonotone(ngos: seq<Ngo>, text: string, lo: int, hi: int, ratio: (string, string) -> Score)
    requires lo <= hi
    ensures VideoMatches(ngos, text, hi, ratio) <= VideoMatches(ngos, text, lo, ratio)
  {
    forall x | x in VideoMatches(ngos, text, hi, ratio) ensures x in VideoMatches(ngos, text, lo, ratio) {
      var k :| k in KeywordMap(ngos) && KeywordMap(ngos)[k] == x && KeywordCredited(k, text, hi, ratio);
      assert KeywordCredited(k, text, lo, ratio);
    }
  }

  /** An entry every keyword of which is listed again by a later entry with another
      id is never matched, whatever the text, scorer or threshold. */
  lemma {:induction false} ShadowedNeverMatched(ngos: seq<Ngo>, i: int, j: int, text: string, threshold: int,
                                                ratio: (string, string) -> Score)
    requires 0 <= i < j < |ngos|
    requires forall k | k in ngos[i].keywords :: k in ngos[j].keywords
    requires forall l | 0 <= l < |ngos| && l != i :: ngos[l].id != ngos[i].id
    ensures ngos[i].id !in VideoMatches(ngos, text, threshold, ratio)
  {
    forall k | k in KeywordMap(ngos) ensures KeywordMap(ngos)[k] != ngos[i].id {
      var l := KeywordMapLastOwner(ngos, k);
    }
  }

  // ---------------------------------------------------------------------------
  // Consequences for the registry

  lemma RegistryIdsDistinct()
    ensures |Registry| == 125
    ensures forall a, b | 0 <= a < |Registry| && 0 <= b < |Registry| && a != b :: Registry[a].id != Registry[b].id
  {
    RegistryNumbered();
  }

  /** Every id the matcher returns over the registry lies in 1..125. */
  lemma RegistryMatchesInRange(text: string, threshold: int, ratio: (string, string) -> Score)
    ensures forall x | x in VideoMatches(Registry, text, threshold, ratio) :: 1 <= x <= 125
  {
    RegistryNumbered();
    MatchesAreRegistryIds(Registry, text, threshold, ratio);
  }

  /** NGOs 90 and 91 are never returned over the registry: all their keywords are
      listed again by NGOs 102 and 108 further down the list. */
  lemma Ngos90And91NeverMatched(text: string, threshold: int, ratio: (string, string) -> Score)
    ensures 90 !in VideoMatches(Registry, text, threshold, ratio)
    ensures 91 !in VideoMatches(Registry, text, threshold, ratio)
  {
    LaterEntriesRepeatKeywords();
    RegistryIdsDistinct();
    ShadowedNeverMatched(Registry, 89, 101, text, threshold, ratio);
    ShadowedNeverMatched(Registry, 90, 107, text, threshold, ratio);
  }

  /** A keyword listed by a single entry maps to that entry's id. */
  lemma SoleOwner(ngos: seq<Ngo>, k: string, i: int)
    requires 0 <= i < |ngos| && k in ngos[i].keywords
    requires Owners(ngos, k) == {ngos[i].id}
    requires forall a, b | 0 <= a < |ngos| && 0 <= b < |ngos| && a != b :: ngos[a].id != ngos[b].id
    ensures k in KeywordMap(ngos) && KeywordMap(ngos)[k] == ngos[i].id
  {
    forall j | i < j < |ngos| ensures k !in ngos[j].keywords {
      assert ngos[j].id in Owners(ngos, k) || k !in ngos[j].keywords;
    }
    LastOwnerWins(ngos, k, i);
  }

  /** 'WHO' is listed only by NGO 33, so the dictionary credits it to 33. */
  lemma WhoBelongsTo33()
    ensures "WHO" in KeywordMap(Registry) && KeywordMap(Registry)["WHO"] == 33
  {
    OwnersOfWho();
    RegistryIdsDistinct();
    RegistryNumbered();
    assert Registry[32].id == 33;
    var i :| 0 <= i < |Registry| && "WHO" in Registry[i].keywords && Registry[i].id == 33;
    assert i == 32;
    SoleOwner(Registry, "WHO", 32);
  }

  /** The ordinary word "Who" at the start of a title credits NGO 33 through 'WHO':
      acronyms are compared ignoring case. */
  lemma OrdinaryWhoCredits33(description: string, threshold: int, ratio: (string, string) -> Score)
    ensures 33 in VideoMatches(Registry, VideoText("Who we are", description), threshold, ratio)
  {
    WhoBelongsTo33();
    WhoCreditsWho(description, threshold, ratio);
    CreditedKeywordCounts(Registry, VideoText("Who we are", description), threshold, ratio, "WHO");
  }

  lemma WhoCreditsWho(description: string, threshold: int, ratio: (string, string) -> Score)
    ensures KeywordCredited("WHO", VideoText("Who we are", description), threshold, ratio)
  {
    var text := VideoText("Who we are", description);
    assert text[..3] == "Who";
    assert Lower(text[0..3]) == "who" == Lower("WHO");
    assert text[3] == ' ';
    assert WholeWordAt(text, "WHO", 0, true);
    assert IsUpper("WHO") by { assert IsUpperChar("WHO"[0]); }
  }

  /** a credited keyword of the dictionary credits the id it maps to */
  lemma CreditedKeywordCounts(ngos: seq<Ngo>, text: string, threshold: int, ratio: (string, string) -> Score, k: string)
    requires k in KeywordMap(ngos) && KeywordCredited(k, text, threshold, ratio)
    ensures KeywordMap(ngos)[k] in VideoMatches(ngos, text, threshold, ratio)
  {
  }

  // ---------------------------------------------------------------------------
  // De-duplication of the collected video rows

  /** Keeps the first row for each external content id, in order. */
  method DedupVideos(videos: seq<ContentRecord>) returns (unique: seq<ContentRecord>)
    ensures unique == Rows.DedupBy(videos, ContentId)
  {
    var uniqueIds: set<string> := {};
    unique := [];
    var i := 0;
    while i < |videos|
      invariant 0 <= i <= |videos|
      invariant unique == Rows.DedupBy(videos[..i], ContentId)
      invariant uniqueIds == Rows.KeysOf(unique, ContentId)
    {
      var video := videos[i];
      assert videos[..i + 1][..i] == videos[..i];
      if video.externalContentId !in uniqueIds {
        uniqueIds := uniqueIds + {video.externalContentId};
        unique := unique + [video];
        Rows.KeysOfAppend(Rows.DedupBy(videos[..i], ContentId), video, ContentId);
      }
      i := i + 1;
    }
    assert videos[..i] == videos;
  }

  /** The de-duplicated rows: distinct ids, the same id set, original order, and each
      the first row of the input with its id. */
  lemma DedupVideosProperties(videos: seq<ContentRecord>)
    ensures Rows.DistinctKeys(Rows.DedupBy(videos, ContentId), ContentId)
    ensures Rows.KeysOf(Rows.DedupBy(videos, ContentId), ContentId) == Rows.KeysOf(videos, ContentId)
    ensures Rows.IsSubsequence(Rows.DedupBy(videos, ContentId), videos)
    ensures forall j | 0 <= j < |videos| && Rows.IsFirstOfKey(videos, ContentId, j) ::
      videos[j] in Rows.DedupBy(videos, ContentId)
  {
    Rows.DedupByIsSubsequence(videos, ContentId);
    Rows.DedupByKeepsFirst(videos, ContentId);
  }
}
