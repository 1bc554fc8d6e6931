/** The post matcher of the Reddit scraper.  An exact phase tries every NGO's
    keywords in turn; only when it finds nothing does a fuzzy phase pick the single
    NGO whose name scores best against the post.

    The scorer of `process.extractOne` (`fuzz.partial_ratio` after the library's
    default string processing) is a parameter, any function to a score in 0..100. */
module RedditMatch {
  import opened Text
  import opened Ngos
  import opened Records
  import Rows
  import YouTube

  type Score = YouTube.Score

  /** the text searched: post title, one space, post body */
  function PostContent(title: string, selftext: string): string { title + " " + selftext }

  // ---------------------------------------------------------------------------
  // Exact phase

  /** An acronym keyword (`str.isupper`) must occur as a whole word with the same
      letter case; any other keyword as a substring, ignoring case. */
  predicate ExactHit(keyword: string, content: string) {
    if IsUpper(keyword) then ContainsWord(content, keyword, false)
    else Contains(Lower(content), Lower(keyword))
  }

  predicate NgoExactHit(ngo: Ngo, content: string) {
    exists j | 0 <= j < |ngo.keywords| :: ExactHit(ngo.keywords[j], content)
  }

  /** the ids of the NGOs one of whose keywords hits */
  function ExactMatches(ngos: seq<Ngo>, content: string): set<int> {
    set i | 0 <= i < |ngos| && NgoExactHit(ngos[i], content) :: ngos[i].id
  }

  /** the scan of one NGO's keywords, which stops at the first keyword that hits */
  method ScanKeywords(ngo: Ngo, content: string) returns (hit: bool)
    ensures hit == NgoExactHit(ngo, content)
  {
    hit := false;
    var j := 0;
    while j < |ngo.keywords|
      invariant 0 <= j <= |ngo.keywords|
      invariant forall m | 0 <= m < j :: !ExactHit(ngo.keywords[m], content)
    {
      var keyword := ngo.keywords[j];
      if IsUpper(keyword) {
        if ContainsWord(content, keyword, false) {
          hit := true;
          break;
        }
      } else {
        if Contains(Lower(content), Lower(keyword)) {
          hit := true;
          break;
        }
      }
      j := j + 1;
    }
  }

  method ExactPhase(content: string, ngos: seq<Ngo>) returns (matched: set<int>)
    ensures matched == ExactMatches(ngos, content)
  {
    matched := {};
    for i := 0 to |ngos|
      invariant matched == set k | 0 <= k < i && NgoExactHit(ngos[k], content) :: ngos[k].id
    {
      var hit := ScanKeywords(ngos[i], content);
      if hit {
        matched := matched + {ngos[i].id};
      }
    }
  }

  // ---------------------------------------------------------------------------
  // Fuzzy phase

  predicate NotUpperName(n: Ngo) { !IsUpper(n.name) }

  function Names(ngos: seq<Ngo>): (names: seq<string>)
    ensures |names| == |ngos| && forall i | 0 <= i < |ngos| :: names[i] == ngos[i].name
  {
    seq(|ngos|, i requires 0 <= i < |ngos| => ngos[i].name)
  }

  /** `process.extractOne(query, choices, scorer)`: a choice with the greatest score,
      the earliest on a tie, with that score; None when there are no choices */
  function ExtractOne(query: string, choices: seq<string>, scorer: (string, string) -> Score): (r: Option<(string, Score)>)
    ensures r.None? <==> choices == []
    ensures r.Some? ==> r.value.0 in choices && r.value.1 == scorer(query, r.value.0)
    ensures r.Some? ==> forall c | c in choices :: scorer(query, c) <= r.value.1
    decreases |choices|
  {
    if choices == [] then None
    else
      var last := choices[|choices| - 1];
      assert choices == choices[..|choices| - 1] + [last];
      match ExtractOne(query, choices[..|choices| - 1], scorer)
      case None => Some((last, scorer(query, last)))
      case Some(best) => if scorer(query, last) > best.1 then Some((last, scorer(query, last))) else Some(best)
  }

  /** `next((ngo['ngo_id'] for ngo in ngos if ngo['name'] == name), None)` */
  function FirstIdWithName(ngos: seq<Ngo>, name: string): (r: Option<int>)
    ensures r.None? <==> forall i | 0 <= i < |ngos| :: ngos[i].name != name
    ensures r.Some? ==> exists i | 0 <= i < |ngos| :: ngos[i].name == name && ngos[i].id == r.value
                          && forall j | 0 <= j < i :: ngos[j].name != name
  {
    if ngos == [] then None
    else if ngos[0].name == name then Some(ngos[0].id)
    else
      var r := FirstIdWithName(ngos[1..], name);
      assert forall i | 1 <= i < |ngos| :: ngos[i] == ngos[1..][i - 1];
      if r.Some? then
        var i :| 0 <= i < |ngos[1..]| && ngos[1..][i].name == name && ngos[1..][i].id == r.value
                 && forall j | 0 <= j < i :: ngos[1..][j].name != name;
        assert ngos[i + 1].name == name && ngos[i + 1].id == r.value;
        r
      else r
  }

  /** the fuzzy phase: at most the one id of the best-scoring non-acronym name,
      when that score reaches the threshold and the id is not 0 (falsy) */
  function FuzzyMatch(ngos: seq<Ngo>, content: string, threshold: int, scorer: (string, string) -> Score): set<int> {
    var candidates := Rows.Filter(ngos, NotUpperName);
    var names := Names(candidates);
    if names == [] then {}
    else
      match ExtractOne(content, names, scorer)
      case None => {}
      case Some(best) =>
        if best.1 >= threshold then
          match FirstIdWithName(candidates, best.0)
          case None => {}
          case Some(id) => if id != 0 then {id} else {}
        else {}
  }

  /** the ids matched to a post: the exact phase's, or the fuzzy phase's when those are none */
  function PostMatches(ngos: seq<Ngo>, content: string, threshold: int, scorer: (string, string) -> Score): set<int> {
    var exact := ExactMatches(ngos, content);
    if exact != {} then exact else FuzzyMatch(ngos, content, threshold, scorer)
  }

  method MatchPost(content: string, ngos: seq<Ngo>, fuzzyThreshold: int, scorer: (string, string) -> Score)
    returns (matched: set<int>)
    ensures matched == PostMatches(ngos, content, fuzzyThreshold, scorer)
  {
    matched := ExactPhase(content, ngos);
    if matched == {} {
      matched := FuzzyMatch(ngos, content, fuzzyThreshold, scorer);
    }
  }

  // ---------------------------------------------------------------------------
  // Properties

  /** An NGO is exactly matched iff one of its keywords hits; the `break` only ends
      the scan of that NGO's own keywords. */
  lemma ExactMatchIff(ngos: seq<Ngo>, content: string, i: int)
    requires 0 <= i < |ngos|
    requires forall j | 0 <= j < |ngos| && j != i :: ngos[j].id != ngos[i].id
    ensures ngos[i].id in ExactMatches(ngos, content) <==>
      exists k | 0 <= k < |ngos[i].keywords| :: ExactHit(ngos[i].keywords[k], content)
  {
    if ngos[i].id in ExactMatches(ngos, content) {
      var i' :| 0 <= i' < |ngos| && NgoExactHit(ngos[i'], content) && ngos[i'].id == ngos[i].id;
      assert i' == i;
    }
  }

  /** entry i can be the fuzzy winner: a non-acronym name whose score is the greatest
      among the non-acronym names and reaches the threshold, and the first entry
      with that name */
  predicate IsFuzzyWinner(ngos: seq<Ngo>, content: string, threshold: int, scorer: (string, string) -> Score, i: int)
    requires 0 <= i < |ngos|
  {
    && !IsUpper(ngos[i].name)
    && scorer(content, ngos[i].name) >= threshold
    && (forall j | 0 <= j < |ngos| && !IsUpper(ngos[j].name) :: scorer(content, ngos[j].name) <= scorer(content, ngos[i].name))
    && (forall j | 0 <= j < i && !IsUpper(ngos[j].name) :: ngos[j].name != ngos[i].name)
  }

  /** The fuzzy phase yields at most one id, never 0, and it is a winner's id. */
  lemma FuzzyMatchIsBest(ngos: seq<Ngo>, content: string, threshold: int, scorer: (string, string) -> Score)
    ensures |FuzzyMatch(ngos, content, threshold, scorer)| <= 1
    ensures forall x | x in FuzzyMatch(ngos, content, threshold, scorer) ::
      x != 0 && exists i | 0 <= i < |ngos| :: ngos[i].id == x && IsFuzzyWinner(ngos, content, threshold, scorer, i)
  {
    if FuzzyMatch(ngos, content, threshold, scorer) != {} {
      var i := FuzzyWinner(ngos, content, threshold, scorer);
    }
  }

  lemma FuzzyWinner(ngos: seq<Ngo>, content: string, threshold: int, scorer: (string, string) -> Score) returns (i: int)
    requires FuzzyMatch(ngos, content, threshold, scorer) != {}
    ensures 0 <= i < |ngos| && FuzzyMatch(ngos, content, threshold, scorer) == {ngos[i].id} && ngos[i].id != 0
    ensures IsFuzzyWinner(ngos, content, threshold, scorer, i)
  {
    var best, c := FuzzyMatchSteps(ngos, content, threshold, scorer);
    i := CandidateWinner(ngos, content, threshold, scorer, best, c);
  }

  /** the entry behind the first candidate carrying the best name is a winner */
  lemma CandidateWinner(ngos: seq<Ngo>, content: string, threshold: int, scorer: (string, string) -> Score,
                        best: (string, Score), c: int) returns (i: int)
    requires 0 <= c < |Rows.Filter(ngos, NotUpperName)|
    requires Rows.Filter(ngos, NotUpperName)[c].name == best.0
    requires forall j | 0 <= j < c :: Rows.Filter(ngos, NotUpperName)[j].name != best.0
    requires best.1 >= threshold && best.1 == scorer(content, best.0)
    requires forall n | n in Names(Rows.Filter(ngos, NotUpperName)) :: scorer(content, n) <= best.1
    ensures 0 <= i < |ngos| && ngos[i] == Rows.Filter(ngos, NotUpperName)[c]
    ensures IsFuzzyWinner(ngos, content, threshold, scorer, i)
  {
    var candidates := Rows.Filter(ngos, NotUpperName);
    i := FilterIndex(ngos, NotUpperName, c);
    CandidatesBounded(ngos, content, scorer, best.1);
    forall j | 0 <= j < i && !IsUpper(ngos[j].name) ensures ngos[j].name != ngos[i].name {
      var c' :| 0 <= c' < c && candidates[c'] == ngos[j];
    }
  }

  /** the steps by which the fuzzy phase reaches a non-empty result: the best name,
      and the first candidate carrying it */
  lemma FuzzyMatchSteps(ngos: seq<Ngo>, content: string, threshold: int, scorer: (string, string) -> Score)
    returns (best: (string, Score), c: int)
    requires FuzzyMatch(ngos, content, threshold, scorer) != {}
    ensures ExtractOne(content, Names(Rows.Filter(ngos, NotUpperName)), scorer) == Some(best)
    ensures best.1 >= threshold
    ensures 0 <= c < |Rows.Filter(ngos, NotUpperName)| && Rows.Filter(ngos, NotUpperName)[c].name == best.0
    ensures forall j | 0 <= j < c :: Rows.Filter(ngos, NotUpperName)[j].name != best.0
    ensures Rows.Filter(ngos, NotUpperName)[c].id != 0
    ensures FuzzyMatch(ngos, content, threshold, scorer) == {Rows.Filter(ngos, NotUpperName)[c].id}
  {
    var candidates := Rows.Filter(ngos, NotUpperName);
    var names := Names(candidates);
    best := ExtractOne(content, names, scorer).value;
    var id := FirstIdWithName(candidates, best.0).value;
    c :| 0 <= c < |candidates| && candidates[c].name == best.0 && candidates[c].id == id
         && forall j | 0 <= j < c :: candidates[j].name != best.0;
  }

  /** a bound on the scores of the fuzzy candidates' names bounds every non-acronym name */
  lemma CandidatesBounded(ngos: seq<Ngo>, content: string, scorer: (string, string) -> Score, bound: int)
    requires forall c | c in Names(Rows.Filter(ngos, NotUpperName)) :: scorer(content, c) <= bound
    ensures forall j | 0 <= j < |ngos| && !IsUpper(ngos[j].name) :: scorer(content, ngos[j].name) <= bound
  {
    var candidates := Rows.Filter(ngos, NotUpperName);
    forall j | 0 <= j < |ngos| && !IsUpper(ngos[j].name) ensures scorer(content, ngos[j].name) <= bound {
      assert NotUpperName(ngos[j]);
      var c' :| 0 <= c' < |candidates| && candidates[c'] == ngos[j];
      assert Names(candidates)[c'] == ngos[j].name;
    }
  }

  /** When some non-acronym name reaches the threshold and no id is 0, the fuzzy
      phase yields exactly one id. */
  lemma FuzzyMatchFinds(ngos: seq<Ngo>, content: string, threshold: int, scorer: (string, string) -> Score, j: int)
    requires 0 <= j < |ngos| && !IsUpper(ngos[j].name) && scorer(content, ngos[j].name) >= threshold
    requires forall i | 0 <= i < |ngos| :: ngos[i].id != 0
    ensures |FuzzyMatch(ngos, content, threshold, scorer)| == 1
  {
    var candidates := Rows.Filter(ngos, NotUpperName);
    var names := Names(candidates);
    assert NotUpperName(ngos[j]);
    assert ngos[j] in candidates;
    var c :| 0 <= c < |candidates| && candidates[c] == ngos[j];
    BestReachesThreshold(names, content, threshold, scorer, c);
    var best := ExtractOne(content, names, scorer).value;
    forall m | 0 <= m < |candidates| ensures candidates[m].id != 0 {
      assert candidates[m] in ngos;
    }
    FirstIdNonZero(candidates, best.0);
    FuzzyMatchOfBest(ngos, content, threshold, scorer);
  }

  /** a best name reaching the threshold, carried first by a non-zero id, gives that id */
  lemma FuzzyMatchOfBest(ngos: seq<Ngo>, content: string, threshold: int, scorer: (string, string) -> Score)
    requires ExtractOne(content, Names(Rows.Filter(ngos, NotUpperName)), scorer).Some?
    requires ExtractOne(content, Names(Rows.Filter(ngos, NotUpperName)), scorer).value.1 >= threshold
    requires FirstIdWithName(Rows.Filter(ngos, NotUpperName), ExtractOne(content, Names(Rows.Filter(ngos, NotUpperName)), scorer).value.0).Some?
    requires FirstIdWithName(Rows.Filter(ngos, NotUpperName), ExtractOne(content, Names(Rows.Filter(ngos, NotUpperName)), scorer).value.0).value != 0
    ensures |FuzzyMatch(ngos, content, threshold, scorer)| == 1
  {
    var names := Names(Rows.Filter(ngos, NotUpperName));
    var id := FirstIdWithName(Rows.Filter(ngos, NotUpperName), ExtractOne(content, names, scorer).value.0).value;
    assert FuzzyMatch(ngos, content, threshold, scorer) == {id};
  }

  /** a choice reaching the threshold makes the best choice reach it */
  lemma BestReachesThreshold(names: seq<string>, content: string, threshold: int, scorer: (string, string) -> Score, c: int)
    requires 0 <= c < |names| && scorer(content, names[c]) >= threshold
    ensures ExtractOne(content, names, scorer).Some? && ExtractOne(content, names, scorer).value.1 >= threshold
  {
    assert names[c] in names;
  }

  /** the first id carrying a name among names with non-zero ids is found and is not 0 */
  lemma FirstIdNonZero(candidates: seq<Ngo>, name: string)
    requires name in Names(candidates)
    requires forall m | 0 <= m < |candidates| :: candidates[m].id != 0
    ensures FirstIdWithName(candidates, name).Some? && FirstIdWithName(candidates, name).value != 0
  {
    var k :| 0 <= k < |Names(candidates)| && Names(candidates)[k] == name;
    assert candidates[k].name == name;
  }

  /** The fuzzy phase runs only when the exact phase found nothing: a non-empty exact
      result is the final result. */
  lemma ExactResultIsFinal(ngos: seq<Ngo>, content: string, threshold: int, scorer: (string, string) -> Score)
    ensures ExactMatches(ngos, content) != {} ==> PostMatches(ngos, content, threshold, scorer) == ExactMatches(ngos, content)
    ensures ExactMatches(ngos, content) == {} ==> PostMatches(ngos, content, threshold, scorer) == FuzzyMatch(ngos, content, threshold, scorer)
    ensures |PostMatches(ngos, content, threshold, scorer)| > 1 ==> PostMatches(ngos, content, threshold, scorer) == ExactMatches(ngos, content)
  {
    FuzzyMatchIsBest(ngos, content, threshold, scorer);
  }

  /** Every id matched to a post is the id of an entry of the list. */
  lemma PostMatchesAreIds(ngos: seq<Ngo>, content: string, threshold: int, scorer: (string, string) -> Score)
    ensures forall x | x in PostMatches(ngos, content, threshold, scorer) :: exists i | 0 <= i < |ngos| :: ngos[i].id == x
  {
    FuzzyMatchIsBest(ngos, content, threshold, scorer);
  }

  /** A keyword the post matcher finds exactly is also found by the video matcher's
      keyword test, whatever its scorer and threshold: an acronym matched with its
      case is matched ignoring case, and substrings are compared the same way. */
  lemma ExactHitIsVideoCredit(keyword: string, content: string, threshold: int, ratio: (string, string) -> Score)
    requires ExactHit(keyword, content)
    ensures YouTube.KeywordCredited(keyword, content, threshold, ratio)
  {
    if IsUpper(keyword) {
      CaseSensitiveWordIsCaseInsensitiveWord(content, keyword);
    }
  }

  // ---------------------------------------------------------------------------
  // Positions kept by a filter

  /** the index in `s` of the `c`-th element kept by `Filter(s, p)` */
  lemma {:induction false} FilterIndex<T>(s: seq<T>, p: T -> bool, c: int) returns (i: int)
    requires 0 <= c < |Rows.Filter(s, p)|
    ensures 0 <= i < |s| && s[i] == Rows.Filter(s, p)[c] && p(s[i])
    ensures forall j | 0 <= j < i && p(s[j]) :: exists c' | 0 <= c' < c :: Rows.Filter(s, p)[c'] == s[j]
    decreases |s|
  {
    var init, last := s[..|s| - 1], s[|s| - 1];
    var fi, fs := Rows.Filter(init, p), Rows.Filter(s, p);
    assert fs == if p(last) then fi + [last] else fi;
    assert forall k | 0 <= k < |fi| :: fs[k] == fi[k];
    if c < |fi| {
      i := FilterIndex(init, p, c);
      assert s[i] == init[i];
      forall j | 0 <= j < i && p(s[j]) ensures exists c' | 0 <= c' < c :: fs[c'] == s[j] {
        assert s[j] == init[j];
        var c' :| 0 <= c' < c && fi[c'] == init[j];
        assert fs[c'] == fi[c'];
      }
    } else {
      i := |s| - 1;
      forall j | 0 <= j < i && p(s[j]) ensures exists c' | 0 <= c' < c :: fs[c'] == s[j] {
        assert s[j] == init[j] && init[j] in fi;
        var c' :| 0 <= c' < |fi| && fi[c'] == init[j];
        assert fs[c'] == fi[c'];
      }
    }
  }

}
