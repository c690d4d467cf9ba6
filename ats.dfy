/**
 * The ATS analyzer: keywords are pulled from the job description and from
 * the resume's text, the job keywords are split into those the resume covers
 * and those it misses, and a score out of 100 is built from a base of 60, a
 * keyword share worth up to 30 and two 0..20 rubric scores. Fixed decision
 * lists turn the same facts into issues, suggestions and strengths.
 */
module ATSAnalyzer {
  import opened Wrappers
  import opened Types
  import opened Strings
  import opened Seqs
  import opened Toasts
  import opened ResumeStore

  // ---------------------------------------------------------------------------
  // Keyword extraction
  // ---------------------------------------------------------------------------

  /** The thirty common words that never count as keywords (`commonWords.includes` is membership). */
  const StopWords: set<string> := {
    "the", "a", "an", "and", "or", "but", "in", "on", "at", "to", "for", "of", "with", "by", "is",
    "are", "was", "were", "be", "been", "have", "has", "had", "do", "does", "did", "will", "would",
    "could", "should"}

  /** The most keywords one text yields. */
  const MaxKeywords := 50

  /** A character that survives lower-casing and the `\w` filter. */
  predicate IsKeywordChar(c: char) {
    'a' <= c <= 'z' || '0' <= c <= '9' || c == '_'
  }

  /** What every extracted keyword looks like. */
  predicate IsKeyword(w: string) {
    IsCandidate(w) && forall i :: 0 <= i < |w| ==> IsKeywordChar(w[i])
  }

  /** `text.toLowerCase().replace(/[^\w\s]/g, ' ')`. */
  function Normalise(text: string): (r: string)
    ensures |r| == |text|
  {
    var lower := ToLower(text);
    seq(|lower|, i requires 0 <= i < |lower| => if IsWordChar(lower[i]) || IsSpace(lower[i]) then lower[i] else ' ')
  }

  /** Normalising lower-cases the ASCII letters, keeps digits, `_` and whitespace, and turns every other character into a space. */
  lemma NormaliseEach(text: string)
    ensures forall i :: 0 <= i < |text| ==>
      Normalise(text)[i] == (if IsWordChar(text[i]) then LowerChar(text[i]) else if IsSpace(text[i]) then text[i] else ' ')
  {
    forall i | 0 <= i < |text|
      ensures Normalise(text)[i] == if IsWordChar(text[i]) then LowerChar(text[i]) else if IsSpace(text[i]) then text[i] else ' '
    {
      LowerCharKeepsClasses(text[i]);
    }
  }

  /** Text made only of keyword characters and whitespace is already normal. */
  lemma NormaliseKeepsNormal(text: string)
    requires forall i :: 0 <= i < |text| ==> IsKeywordChar(text[i]) || IsSpace(text[i])
    ensures Normalise(text) == text
  {
    NormaliseEach(text);
  }

  /** After normalising, every character is whitespace or a keyword character. */
  lemma NormaliseChars(text: string)
    ensures forall i :: 0 <= i < |Normalise(text)| ==> IsSpace(Normalise(text)[i]) || IsKeywordChar(Normalise(text)[i])
  {
  }

  /** The words of the normalised text, as `split(/\s+/)` cuts them. */
  function Tokens(text: string): seq<string> {
    Split(Normalise(text))
  }

  /** Every word is made of keyword characters only. */
  lemma TokensAreWords(text: string)
    ensures forall w :: w in Tokens(text) ==> forall i :: 0 <= i < |w| ==> IsKeywordChar(w[i])
  {
    var n := Normalise(text);
    NormaliseChars(text);
    SplitPieces(n);
    forall w, i | w in Split(n) && 0 <= i < |w|
      ensures IsKeywordChar(w[i])
    {
      assert w[i] in n;
    }
  }

  /**
   * Words of keyword characters separated by runs of whitespace (spaces, tabs,
   * line breaks) are exactly the words the text splits into; an empty first or
   * last word stands for whitespace at that end of the text.
   */
  lemma TokensOfWords(ws: seq<string>, gaps: seq<string>)
    requires |ws| == |gaps| + 1
    requires forall k :: 0 <= k < |ws| ==> (0 < k < |ws| - 1 ==> |ws[k]| > 0) && forall i :: 0 <= i < |ws[k]| ==> IsKeywordChar(ws[k][i])
    requires forall k :: 0 <= k < |gaps| ==> IsGap(gaps[k])
    ensures Tokens(JoinWith(ws, gaps)) == ws
  {
    JoinWithChars(ws, gaps, (c: char) => IsKeywordChar(c) || IsSpace(c));
    NormaliseKeepsNormal(JoinWith(ws, gaps));
    SplitJoinWith(ws, gaps);
  }

  /** The length and stop-word test: longer than two characters and not a common word. */
  predicate IsCandidate(w: string) {
    |w| > 2 && w !in StopWords
  }

  /** The words that pass the length and stop-word test, in text order, repeats included. */
  function Candidates(text: string): seq<string>
  {
    Filter(Tokens(text), IsCandidate)
  }

  /** `extractKeywords`: the first fifty distinct candidate words, in order of first appearance. */
  function ExtractKeywords(text: string): (r: seq<string>)
    ensures |r| <= MaxKeywords
  {
    Take(KeepFirstFrom(Candidates(text), 0), MaxKeywords)
  }

  /** Keywords have more than two characters, are no stop word and use only lower-case letters, digits and `_`. */
  lemma {:induction false} KeywordsWellFormed(text: string)
    ensures forall k :: 0 <= k < |ExtractKeywords(text)| ==> IsKeyword(ExtractKeywords(text)[k])
    ensures forall w :: w in ExtractKeywords(text) ==> w in Tokens(text)
  {
    var cands := Candidates(text);
    var firsts := KeepFirstFrom(cands, 0);
    var r := ExtractKeywords(text);
    KeepFirstMembers(cands, 0);
    forall w | w in r
      ensures w in Tokens(text) && IsKeyword(w)
    {
      assert w in firsts;
      CandidateIsKeyword(text, w);
    }
  }

  /** Every candidate word is a word of the text with the shape of a keyword. */
  lemma CandidateIsKeyword(text: string, w: string)
    requires w in Candidates(text)
    ensures w in Tokens(text) && IsKeyword(w)
  {
    TokensAreWords(text);
  }

  /** Keywords come without repeats, in the order of their first appearance among the candidates. */
  lemma KeywordsDistinctInOrder(text: string)
    ensures NoDuplicates(ExtractKeywords(text))
    ensures forall p, q :: 0 <= p < q < |ExtractKeywords(text)| ==>
      IndexOf(Candidates(text), ExtractKeywords(text)[p]) < IndexOf(Candidates(text), ExtractKeywords(text)[q])
  {
    var firsts := KeepFirstFrom(Candidates(text), 0);
    var r := ExtractKeywords(text);
    KeepFirstOrdered(Candidates(text), 0);
    assert forall k :: 0 <= k < |r| ==> r[k] == firsts[k];
  }

  /** Fewer than fifty keywords means none was cut: every candidate word is a keyword. */
  lemma KeywordsCompleteUnderLimit(text: string)
    requires |ExtractKeywords(text)| < MaxKeywords
    ensures forall w :: w in Tokens(text) && IsCandidate(w) ==> w in ExtractKeywords(text)
  {
    KeepFirstMembers(Candidates(text), 0);
  }

  /**
   * The cap keeps the earliest keywords: a candidate first seen before some
   * kept keyword is kept as well, and either the cap is full or every
   * candidate is kept.
   */
  lemma {:induction false} KeywordsKeepEarliest(text: string, w: string, k: string)
    requires k in ExtractKeywords(text) && w in Candidates(text)
    requires IndexOf(Candidates(text), w) < IndexOf(Candidates(text), k)
    ensures w in ExtractKeywords(text)
  {
    var cands := Candidates(text);
    var firsts := KeepFirstFrom(cands, 0);
    var r := ExtractKeywords(text);
    KeepFirstMembers(cands, 0);
    assert k in firsts;
    KeepFirstEarlier(cands, 0, k, w);
    var pk := IndexOf(r, k);
    assert firsts[pk] == k;
    assert IndexOf(firsts, k) <= pk;
    var pw := IndexOf(firsts, w);
    assert r[pw] == w;
  }

  /** Keywords are only ever dropped by the cap: fewer than fifty means every candidate is a keyword. */
  lemma KeywordsFullOrComplete(text: string)
    ensures |ExtractKeywords(text)| == MaxKeywords || forall w :: w in Candidates(text) ==> w in ExtractKeywords(text)
  {
    KeepFirstMembers(Candidates(text), 0);
  }

  /**
   * On a text of distinct keyword-shaped words separated by runs of whitespace,
   * no more than fifty and none a common word, the keywords are exactly
   * those words, in order; on any text of keyword-shaped words, every
   * keyword is one of them.
   */
  lemma KeywordsOfWords(ws: seq<string>, gaps: seq<string>)
    requires |ws| == |gaps| + 1
    requires forall k :: 0 <= k < |ws| ==> (0 < k < |ws| - 1 ==> |ws[k]| > 0) && forall i :: 0 <= i < |ws[k]| ==> IsKeywordChar(ws[k][i])
    requires forall k :: 0 <= k < |gaps| ==> IsGap(gaps[k])
    ensures forall k :: k in ExtractKeywords(JoinWith(ws, gaps)) ==> k in ws
    ensures NoDuplicates(ws) && |ws| <= MaxKeywords && (forall k :: 0 <= k < |ws| ==> IsCandidate(ws[k])) ==>
      ExtractKeywords(JoinWith(ws, gaps)) == ws
  {
    var text := JoinWith(ws, gaps);
    TokensOfWords(ws, gaps);
    KeywordsWellFormed(text);
    if NoDuplicates(ws) && |ws| <= MaxKeywords && forall k :: 0 <= k < |ws| ==> IsCandidate(ws[k]) {
      FilterKeepsAll(ws, IsCandidate);
      KeepFirstDistinct(ws, 0);
      assert ws[0..] == ws;
    }
  }

  /** The keywords of a text appear in the order in which they first occur among the text's words. */
  lemma KeywordsInTextOrder(text: string, p: nat, q: nat)
    requires p < q < |ExtractKeywords(text)|
    ensures IndexOf(Tokens(text), ExtractKeywords(text)[p]) < IndexOf(Tokens(text), ExtractKeywords(text)[q])
  {
    var r := ExtractKeywords(text);
    var t := Tokens(text);
    var u, v := r[p], r[q];
    KeywordsWellFormed(text);
    assert u in r && v in r;
    assert u in t && v in t;
    assert IsKeyword(u) && IsKeyword(v);
    KeywordsDistinctInOrder(text);
    assert u != v;
    assert IndexOf(Candidates(text), u) < IndexOf(Candidates(text), v);
    assert Candidates(text) == Filter(t, IsCandidate);
    FirstOrderFromFiltered(t, IsCandidate, u, v);
  }

  // ---------------------------------------------------------------------------
  // Matching and missing keywords
  // ---------------------------------------------------------------------------

  /** `resumeKeywords.some(rk => rk.toLowerCase().includes(keyword.toLowerCase()))`. */
  predicate CoveredBy(keyword: string, resumeKeywords: seq<string>) {
    exists rk :: rk in resumeKeywords && Contains(ToLower(rk), ToLower(keyword))
  }

  /** The job keywords some resume keyword covers, in job-keyword order. */
  function MatchingKeywords(jobKeywords: seq<string>, resumeKeywords: seq<string>): (r: seq<string>)
    ensures forall k :: k in r <==> k in jobKeywords && CoveredBy(k, resumeKeywords)
  {
    Filter(jobKeywords, (k: string) => CoveredBy(k, resumeKeywords))
  }

  /** The job keywords no resume keyword covers, in job-keyword order. */
  function MissingKeywords(jobKeywords: seq<string>, resumeKeywords: seq<string>): (r: seq<string>)
    ensures forall k :: k in r <==> k in jobKeywords && !CoveredBy(k, resumeKeywords)
  {
    Filter(jobKeywords, (k: string) => !CoveredBy(k, resumeKeywords))
  }

  /** Each job keyword is matching or missing and never both; the two lists together are as long as the job list. */
  lemma KeywordsPartitioned(jobKeywords: seq<string>, resumeKeywords: seq<string>)
    ensures |MatchingKeywords(jobKeywords, resumeKeywords)| + |MissingKeywords(jobKeywords, resumeKeywords)| == |jobKeywords|
    ensures forall k :: k in jobKeywords ==> (k in MatchingKeywords(jobKeywords, resumeKeywords) <==> k !in MissingKeywords(jobKeywords, resumeKeywords))
  {
    FilterComplement(jobKeywords, (k: string) => CoveredBy(k, resumeKeywords), (k: string) => !CoveredBy(k, resumeKeywords));
  }

  /**
   * Both lists keep job-keyword order: around any one job keyword, each list is
   * the list of the keywords before it, then that keyword if it belongs to the
   * list, then the list of the keywords after it.
   */
  lemma KeywordListsInJobOrder(before: seq<string>, keyword: string, after: seq<string>, resumeKeywords: seq<string>)
    ensures MatchingKeywords(before + [keyword] + after, resumeKeywords)
      == MatchingKeywords(before, resumeKeywords) + (if CoveredBy(keyword, resumeKeywords) then [keyword] else [])
         + MatchingKeywords(after, resumeKeywords)
    ensures MissingKeywords(before + [keyword] + after, resumeKeywords)
      == MissingKeywords(before, resumeKeywords) + (if CoveredBy(keyword, resumeKeywords) then [] else [keyword])
         + MissingKeywords(after, resumeKeywords)
  {
    FilterAround(before, keyword, after, (k: string) => CoveredBy(k, resumeKeywords));
    FilterAround(before, keyword, after, (k: string) => !CoveredBy(k, resumeKeywords));
  }

  /** For extracted keywords, which are lower case already, covering is plain substring search. */
  lemma CoveredIsSubstring(keyword: string, resumeKeywords: seq<string>)
    requires IsKeyword(keyword)
    requires forall k :: 0 <= k < |resumeKeywords| ==> IsKeyword(resumeKeywords[k])
    ensures CoveredBy(keyword, resumeKeywords) <==> exists rk, i :: rk in resumeKeywords && OccursAt(rk, keyword, i)
  {
    ToLowerOfLower(keyword);
    forall rk | rk in resumeKeywords
      ensures ToLower(rk) == rk
      ensures Contains(rk, keyword) <==> exists i :: OccursAt(rk, keyword, i)
    {
      ToLowerOfLower(rk);
      ContainsAt(rk, keyword);
    }
  }

  /** A keyword of the resume itself is always covered: every word contains itself. */
  lemma OwnKeywordCovered(keyword: string, resumeKeywords: seq<string>)
    requires keyword in resumeKeywords
    ensures CoveredBy(keyword, resumeKeywords)
  {
    var lower := ToLower(keyword);
    assert StartsWith(lower, lower);
  }

  // ---------------------------------------------------------------------------
  // Rubric scores
  // ---------------------------------------------------------------------------

  /** How many of the conditions hold. */
  function CountTrue(conditions: seq<bool>): (n: nat)
    ensures n <= |conditions|
  {
    if conditions == [] then 0 else (if conditions[0] then 1 else 0) + CountTrue(conditions[1..])
  }

  lemma CountTrue3(a: bool, b: bool, c: bool)
    ensures CountTrue([a, b, c]) == (if a then 1 else 0) + (if b then 1 else 0) + (if c then 1 else 0)
  {
    assert [a, b, c][1..] == [b, c];
    assert [b, c][1..] == [c];
    assert [c][1..] == [];
    assert CountTrue([c]) == (if c then 1 else 0) + CountTrue([]);
    assert CountTrue([b, c]) == (if b then 1 else 0) + CountTrue([c]);
  }

  lemma CountTrue4(a: bool, b: bool, c: bool, d: bool)
    ensures CountTrue([a, b, c, d]) == (if a then 1 else 0) + (if b then 1 else 0) + (if c then 1 else 0) + (if d then 1 else 0)
  {
    assert [a, b, c, d][1..] == [b, c, d];
    CountTrue3(b, c, d);
  }

  /** JavaScript truthiness of a string: it is not empty. */
  predicate Present(s: string) {
    s != ""
  }

  /** The format rubric: contact details complete, skills listed, projects listed, college named. */
  function FormatChecks(resume: Resume): seq<bool> {
    [ Present(resume.basicInfo.name) && Present(resume.basicInfo.email) && Present(resume.basicInfo.phone),
      |resume.skills| > 0,
      |resume.projects| > 0,
      Present(resume.education.collegeName) ]
  }

  /** Some project has a description longer than 50 characters. */
  predicate HasDetailedProject(resume: Resume) {
    exists p :: p in resume.projects && |p.description| > 50
  }

  /** The content rubric: at least 5 skills, at least 10 skills, a detailed project, at least two projects. */
  function ContentChecks(resume: Resume): seq<bool> {
    [ |resume.skills| >= 5, |resume.skills| >= 10, HasDetailedProject(resume), |resume.projects| >= 2 ]
  }

  /** Five points per format check passed. */
  function FormatScore(resume: Resume): int {
    5 * CountTrue(FormatChecks(resume))
  }

  /** Five points per content check passed. */
  function ContentScore(resume: Resume): int {
    5 * CountTrue(ContentChecks(resume))
  }

  /** Both rubric scores are multiples of 5 between 0 and 20. */
  lemma RubricScoresInRange(resume: Resume)
    ensures FormatScore(resume) % 5 == 0 && 0 <= FormatScore(resume) <= 20
    ensures ContentScore(resume) % 5 == 0 && 0 <= ContentScore(resume) <= 20
  {
  }

  /** `checkFormat`: add 5 for each format check that passes. */
  method CheckFormat(resume: Resume) returns (score: int)
    ensures score == FormatScore(resume)
    ensures score % 5 == 0 && 0 <= score <= 20
  {
    CountTrue4(Present(resume.basicInfo.name) && Present(resume.basicInfo.email) && Present(resume.basicInfo.phone),
               |resume.skills| > 0, |resume.projects| > 0, Present(resume.education.collegeName));
    score := 0;
    if Present(resume.basicInfo.name) && Present(resume.basicInfo.email) && Present(resume.basicInfo.phone) {
      score := score + 5;
    }
    if |resume.skills| > 0 {
      score := score + 5;
    }
    if |resume.projects| > 0 {
      score := score + 5;
    }
    if Present(resume.education.collegeName) {
      score := score + 5;
    }
  }

  /** `checkContent`: add 5 for each content check that passes. */
  method CheckContent(resume: Resume) returns (score: int)
    ensures score == ContentScore(resume)
    ensures score % 5 == 0 && 0 <= score <= 20
  {
    CountTrue4(|resume.skills| >= 5, |resume.skills| >= 10, HasDetailedProject(resume), |resume.projects| >= 2);
    score := 0;
    if |resume.skills| >= 5 {
      score := score + 5;
    }
    if |resume.skills| >= 10 {
      score := score + 5;
    }
    var detailed := false;
    for k := 0 to |resume.projects|
      invariant detailed <==> exists p :: p in resume.projects[..k] && |p.description| > 50
    {
      if |resume.projects[k].description| > 50 {
        detailed := true;
      }
    }
    assert resume.projects[..|resume.projects|] == resume.projects;
    if detailed {
      score := score + 5;
    }
    if |resume.projects| >= 2 {
      score := score + 5;
    }
  }

  // ---------------------------------------------------------------------------
  // The score
  // ---------------------------------------------------------------------------

  /** `matched / Math.max(total, 1) * 30`, rounded: the keyword share out of 30. */
  function KeywordPoints(matched: nat, total: nat): int {
    RoundHalfUp(30 * matched, Max(total, 1))
  }

  /**
   * `Math.min(Math.round(60 + keywordShare + format + content), 100)`. Adding
   * whole numbers commutes with rounding, so the keyword share is rounded on
   * its own.
   */
  function Score(matched: nat, total: nat, format: int, content: int): int {
    Min(60 + format + content + KeywordPoints(matched, total), 100)
  }

  /** Matching more of the job's keywords never lowers the keyword share. */
  lemma KeywordPointsMonotone(fewer: nat, more: nat, total: nat)
    requires fewer <= more
    ensures KeywordPoints(fewer, total) <= KeywordPoints(more, total)
  {
    var den := Max(total, 1);
    var lo, hi := KeywordPoints(fewer, total), KeywordPoints(more, total);
    if lo > hi {
      MulLeftMono(2 * den, hi + 1, lo);
      assert false;
    }
  }

  /** Matching more of the job's keywords never lowers the score, and the score is capped at 100. */
  lemma ScoreMonotone(fewer: nat, more: nat, total: nat, format: int, content: int)
    requires fewer <= more
    ensures Score(fewer, total, format, content) <= Score(more, total, format, content) <= 100
  {
    KeywordPointsMonotone(fewer, more, total);
  }

  /** The keyword share is between 0 and 30 when at most all job keywords match. */
  lemma KeywordPointsInRange(matched: nat, total: nat)
    requires matched <= Max(total, 1)
    ensures 0 <= KeywordPoints(matched, total) <= 30
  {
    var den := Max(total, 1);
    var r := KeywordPoints(matched, total);
    if r < 0 {
      MulLeftMono(2 * den, r, -1);
      assert false;
    }
    if r > 30 {
      MulLeftMono(2 * den, 31, r);
      assert false;
    }
  }

  /** The keyword share is the nearest whole number to `30 * matched / total` (halves up), and 30 when all match. */
  lemma KeywordPointsNearest(matched: nat, total: nat)
    ensures var den := Max(total, 1); var r := KeywordPoints(matched, total);
      2 * den * r - den <= 60 * matched < 2 * den * r + den
    ensures 0 < matched == total ==> KeywordPoints(matched, total) == 30
    ensures matched == 0 ==> KeywordPoints(matched, total) == 0
  {
    var den := Max(total, 1);
    var r := KeywordPoints(matched, total);
    if 0 < matched == total {
      if r < 30 {
        MulLeftMono(2 * den, r, 29);
        assert false;
      }
      if r > 30 {
        MulLeftMono(2 * den, 31, r);
        assert false;
      }
    }
    if matched == 0 {
      if r < 0 {
        MulLeftMono(2 * den, r, -1);
        assert false;
      }
      if r > 0 {
        MulLeftMono(2 * den, 1, r);
        assert false;
      }
    }
  }

  /** Every analysis score lies between 60 and 100. */
  lemma ScoreInRange(matched: nat, total: nat, format: int, content: int)
    requires matched <= total
    requires 0 <= format <= 20 && 0 <= content <= 20
    ensures 60 <= Score(matched, total, format, content) <= 100
  {
    KeywordPointsInRange(matched, total);
  }

  // ---------------------------------------------------------------------------
  // Issues, suggestions, format issues, strengths
  // ---------------------------------------------------------------------------

  function ManyMissingIssue(missing: nat): string {
    "Missing " + NatToString(missing) + " important keywords from job description"
  }
  const FewSkillsIssue := "Skills section needs more relevant technical skills"
  const FewProjectsIssue := "Add more projects to demonstrate experience"
  const NoPhoneIssue := "Missing phone number in contact information"

  lemma ManyMissingIssueDistinct(missing: nat)
    ensures ManyMissingIssue(missing) != FewSkillsIssue
    ensures ManyMissingIssue(missing) != FewProjectsIssue
    ensures ManyMissingIssue(missing) != NoPhoneIssue
  {
    var issue := ManyMissingIssue(missing);
    assert |issue| >= 49 && issue[|issue| - 1] == 'n';
    assert FewSkillsIssue[50] == 's';
  }

  /** What `generateIssues` promises: each issue is reported exactly when its condition holds, in the fixed order keywords, skills, projects, phone. */
  ghost predicate IsIssueList(resume: Resume, missing: seq<string>, issues: seq<string>) {
    && (ManyMissingIssue(|missing|) in issues <==> |missing| > 5)
    && (FewSkillsIssue in issues <==> |resume.skills| < 5)
    && (FewProjectsIssue in issues <==> |resume.projects| < 2)
    && (NoPhoneIssue in issues <==> !Present(resume.basicInfo.phone))
    && |issues| == CountTrue([|missing| > 5, |resume.skills| < 5, |resume.projects| < 2, !Present(resume.basicInfo.phone)])
    && (|missing| > 5 ==> issues[0] == ManyMissingIssue(|missing|))
    && issues == (if |missing| > 5 then [ManyMissingIssue(|missing|)] else [])
               + (if |resume.skills| < 5 then [FewSkillsIssue] else [])
               + (if |resume.projects| < 2 then [FewProjectsIssue] else [])
               + (if !Present(resume.basicInfo.phone) then [NoPhoneIssue] else [])
  }

  /** `generateIssues`. */
  method GenerateIssues(resume: Resume, missing: seq<string>) returns (issues: seq<string>)
    ensures IsIssueList(resume, missing, issues)
  {
    CountTrue4(|missing| > 5, |resume.skills| < 5, |resume.projects| < 2, !Present(resume.basicInfo.phone));
    ManyMissingIssueDistinct(|missing|);
    issues := [];
    if |missing| > 5 {
      issues := issues + [ManyMissingIssue(|missing|)];
    }
    if |resume.skills| < 5 {
      issues := issues + [FewSkillsIssue];
    }
    if |resume.projects| < 2 {
      issues := issues + [FewProjectsIssue];
    }
    if !Present(resume.basicInfo.phone) {
      issues := issues + [NoPhoneIssue];
    }
  }

  /** The four tips every analysis ends with. */
  const FixedTips: seq<string> := [
    "Use action verbs to start bullet points (e.g., 'Developed', 'Implemented', 'Led')",
    "Quantify achievements with numbers and percentages where possible",
    "Tailor your resume for each specific job application",
    "Use industry-standard section headings like 'Experience', 'Skills', 'Education'"]

  /** The tip naming the first five missing keywords. */
  function KeywordTip(missing: seq<string>): string {
    "Include these keywords: " + Join(Take(missing, 5), ", ")
  }

  /** The keyword tip names each of the first five missing keywords. */
  lemma KeywordTipNamesMissing(missing: seq<string>)
    ensures KeywordTip(missing)[..24] == "Include these keywords: "
    ensures forall k :: 0 <= k < |missing| && k < 5 ==> Contains(KeywordTip(missing), missing[k])
  {
    var shown := Take(missing, 5);
    forall k | 0 <= k < |missing| && k < 5
      ensures Contains(KeywordTip(missing), missing[k])
    {
      var i := OccursInJoin(shown, ", ", k);
      ContainsInside("Include these keywords: ", Join(shown, ", "), "", missing[k], i);
      assert "Include these keywords: " + Join(shown, ", ") + "" == KeywordTip(missing);
    }
  }

  /** What `generateSuggestions` promises: a keyword tip first iff something is missing, then the four fixed tips. */
  ghost predicate IsSuggestionList(missing: seq<string>, suggestions: seq<string>) {
    && |suggestions| == (if |missing| > 0 then 5 else 4)
    && suggestions[|suggestions| - 4..] == FixedTips
    && (|missing| > 0 ==> suggestions[0] == KeywordTip(missing))
  }

  /** `generateSuggestions`. */
  method GenerateSuggestions(resume: Resume, missing: seq<string>) returns (suggestions: seq<string>)
    ensures IsSuggestionList(missing, suggestions)
  {
    suggestions := [];
    if |missing| > 0 {
      suggestions := suggestions + [KeywordTip(missing)];
    }
    suggestions := suggestions + [FixedTips[0]];
    suggestions := suggestions + [FixedTips[1]];
    suggestions := suggestions + [FixedTips[2]];
    suggestions := suggestions + [FixedTips[3]];
  }

  const NoNameIssue := "Missing name in header"
  const NoEmailIssue := "Missing email address"
  const NoPhoneFormatIssue := "Missing phone number"

  /** What `getFormatIssues` promises: one entry per empty contact field, in name, email, phone order. */
  ghost predicate IsFormatIssueList(resume: Resume, issues: seq<string>) {
    && (NoNameIssue in issues <==> !Present(resume.basicInfo.name))
    && (NoEmailIssue in issues <==> !Present(resume.basicInfo.email))
    && (NoPhoneFormatIssue in issues <==> !Present(resume.basicInfo.phone))
    && |issues| == CountTrue([!Present(resume.basicInfo.name), !Present(resume.basicInfo.email), !Present(resume.basicInfo.phone)])
    && (!Present(resume.basicInfo.name) ==> issues[0] == NoNameIssue)
    && issues == (if !Present(resume.basicInfo.name) then [NoNameIssue] else [])
               + (if !Present(resume.basicInfo.email) then [NoEmailIssue] else [])
               + (if !Present(resume.basicInfo.phone) then [NoPhoneFormatIssue] else [])
  }

  /** `getFormatIssues`. */
  method GetFormatIssues(resume: Resume) returns (issues: seq<string>)
    ensures IsFormatIssueList(resume, issues)
  {
    CountTrue3(!Present(resume.basicInfo.name), !Present(resume.basicInfo.email), !Present(resume.basicInfo.phone));
    issues := [];
    if !Present(resume.basicInfo.name) {
      issues := issues + [NoNameIssue];
    }
    if !Present(resume.basicInfo.email) {
      issues := issues + [NoEmailIssue];
    }
    if !Present(resume.basicInfo.phone) {
      issues := issues + [NoPhoneFormatIssue];
    }
  }

  function KeywordStrength(matching: nat): string {
    "Strong keyword match with " + NatToString(matching) + " relevant terms"
  }
  const SkillsStrength := "Comprehensive skills section"
  const ProjectsStrength := "Good project portfolio demonstrating experience"
  const EducationStrength := "Complete education information with grades"

  lemma KeywordStrengthDistinct(matching: nat)
    ensures KeywordStrength(matching) != SkillsStrength
    ensures KeywordStrength(matching) != ProjectsStrength
    ensures KeywordStrength(matching) != EducationStrength
  {
    var strength := KeywordStrength(matching);
    assert |strength| >= 42 && strength[|strength| - 1] == 's' && strength[|strength| - 2] == 'm';
    assert ProjectsStrength[46] == 'e';
    assert EducationStrength[40] == 'e';
  }

  /** What `getStrengths` promises: each strength is reported exactly when its condition holds, in the fixed order keywords, skills, projects, education. */
  ghost predicate IsStrengthList(resume: Resume, matching: seq<string>, strengths: seq<string>) {
    && (KeywordStrength(|matching|) in strengths <==> |matching| > 5)
    && (SkillsStrength in strengths <==> |resume.skills| >= 8)
    && (ProjectsStrength in strengths <==> |resume.projects| >= 2)
    && (EducationStrength in strengths <==> Present(resume.education.collegeName) && Present(resume.education.cgpa))
    && |strengths| == CountTrue([|matching| > 5, |resume.skills| >= 8, |resume.projects| >= 2,
                                 Present(resume.education.collegeName) && Present(resume.education.cgpa)])
    && (|matching| > 5 ==> strengths[0] == KeywordStrength(|matching|))
    && strengths == (if |matching| > 5 then [KeywordStrength(|matching|)] else [])
                  + (if |resume.skills| >= 8 then [SkillsStrength] else [])
                  + (if |resume.projects| >= 2 then [ProjectsStrength] else [])
                  + (if Present(resume.education.collegeName) && Present(resume.education.cgpa) then [EducationStrength] else [])
  }

  /** `getStrengths`. */
  method GetStrengths(resume: Resume, matching: seq<string>) returns (strengths: seq<string>)
    ensures IsStrengthList(resume, matching, strengths)
  {
    CountTrue4(|matching| > 5, |resume.skills| >= 8, |resume.projects| >= 2,
               Present(resume.education.collegeName) && Present(resume.education.cgpa));
    KeywordStrengthDistinct(|matching|);
    strengths := [];
    if |matching| > 5 {
      strengths := strengths + [KeywordStrength(|matching|)];
    }
    if |resume.skills| >= 8 {
      strengths := strengths + [SkillsStrength];
    }
    if |resume.projects| >= 2 {
      strengths := strengths + [ProjectsStrength];
    }
    if Present(resume.education.collegeName) && Present(resume.education.cgpa) {
      strengths := strengths + [EducationStrength];
    }
  }

  // ---------------------------------------------------------------------------
  // Score bands
  // ---------------------------------------------------------------------------

  const Green := "text-green-600"
  const Yellow := "text-yellow-600"
  const Red := "text-red-600"

  /** `getScoreColor`. */
  function ScoreColor(score: int): (c: string)
    ensures c == Green <==> score >= 80
    ensures c == Yellow <==> 60 <= score < 80
    ensures c == Red <==> score < 60
  {
    if score >= 80 then Green else if score >= 60 then Yellow else Red
  }

  /** `getScoreLevel`. */
  function ScoreLevel(score: int): (level: string)
    ensures level == "Excellent" <==> score >= 80
    ensures level == "Good" <==> 60 <= score < 80
    ensures level == "Needs Improvement" <==> score < 60
  {
    if score >= 80 then "Excellent" else if score >= 60 then "Good" else "Needs Improvement"
  }

  /** An analysed resume is never shown as needing improvement: its score is at least 60. */
  lemma AnalysedScoreNeverRed(matched: nat, total: nat, format: int, content: int)
    requires matched <= total
    requires 0 <= format <= 20 && 0 <= content <= 20
    ensures ScoreColor(Score(matched, total, format, content)) != Red
    ensures ScoreLevel(Score(matched, total, format, content)) != "Needs Improvement"
  {
    ScoreInRange(matched, total, format, content);
  }

  // ---------------------------------------------------------------------------
  // The analysis
  // ---------------------------------------------------------------------------

  datatype ATSAnalysis = ATSAnalysis(
    score: int,
    issues: seq<string>,
    suggestions: seq<string>,
    keywords: seq<string>,
    missingKeywords: seq<string>,
    formatIssues: seq<string>,
    strengths: seq<string>)

  /** A project as one line of text: title, description and technologies. */
  /** `p.title + ' ' + p.description + ' ' + p.technologies.join(' ')`. */
  function ProjectText(p: Project): string {
    Join([p.title, p.description, Join(p.technologies, " ")], " ")
  }

  /** A project's text holds its title, its description and each of its technologies. */
  lemma OccursInProjectText(p: Project, part: string) returns (i: int)
    requires part == p.title || part == p.description || part in p.technologies
    ensures OccursAt(ProjectText(p), part, i)
  {
    var parts := [p.title, p.description, Join(p.technologies, " ")];
    if part == p.title {
      assert part[0..|part|] == part;
      i := OccursInJoin(parts, " ", 0);
    } else if part == p.description {
      i := OccursInJoin(parts, " ", 1);
    } else {
      var m :| 0 <= m < |p.technologies| && p.technologies[m] == part;
      var j := OccursInJoin(p.technologies, " ", m);
      var k := OccursInJoin(parts, " ", 2);
      OccursWithin(ProjectText(p), parts[2], part, k, j);
      i := k + j;
    }
  }

  function ProjectTexts(ps: seq<Project>): (r: seq<string>)
    ensures |r| == |ps| && forall i :: 0 <= i < |ps| ==> r[i] == ProjectText(ps[i])
  {
    seq(|ps|, i requires 0 <= i < |ps| => ProjectText(ps[i]))
  }

  /** The six parts of the text the analyzer reads: name, email, role, skills, projects and college. */
  function ResumeParts(r: Resume): seq<string> {
    [r.basicInfo.name, r.basicInfo.email, r.targetJobRole, Join(r.skills, " "),
     Join(ProjectTexts(r.projects), " "), r.education.collegeName]
  }

  /** The text of a resume the analyzer reads: its six parts separated by single spaces. */
  function ResumeText(r: Resume): string {
    Join(ResumeParts(r), " ")
  }

  /** The resume text holds the name, email, role, college, every skill, and every project's title, description and technologies. */
  lemma ResumeTextHasParts(r: Resume)
    ensures Contains(ResumeText(r), r.basicInfo.name)
    ensures Contains(ResumeText(r), r.basicInfo.email)
    ensures Contains(ResumeText(r), r.targetJobRole)
    ensures Contains(ResumeText(r), r.education.collegeName)
    ensures forall k :: 0 <= k < |r.skills| ==> Contains(ResumeText(r), r.skills[k])
    ensures forall k :: 0 <= k < |r.projects| ==> Contains(ResumeText(r), r.projects[k].title)
    ensures forall k :: 0 <= k < |r.projects| ==> Contains(ResumeText(r), r.projects[k].description)
    ensures forall k, m :: 0 <= k < |r.projects| && 0 <= m < |r.projects[k].technologies| ==>
      Contains(ResumeText(r), r.projects[k].technologies[m])
  {
    var parts := ResumeParts(r);
    forall k | 0 <= k < |parts|
      ensures Contains(ResumeText(r), parts[k])
    {
      assert parts[k][0..|parts[k]|] == parts[k];
      ContainsInJoin(parts, " ", k, parts[k], 0);
    }
    assert parts[0] == r.basicInfo.name && parts[1] == r.basicInfo.email;
    assert parts[2] == r.targetJobRole && parts[5] == r.education.collegeName;
    forall k | 0 <= k < |r.skills|
      ensures Contains(ResumeText(r), r.skills[k])
    {
      var j := OccursInJoin(r.skills, " ", k);
      ContainsInJoin(parts, " ", 3, r.skills[k], j);
    }
    forall k, part | 0 <= k < |r.projects| &&
        (part == r.projects[k].title || part == r.projects[k].description || part in r.projects[k].technologies)
      ensures Contains(ResumeText(r), part)
    {
      var texts := ProjectTexts(r.projects);
      var i := OccursInProjectText(r.projects[k], part);
      var j := OccursInJoin(texts, " ", k);
      OccursWithin(parts[4], texts[k], part, j, i);
      ContainsInJoin(parts, " ", 4, part, j + i);
    }
  }

  /** The score of a resume given the job's keywords and its own. */
  function AnalysisScore(resume: Resume, jobKeywords: seq<string>, resumeKeywords: seq<string>): (s: int)
    ensures 60 <= s <= 100
  {
    var matching := MatchingKeywords(jobKeywords, resumeKeywords);
    KeywordsPartitioned(jobKeywords, resumeKeywords);
    RubricScoresInRange(resume);
    ScoreInRange(|matching|, |jobKeywords|, FormatScore(resume), ContentScore(resume));
    Score(|matching|, |jobKeywords|, FormatScore(resume), ContentScore(resume))
  }

  /** A resume that covers every one of a non-empty list of job keywords scores at least 90. */
  lemma FullMatchScoresAtLeast90(resume: Resume, jobKeywords: seq<string>, resumeKeywords: seq<string>)
    requires |jobKeywords| > 0
    requires forall k :: k in jobKeywords ==> CoveredBy(k, resumeKeywords)
    ensures AnalysisScore(resume, jobKeywords, resumeKeywords) >= 90
  {
    FilterKeepsAll(jobKeywords, (k: string) => CoveredBy(k, resumeKeywords));
    KeywordPointsNearest(|jobKeywords|, |jobKeywords|);
    RubricScoresInRange(resume);
  }

  /** A resume that covers none of the job keywords gets no keyword points: only the base and the rubric scores. */
  lemma NoMatchNoKeywordPoints(resume: Resume, jobKeywords: seq<string>, resumeKeywords: seq<string>)
    requires forall k :: k in jobKeywords ==> !CoveredBy(k, resumeKeywords)
    ensures AnalysisScore(resume, jobKeywords, resumeKeywords) == 60 + FormatScore(resume) + ContentScore(resume)
  {
    FilterNone(jobKeywords, (k: string) => CoveredBy(k, resumeKeywords));
    KeywordPointsNearest(0, |jobKeywords|);
    RubricScoresInRange(resume);
  }

  /** What the analysis of one resume holds, given the job's keywords and the resume's own. */
  ghost predicate IsAnalysisOf(resume: Resume, jobKeywords: seq<string>, resumeKeywords: seq<string>, a: ATSAnalysis) {
    var matching := MatchingKeywords(jobKeywords, resumeKeywords);
    var missing := MissingKeywords(jobKeywords, resumeKeywords);
    && a.score == AnalysisScore(resume, jobKeywords, resumeKeywords)
    && a.keywords == matching
    && a.missingKeywords == Take(missing, 10)
    && IsIssueList(resume, missing, a.issues)
    && IsSuggestionList(missing, a.suggestions)
    && IsFormatIssueList(resume, a.formatIssues)
    && IsStrengthList(resume, matching, a.strengths)
  }

  /** The body of `analyzeResume` once the keywords are extracted: score and reports. */
  method Analyse(resume: Resume, jobKeywords: seq<string>, resumeKeywords: seq<string>) returns (a: ATSAnalysis)
    ensures IsAnalysisOf(resume, jobKeywords, resumeKeywords, a)
    ensures 60 <= a.score <= 100
  {
    var matching := MatchingKeywords(jobKeywords, resumeKeywords);
    var missing := MissingKeywords(jobKeywords, resumeKeywords);

    var score := 60;
    score := score + KeywordPoints(|matching|, |jobKeywords|);
    var formatScore := CheckFormat(resume);
    score := score + formatScore;
    var contentScore := CheckContent(resume);
    score := score + contentScore;
    score := Min(score, 100);

    var issues := GenerateIssues(resume, missing);
    var suggestions := GenerateSuggestions(resume, missing);
    var formatIssues := GetFormatIssues(resume);
    var strengths := GetStrengths(resume, matching);
    a := ATSAnalysis(score, issues, suggestions, matching, Take(missing, 10), formatIssues, strengths);
    assert a.score == AnalysisScore(resume, jobKeywords, resumeKeywords);
  }

  /** `resumes.find(r => r.id === id)`. */
  function SelectedResume(resumes: seq<Resume>, id: string): (r: Option<Resume>)
    ensures r.Some? ==> exists k :: IsFirstWithId(resumes, id, k) && resumes[k] == r.value
    ensures r.None? <==> forall j :: 0 <= j < |resumes| ==> resumes[j].id != id
  {
    FindWhere(resumes, (x: Resume) => x.id == id)
  }

  /** The text of the toast that reports a score. */
  function ScoreMessage(score: int): (m: string)
    ensures 20 <= |m| - 26 && m[..19] == "Your resume scored " && m[|m| - 26..] == "/100 for ATS compatibility"
    ensures score >= 0 ==>
      (forall i :: 19 <= i < |m| - 26 ==> '0' <= m[i] <= '9') && DecimalValue(m[19..|m| - 26]) == score
    ensures score < 0 ==> m[19] == '-'
  {
    var digits := if score < 0 then -score else score;
    NatToStringValue(digits);
    var m := "Your resume scored " + IntToString(score) + "/100 for ATS compatibility";
    assert m[19..|m| - 26] == IntToString(score);
    m
  }

  const MissingInformation := Failure("Missing Information", "Please select a resume and provide a job description")

  class ATSAnalyzerPage {
    const hook: ResumesHook
    var selectedResumeId: string
    var jobDescription: string
    var analysis: Option<ATSAnalysis>
    var isAnalyzing: bool

    constructor (hook: ResumesHook)
      ensures this.hook == hook && selectedResumeId == "" && jobDescription == ""
      ensures analysis == None && !isAnalyzing
    {
      this.hook := hook;
      selectedResumeId := "";
      jobDescription := "";
      analysis := None;
      isAnalyzing := false;
    }

    /**
     * `analyzeResume`: analyse the selected resume against the job
     * description and store its score; `now` is the time of the update.
     */
    method AnalyzeResume(now: Instant) returns (notice: Option<Notice>)
      modifies this`analysis, this`isAnalyzing, hook`resumes, hook.auth.storage`resumes
      ensures old(selectedResumeId) == "" || IsBlank(old(jobDescription)) ==>
        && notice == Some(MissingInformation) && analysis == old(analysis) && isAnalyzing == old(isAnalyzing)
        && hook.resumes == old(hook.resumes) && hook.auth.storage.resumes == old(hook.auth.storage.resumes)
      ensures old(selectedResumeId) != "" && !IsBlank(old(jobDescription)) && SelectedResume(old(hook.resumes), old(selectedResumeId)).None? ==>
        && notice == None && analysis == old(analysis) && isAnalyzing
        && hook.resumes == old(hook.resumes) && hook.auth.storage.resumes == old(hook.auth.storage.resumes)
      ensures old(selectedResumeId) != "" && !IsBlank(old(jobDescription)) && SelectedResume(old(hook.resumes), old(selectedResumeId)).Some? ==>
        var resume := SelectedResume(old(hook.resumes), old(selectedResumeId)).value;
        && analysis.Some?
        && IsAnalysisOf(resume, ExtractKeywords(old(jobDescription)), ExtractKeywords(ResumeText(resume)), analysis.value)
        && hook.auth.storage.resumes == StoreAfterUpdate(old(hook.auth.storage.resumes), old(selectedResumeId), hook.auth.user, ScorePatch(analysis.value.score), now)
        && hook.resumes == LoadedAfterUpdate(old(hook.resumes), old(hook.auth.storage.resumes), old(selectedResumeId), hook.auth.user, ScorePatch(analysis.value.score), now)
        && !isAnalyzing
        && notice == Some(Success("Analysis Complete", ScoreMessage(analysis.value.score)))
    {
      var id, job, found := selectedResumeId, jobDescription, SelectedResume(hook.resumes, selectedResumeId);
      if id == "" || IsBlank(job) {
        return Some(MissingInformation);
      }
      isAnalyzing := true;
      if found.None? {
        return None;
      }
      var resume := found.value;
      var result := Analyse(resume, ExtractKeywords(job), ExtractKeywords(ResumeText(resume)));
      analysis := Some(result);

      var _ := hook.UpdateResume(id, ScorePatch(result.score), now);
      isAnalyzing := false;
      notice := Some(Success("Analysis Complete", ScoreMessage(result.score)));
    }
  }
}
