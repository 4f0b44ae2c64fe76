/**
 * The control report of `api/agent_report.py`: gather evidence snippets for
 * the hybrid-retrieved artifacts, build the language-model prompt, and when
 * the model call fails produce a deterministic report that maps each
 * checklist item to the artifacts whose names or snippets share its keywords.
 *
 * The language model is a parameter `llm`: `Some(text)` for a response,
 * `None` for an exception.
 */
module AgentReport {
  import opened Wrappers
  import opened Text
  import opened Sorting
  import opened Entities
  import opened Retrieval

  /** An artifact with the first snippets of its text, as gathered for one report. */
  datatype Evidence = Evidence(artifact: Artifact, snippets: seq<string>)

  // ---------------------------------------------------------------------
  // The prompt
  // ---------------------------------------------------------------------

  const NoChecklistPrompt := "- (no checklist items found)"
  const NoEvidencePrompt := "(No evidence snippets available.)"
  const PromptRole := "You are an audit/compliance assistant."
  const PromptClosing := "4) Next best actions (3 bullets)"

  function ChecklistBullets(items: seq<ChecklistItem>): (r: seq<string>)
    ensures |r| == |items| && forall i :: 0 <= i < |items| ==> r[i] == "- " + items[i].text
  {
    seq(|items|, i requires 0 <= i < |items| => "- " + items[i].text)
  }

  /** One bullet per checklist item, or a placeholder when the control has none. */
  function ChecklistText(items: seq<ChecklistItem>): string {
    if items == [] then NoChecklistPrompt else JoinWith("\n", ChecklistBullets(items))
  }

  /** Snippets numbered from 1. */
  function SnippetLines(snippets: seq<string>): (r: seq<string>)
    ensures |r| == |snippets|
    ensures forall i :: 0 <= i < |snippets| ==> r[i] == "Snippet " + NatToString(i + 1) + ": " + snippets[i]
  {
    seq(|snippets|, i requires 0 <= i < |snippets| => "Snippet " + NatToString(i + 1) + ": " + snippets[i])
  }

  /** `[Artifact <id>]`, the citation form the report uses. */
  function Citation(aid: int): string {
    "[Artifact " + IntToString(aid) + "]"
  }

  function EvidenceBlock(e: Evidence): string {
    Citation(e.artifact.id) + " name=" + e.artifact.name + " source=" + e.artifact.source + "\n" +
    JoinWith("\n\n", SnippetLines(e.snippets))
  }

  function EvidenceBlocks(evidence: seq<Evidence>): (r: seq<string>)
    ensures |r| == |evidence| && forall i :: 0 <= i < |evidence| ==> r[i] == EvidenceBlock(evidence[i])
  {
    seq(|evidence|, i requires 0 <= i < |evidence| => EvidenceBlock(evidence[i]))
  }

  /** One block per artifact, or a placeholder when there is no evidence. */
  function EvidenceText(evidence: seq<Evidence>): string {
    if evidence == [] then NoEvidencePrompt else JoinWith("\n\n", EvidenceBlocks(evidence))
  }

  /** The template up to the control's fields: the instructions and the rules. */
  const PromptHead := PromptRole +
    " Write an SOC 2 evidence narrative for ONE control.\n\nRules:\n" +
    "- Use ONLY the evidence snippets provided.\n" +
    "- Do NOT invent facts. If evidence is missing, say \"Missing evidence\" and list what to collect.\n" +
    "- Every factual claim must include a citation like [Artifact 10].\n" +
    "- Output must be concise and structured.\n\nControl:\n"
  const ChecklistHeading := "\n\nChecklist (what evidence auditors expect):\n"
  const EvidenceHeading := "\n\nEvidence snippets:\n"
  /** The requested report sections. */
  const PromptTail := "\n\nWrite the report with these sections:\n1) Summary (2\U{2013}4 sentences)\n" +
    "2) Evidence mapped to checklist (bullet list; each bullet has citations)\n" +
    "3) Gaps / Missing evidence (bullet list)\n" + PromptClosing

  function ControlLines(c: Control): seq<string> {
    ["- Code: " + c.code, "- Title: " + c.title, "- Description: " + c.description]
  }

  /** The template cut at its placeholders, with the control, checklist and evidence filled in. */
  function PromptPieces(c: Control, items: seq<ChecklistItem>, evidence: seq<Evidence>): seq<string> {
    [PromptHead, JoinWith("\n", ControlLines(c)), ChecklistHeading, ChecklistText(items),
     EvidenceHeading, EvidenceText(evidence), PromptTail]
  }

  function PromptBody(c: Control, items: seq<ChecklistItem>, evidence: seq<Evidence>): string {
    JoinWith("", PromptPieces(c, items, evidence))
  }

  /** `_build_prompt`: the template opens and closes with a newline and is stripped. */
  function BuildPrompt(c: Control, items: seq<ChecklistItem>, evidence: seq<Evidence>): string {
    Strip("\n" + PromptBody(c, items, evidence) + "\n")
  }

  /** Stripping removes exactly the template's opening and closing newline, whatever is filled in. */
  lemma BuildPromptIsBody(c: Control, items: seq<ChecklistItem>, evidence: seq<Evidence>)
    ensures BuildPrompt(c, items, evidence) == PromptBody(c, items, evidence)
  {
    var pieces := PromptPieces(c, items, evidence);
    assert PromptRole[0] == 'Y';
    assert PromptClosing[|PromptClosing| - 1] == ')';
    assert pieces[0][0] == 'Y';
    assert pieces[6][|pieces[6]| - 1] == ')';
    JoinStart("", pieces);
    JoinEnd("", pieces);
    StripSurrounded("\n", PromptBody(c, items, evidence), "\n");
  }

  lemma PromptHasPiece(c: Control, items: seq<ChecklistItem>, evidence: seq<Evidence>, i: nat)
    requires i < 7
    ensures Contains(BuildPrompt(c, items, evidence), PromptPieces(c, items, evidence)[i])
  {
    BuildPromptIsBody(c, items, evidence);
    JoinContainsPart("", PromptPieces(c, items, evidence), i);
  }

  lemma PromptShowsControlLine(c: Control, items: seq<ChecklistItem>, evidence: seq<Evidence>, k: nat)
    requires k < 3
    ensures Contains(BuildPrompt(c, items, evidence), ControlLines(c)[k])
  {
    PromptHasPiece(c, items, evidence, 1);
    JoinContainsPart("\n", ControlLines(c), k);
    ContainsTrans(BuildPrompt(c, items, evidence), JoinWith("\n", ControlLines(c)), ControlLines(c)[k]);
  }

  /** The prompt shows the control's code, title and description. */
  lemma PromptShowsControl(c: Control, items: seq<ChecklistItem>, evidence: seq<Evidence>)
    ensures Contains(BuildPrompt(c, items, evidence), "- Code: " + c.code)
    ensures Contains(BuildPrompt(c, items, evidence), "- Title: " + c.title)
    ensures Contains(BuildPrompt(c, items, evidence), "- Description: " + c.description)
  {
    PromptShowsControlLine(c, items, evidence, 0);
    PromptShowsControlLine(c, items, evidence, 1);
    PromptShowsControlLine(c, items, evidence, 2);
  }

  lemma PromptHasChecklist(c: Control, items: seq<ChecklistItem>, evidence: seq<Evidence>)
    ensures Contains(BuildPrompt(c, items, evidence), ChecklistText(items))
  {
    ChecklistPiece(c, items, evidence);
    PromptHasPiece(c, items, evidence, 3);
  }

  lemma ChecklistPiece(c: Control, items: seq<ChecklistItem>, evidence: seq<Evidence>)
    ensures PromptPieces(c, items, evidence)[3] == ChecklistText(items)
  {
  }

  lemma PromptShowsItem(c: Control, items: seq<ChecklistItem>, evidence: seq<Evidence>, i: nat)
    requires i < |items|
    ensures Contains(BuildPrompt(c, items, evidence), "- " + items[i].text)
  {
    PromptHasChecklist(c, items, evidence);
    JoinContainsPart("\n", ChecklistBullets(items), i);
    ContainsTrans(BuildPrompt(c, items, evidence), ChecklistText(items), "- " + items[i].text);
  }

  lemma PromptShowsNoChecklist(c: Control, evidence: seq<Evidence>)
    ensures Contains(BuildPrompt(c, [], evidence), NoChecklistPrompt)
  {
    PromptHasChecklist(c, [], evidence);
  }

  /** The prompt lists every checklist item as a bullet, or says there are none. */
  lemma PromptShowsChecklist(c: Control, items: seq<ChecklistItem>, evidence: seq<Evidence>)
    ensures items == [] ==> Contains(BuildPrompt(c, items, evidence), NoChecklistPrompt)
    ensures forall i :: 0 <= i < |items| ==> Contains(BuildPrompt(c, items, evidence), "- " + items[i].text)
  {
    if items == [] {
      PromptShowsNoChecklist(c, evidence);
    }
    forall i | 0 <= i < |items| ensures Contains(BuildPrompt(c, items, evidence), "- " + items[i].text) {
      PromptShowsItem(c, items, evidence, i);
    }
  }

  lemma PromptShowsBlock(c: Control, items: seq<ChecklistItem>, evidence: seq<Evidence>, i: nat)
    requires i < |evidence|
    ensures Contains(BuildPrompt(c, items, evidence), EvidenceBlock(evidence[i]))
  {
    PromptHasPiece(c, items, evidence, 5);
    JoinContainsPart("\n\n", EvidenceBlocks(evidence), i);
    ContainsTrans(BuildPrompt(c, items, evidence), EvidenceText(evidence), EvidenceBlock(evidence[i]));
  }

  /** The prompt shows every evidence block, or says there is no evidence. */
  lemma PromptShowsEvidence(c: Control, items: seq<ChecklistItem>, evidence: seq<Evidence>)
    ensures evidence == [] ==> Contains(BuildPrompt(c, items, evidence), NoEvidencePrompt)
    ensures forall i :: 0 <= i < |evidence| ==> Contains(BuildPrompt(c, items, evidence), EvidenceBlock(evidence[i]))
  {
    if evidence == [] {
      PromptHasPiece(c, items, evidence, 5);
    }
    forall i | 0 <= i < |evidence| ensures Contains(BuildPrompt(c, items, evidence), EvidenceBlock(evidence[i])) {
      PromptShowsBlock(c, items, evidence, i);
    }
  }

  /** Each snippet of an evidence block appears in the block under its 1-based number. */
  lemma BlockShowsSnippet(e: Evidence, j: nat)
    requires j < |e.snippets|
    ensures Contains(EvidenceBlock(e), "Snippet " + NatToString(j + 1) + ": " + e.snippets[j])
  {
    var head := Citation(e.artifact.id) + " name=" + e.artifact.name + " source=" + e.artifact.source + "\n";
    JoinContainsPart("\n\n", SnippetLines(e.snippets), j);
    ContainsSuffix(head, JoinWith("\n\n", SnippetLines(e.snippets)), SnippetLines(e.snippets)[j]);
  }

  /** Every snippet of every artifact reaches the prompt, numbered from 1 within its artifact. */
  lemma PromptShowsSnippets(c: Control, items: seq<ChecklistItem>, evidence: seq<Evidence>)
    ensures forall i, j :: 0 <= i < |evidence| && 0 <= j < |evidence[i].snippets| ==>
      Contains(BuildPrompt(c, items, evidence), "Snippet " + NatToString(j + 1) + ": " + evidence[i].snippets[j])
  {
    var prompt := BuildPrompt(c, items, evidence);
    forall i, j | 0 <= i < |evidence| && 0 <= j < |evidence[i].snippets|
      ensures Contains(prompt, "Snippet " + NatToString(j + 1) + ": " + evidence[i].snippets[j])
    {
      PromptShowsBlock(c, items, evidence, i);
      BlockShowsSnippet(evidence[i], j);
      ContainsTrans(prompt, EvidenceBlock(evidence[i]), "Snippet " + NatToString(j + 1) + ": " + evidence[i].snippets[j]);
    }
  }

  // ---------------------------------------------------------------------
  // Keyword matching of checklist items to artifacts
  // ---------------------------------------------------------------------

  /** `/`, `(` and `)` become spaces before the item text is split into words. */
  function SplitPunctuation(s: string): string {
    ReplaceChar(ReplaceChar(ReplaceChar(s, '/', ' '), '(', ' '), ')', ' ')
  }

  function LongWords(ws: seq<string>): (r: seq<string>)
    ensures |r| <= |ws|
    ensures forall w :: w in r <==> w in ws && |w| >= 4
  {
    if ws == [] then []
    else (if |ws[0]| >= 4 then [ws[0]] else []) + LongWords(ws[1..])
  }

  function LowerAll(ws: seq<string>): (r: seq<string>)
    ensures |r| == |ws| && forall i :: 0 <= i < |ws| ==> r[i] == Lower(ws[i])
  {
    seq(|ws|, i requires 0 <= i < |ws| => Lower(ws[i]))
  }

  /** The lower-cased words of at least four characters of a checklist item. */
  function Keywords(itemText: string): seq<string> {
    LowerAll(LongWords(Words(SplitPunctuation(itemText))))
  }

  /**
   * The shape of a keyword: at least four characters, no whitespace, none of
   * the separators `/`, `(`, `)`, and no upper-case ASCII letter.
   */
  predicate KeywordShaped(kw: string) {
    && |kw| >= 4 && NoSpace(kw)
    && '/' !in kw && '(' !in kw && ')' !in kw
    && forall t :: 0 <= t < |kw| ==> !('A' <= kw[t] <= 'Z')
  }

  lemma NoSeparators(s: string)
    ensures '/' !in SplitPunctuation(s) && '(' !in SplitPunctuation(s) && ')' !in SplitPunctuation(s)
  {
  }

  lemma LowerShaped(w: string)
    requires |w| >= 4 && NoSpace(w) && '/' !in w && '(' !in w && ')' !in w
    ensures KeywordShaped(Lower(w))
  {
    var l := Lower(w);
    forall t | 0 <= t < |w| ensures !IsSpace(l[t]) && l[t] != '/' && l[t] != '(' && l[t] != ')' {
      assert w[t] in w;
    }
  }

  /** Every keyword of every checklist item has the keyword shape. */
  lemma KeywordsShape(itemText: string)
    ensures forall kw :: kw in Keywords(itemText) ==> KeywordShaped(kw)
  {
    var split := SplitPunctuation(itemText);
    var ws := Words(split);
    var long := LongWords(ws);
    WordsChars(split);
    NoSeparators(itemText);
    forall i | 0 <= i < |long| ensures KeywordShaped(Lower(long[i])) {
      assert long[i] in long;
      var j :| 0 <= j < |ws| && ws[j] == long[i];
      assert forall ch :: ch in long[i] ==> ch in split;
      LowerShaped(long[i]);
    }
  }

  /** The keywords found in `hay`, in order and with repetitions. */
  function Matching(kws: seq<string>, hay: string): (r: seq<string>)
    ensures |r| <= |kws|
    ensures forall kw :: kw in r <==> kw in kws && Contains(hay, kw)
  {
    if kws == [] then []
    else (if Contains(hay, kws[0]) then [kws[0]] else []) + Matching(kws[1..], hay)
  }

  /** The score accumulated by `_pick_best_artifacts_for_item`'s keyword loop over `kws`. */
  function KeywordScore(kws: seq<string>, hayName: string, hayText: string): int {
    if kws == [] then 0
    else
      var kw := kws[|kws| - 1];
      KeywordScore(kws[..|kws| - 1], hayName, hayText) +
      (if Contains(hayName, kw) then 2 else 0) + (if Contains(hayText, kw) then 1 else 0)
  }

  lemma {:induction false} MatchingAppend(kws: seq<string>, kw: string, hay: string)
    ensures Matching(kws + [kw], hay) == Matching(kws, hay) + (if Contains(hay, kw) then [kw] else [])
  {
    if kws != [] {
      assert (kws + [kw])[1..] == kws[1..] + [kw];
      MatchingAppend(kws[1..], kw, hay);
    }
  }

  /**
   * A keyword found in the artifact's name is worth two points, one found in
   * its snippets one point; so the score lies between 0 and 3 per keyword, and
   * it is positive exactly when some keyword occurs in the name or the snippets.
   */
  lemma {:induction false} KeywordScoreCounts(kws: seq<string>, hayName: string, hayText: string)
    ensures KeywordScore(kws, hayName, hayText) == 2 * |Matching(kws, hayName)| + |Matching(kws, hayText)|
    ensures 0 <= KeywordScore(kws, hayName, hayText) <= 3 * |kws|
    ensures KeywordScore(kws, hayName, hayText) > 0 <==>
      exists kw :: kw in kws && (Contains(hayName, kw) || Contains(hayText, kw))
  {
    KeywordScoreByMatches(kws, hayName, hayText);
    var inName := Matching(kws, hayName);
    var inText := Matching(kws, hayText);
    if KeywordScore(kws, hayName, hayText) > 0 {
      var k := if inName != [] then inName[0] else inText[0];
      assert k in inName || k in inText;
    }
    if exists k :: k in kws && (Contains(hayName, k) || Contains(hayText, k)) {
      var k :| k in kws && (Contains(hayName, k) || Contains(hayText, k));
      assert k in inName || k in inText;
    }
  }

  lemma {:induction false} KeywordScoreByMatches(kws: seq<string>, hayName: string, hayText: string)
    ensures KeywordScore(kws, hayName, hayText) == 2 * |Matching(kws, hayName)| + |Matching(kws, hayText)|
  {
    if kws != [] {
      var init := kws[..|kws| - 1];
      var kw := kws[|kws| - 1];
      KeywordScoreByMatches(init, hayName, hayText);
      assert kws == init + [kw];
      MatchingAppend(init, kw, hayName);
      MatchingAppend(init, kw, hayText);
    }
  }

  /** `(score, artifact id)` for one artifact. */
  function ScoreEntry(kws: seq<string>, e: Evidence): (int, int) {
    (KeywordScore(kws, Lower(e.artifact.name), Lower(JoinWith("\n", e.snippets))), e.artifact.id)
  }

  function ScoredList(kws: seq<string>, evidence: seq<Evidence>): (r: seq<(int, int)>)
    ensures |r| == |evidence| && forall i :: 0 <= i < |evidence| ==> r[i] == ScoreEntry(kws, evidence[i])
  {
    seq(|evidence|, i requires 0 <= i < |evidence| => ScoreEntry(kws, evidence[i]))
  }

  /** `list.sort(reverse=True)` on `(score, id)` pairs: the larger pair comes first. */
  function LargerPair(a: (int, int), b: (int, int)): bool {
    a.0 > b.0 || (a.0 == b.0 && a.1 > b.1)
  }

  lemma LargerPairIsStrict()
    ensures StrictOrder(LargerPair)
  {
  }

  /** The pairs with a positive score, in order. */
  function Positive(s: seq<(int, int)>): (r: seq<(int, int)>)
    ensures |r| <= |s|
    ensures forall e :: e in r <==> e in s && e.0 > 0
  {
    if s == [] then []
    else (if s[0].0 > 0 then [s[0]] else []) + Positive(s[1..])
  }

  lemma {:induction false} PositiveSorted(s: seq<(int, int)>)
    requires SortedBy(s, LargerPair)
    ensures SortedBy(Positive(s), LargerPair)
  {
    if s != [] {
      var rest := Positive(s[1..]);
      PositiveSorted(s[1..]);
      forall e | e in rest ensures !LargerPair(e, s[0]) {
        var k :| 0 <= k < |s[1..]| && s[1..][k] == e;
        assert s[k + 1] == e;
      }
      if s[0].0 > 0 {
        var r := [s[0]] + rest;
        forall i, j | 0 <= i < j < |r| ensures !LargerPair(r[j], r[i]) {
          if i == 0 {
            assert r[j] in rest;
          } else {
            assert r[i] == rest[i - 1] && r[j] == rest[j - 1];
          }
        }
      }
    }
  }

  function PairIds(s: seq<(int, int)>): (r: seq<int>)
    ensures |r| == |s| && forall i :: 0 <= i < |s| ==> r[i] == s[i].1
  {
    seq(|s|, i requires 0 <= i < |s| => s[i].1)
  }

  /** The best `topN` pairs with a positive score, largest first. */
  function TopPositive(scored: seq<(int, int)>, topN: int): seq<(int, int)> {
    PySliceTo(Positive(Sort(scored, LargerPair)), topN)
  }

  /** The chosen `(score, id)` pairs for one checklist item. */
  function BestEntries(itemText: string, evidence: seq<Evidence>, topN: int): seq<(int, int)> {
    TopPositive(ScoredList(Keywords(itemText), evidence), topN)
  }

  /** `_pick_best_artifacts_for_item`. */
  function BestArtifacts(itemText: string, evidence: seq<Evidence>, topN: int): seq<int> {
    PairIds(BestEntries(itemText, evidence, topN))
  }

  /** The chosen pairs all scored above zero, come largest first, and number at most `topN`. */
  lemma TopPositiveSound(scored: seq<(int, int)>, topN: int)
    ensures var best := TopPositive(scored, topN);
      && (0 <= topN ==> |best| <= topN)
      && (forall e :: e in best ==> e in scored && e.0 > 0)
      && (forall i, j :: 0 <= i < j < |best| ==> !LargerPair(best[j], best[i]))
  {
    var sorted := Sort(scored, LargerPair);
    var pos := Positive(sorted);
    var best := TopPositive(scored, topN);
    LargerPairIsStrict();
    SortSorted(scored, LargerPair);
    PositiveSorted(sorted);
    assert best == pos[..|best|];
    forall e | e in best ensures e in scored && e.0 > 0 {
      assert e in pos;
      assert e in multiset(sorted);
    }
  }

  /** In a sorted sequence, nothing past a prefix outranks anything in it. */
  lemma PrefixOutranks(s: seq<(int, int)>, m: nat)
    requires SortedBy(s, LargerPair) && m <= |s|
    ensures forall e, b :: e in s && e !in s[..m] && b in s[..m] ==> !LargerPair(e, b)
  {
    forall e, b | e in s && e !in s[..m] && b in s[..m] ensures !LargerPair(e, b) {
      var a :| 0 <= a < |s| && s[a] == e;
      var t :| 0 <= t < m && s[..m][t] == b;
      assert s[t] == b;
      assert forall u :: 0 <= u < m ==> s[..m][u] == s[u];
    }
  }

  lemma PositiveOfSort(scored: seq<(int, int)>)
    ensures forall e :: e in scored && e.0 > 0 ==> e in Positive(Sort(scored, LargerPair))
  {
    forall e | e in scored && e.0 > 0 ensures e in Positive(Sort(scored, LargerPair)) {
      assert e in multiset(scored);
      assert e in Sort(scored, LargerPair);
    }
  }

  /**
   * No positively scored pair left out outranks one chosen; with room for all,
   * or whenever fewer than `topN` are chosen, every positively scored pair is
   * chosen; when nothing scores, nothing is.
   */
  lemma TopPositiveComplete(scored: seq<(int, int)>, topN: int)
    ensures var best := TopPositive(scored, topN);
      && (forall e, b :: e in scored && e.0 > 0 && e !in best && b in best ==> !LargerPair(e, b))
      && (topN >= |scored| ==> forall e :: e in scored && e.0 > 0 ==> e in best)
      && (0 <= topN && |best| < topN ==> forall e :: e in scored && e.0 > 0 ==> e in best)
      && ((forall e :: e in scored ==> e.0 <= 0) ==> best == [])
  {
    var sorted := Sort(scored, LargerPair);
    var pos := Positive(sorted);
    var best := TopPositive(scored, topN);
    LargerPairIsStrict();
    SortSorted(scored, LargerPair);
    PositiveSorted(sorted);
    PositiveOfSort(scored);
    assert best == pos[..|best|];
    PrefixOutranks(pos, |best|);
    if 0 <= topN && |best| < topN {
      assert best == pos;
    }
    if forall e :: e in scored ==> e.0 <= 0 {
      forall e | e in sorted ensures e.0 <= 0 {
        assert e in multiset(sorted);
        assert e in scored;
      }
      PositiveNone(sorted);
    }
  }

  /** Without a positive score there is nothing to keep. */
  lemma {:induction false} PositiveNone(s: seq<(int, int)>)
    requires forall e :: e in s ==> e.0 <= 0
    ensures Positive(s) == []
  {
    if s != [] {
      assert s[0] in s;
      assert forall e :: e in s[1..] ==> e in s;
      PositiveNone(s[1..]);
    }
  }

  /** Every id chosen from `scored` belongs to a pair of `scored` with a positive score. */
  lemma TopPositiveIds(scored: seq<(int, int)>, topN: int)
    ensures var ids := PairIds(TopPositive(scored, topN));
      && (0 <= topN ==> |ids| <= topN)
      && forall i :: 0 <= i < |ids| ==> exists j :: 0 <= j < |scored| && scored[j].1 == ids[i] && scored[j].0 > 0
  {
    var best := TopPositive(scored, topN);
    TopPositiveSound(scored, topN);
    forall i | 0 <= i < |best| ensures exists j :: 0 <= j < |scored| && scored[j].1 == best[i].1 && scored[j].0 > 0 {
      assert best[i] in best;
      var j :| 0 <= j < |scored| && scored[j] == best[i];
    }
  }

  /** With at most `topN` ids, every chosen artifact is one of the evidence artifacts with a keyword hit. */
  lemma BestArtifactsCited(itemText: string, evidence: seq<Evidence>, topN: int)
    ensures 0 <= topN ==> |BestArtifacts(itemText, evidence, topN)| <= topN
    ensures forall i :: 0 <= i < |BestArtifacts(itemText, evidence, topN)| ==>
      exists j :: 0 <= j < |evidence| && evidence[j].artifact.id == BestArtifacts(itemText, evidence, topN)[i] &&
                  ScoreEntry(Keywords(itemText), evidence[j]).0 > 0
  {
    var scored := ScoredList(Keywords(itemText), evidence);
    assert BestArtifacts(itemText, evidence, topN) == PairIds(TopPositive(scored, topN));
    TopPositiveSound(scored, topN);
    forall i | 0 <= i < |BestArtifacts(itemText, evidence, topN)|
      ensures exists j :: 0 <= j < |evidence| && evidence[j].artifact.id == BestArtifacts(itemText, evidence, topN)[i] &&
                          ScoreEntry(Keywords(itemText), evidence[j]).0 > 0
    {
      var j := BestArtifactCited(itemText, evidence, topN, i);
    }
  }

  /** The `i`-th chosen artifact is evidence artifact `j`, which has a keyword hit. */
  lemma BestArtifactCited(itemText: string, evidence: seq<Evidence>, topN: int, i: nat) returns (j: nat)
    requires i < |BestArtifacts(itemText, evidence, topN)|
    ensures j < |evidence| && evidence[j].artifact.id == BestArtifacts(itemText, evidence, topN)[i]
    ensures ScoreEntry(Keywords(itemText), evidence[j]).0 > 0
  {
    var kws := Keywords(itemText);
    var scored := ScoredList(kws, evidence);
    var best := BestArtifacts(itemText, evidence, topN);
    var top := TopPositive(scored, topN);
    assert best == PairIds(top);
    TopPositiveSound(scored, topN);
    assert best[i] == top[i].1;
    assert top[i] in top;
    j :| 0 <= j < |scored| && scored[j] == top[i];
    assert scored[j] == ScoreEntry(kws, evidence[j]);
  }

  /** An item without keywords of four or more letters is matched to no artifact. */
  lemma NoKeywordsNoMatch(itemText: string, evidence: seq<Evidence>, topN: int)
    requires Keywords(itemText) == []
    ensures BestArtifacts(itemText, evidence, topN) == []
  {
    var scored := ScoredList(Keywords(itemText), evidence);
    forall e | e in scored ensures e.0 <= 0 {
      var j :| 0 <= j < |scored| && scored[j] == e;
      assert scored[j] == ScoreEntry([], evidence[j]);
    }
    TopPositiveComplete(scored, topN);
  }

  /** The inner keyword loop of `_pick_best_artifacts_for_item`, for one artifact. */
  method ScoreArtifact(kws: seq<string>, e: Evidence) returns (score: int)
    ensures score == ScoreEntry(kws, e).0
  {
    var hayName := Lower(e.artifact.name);
    var hayText := Lower(JoinWith("\n", e.snippets));
    score := 0;
    var j := 0;
    while j < |kws|
      invariant 0 <= j <= |kws|
      invariant score == KeywordScore(kws[..j], hayName, hayText)
    {
      assert kws[..j + 1][..j] == kws[..j];
      if Contains(hayName, kws[j]) {
        score := score + 2;
      }
      if Contains(hayText, kws[j]) {
        score := score + 1;
      }
      j := j + 1;
    }
    assert kws[..j] == kws;
  }

  /** `_pick_best_artifacts_for_item`: score every artifact, sort, keep the positive, cut to `topN`. */
  method PickBest(itemText: string, evidence: seq<Evidence>, topN: int) returns (best: seq<int>)
    ensures best == BestArtifacts(itemText, evidence, topN)
  {
    var kws := Keywords(itemText);
    var scored := ScoreAll(kws, evidence);
    var ranked := Sort(scored, LargerPair);
    best := PairIds(PySliceTo(Positive(ranked), topN));
    assert best == PairIds(TopPositive(ScoredList(kws, evidence), topN));
  }

  /** The outer loop of `_pick_best_artifacts_for_item`: one `(score, id)` pair per artifact. */
  method ScoreAll(kws: seq<string>, evidence: seq<Evidence>) returns (scored: seq<(int, int)>)
    ensures scored == ScoredList(kws, evidence)
  {
    scored := [];
    var i := 0;
    while i < |evidence|
      invariant 0 <= i <= |evidence|
      invariant |scored| == i
      invariant forall t :: 0 <= t < i ==> scored[t] == ScoreEntry(kws, evidence[t])
    {
      var score := ScoreArtifact(kws, evidence[i]);
      scored := scored + [(score, evidence[i].artifact.id)];
      i := i + 1;
    }
  }

  // ---------------------------------------------------------------------
  // The deterministic fallback report
  // ---------------------------------------------------------------------

  const SummaryHeader := "1) Summary"
  const MappingHeader := "2) Evidence mapped to checklist"
  const GapsHeader := "3) Gaps / Missing evidence"
  const ActionsHeader := "4) Next best actions"
  const UnavailableLine :=
    "LLM generation is currently unavailable (API quota/billing issue). " +
    "This is a deterministic evidence narrative generated from retrieved snippets."
  const NoChecklistLine := "- (No checklist items found)"
  const NoSnippetsLine := "- No indexed evidence snippets found. Upload text evidence (.txt/.md/.csv) first."
  const ConfirmLine := "- Confirm each checklist item has direct proof (exports/logs/screenshots) and is within the last 90 days."
  const AddArtifactLine := "- If any checklist item lacks direct evidence, add an artifact that proves it and re-run."
  const ActionLines := [
    "- Upload 1\U{2013}2 more artifacts that directly prove this control (exports/logs/policies).",
    "- Link the best artifacts to the control and click \U{201C}Compute readiness\U{201D}.",
    "- Re-run retrieval evaluation after adding more labeled pairs."]

  const MissingSuffix := " \U{2014} Missing evidence"
  const NoMatchSuffix := " \U{2014} Missing evidence (no strong match found in retrieved snippets)"
  const CandidatesInfix := " \U{2014} Candidate evidence: "

  /** At most two artifacts are cited per checklist item. */
  const CitationsPerItem := 2

  function Citations(ids: seq<int>): (r: seq<string>)
    ensures |r| == |ids| && forall i :: 0 <= i < |ids| ==> r[i] == Citation(ids[i])
  {
    seq(|ids|, i requires 0 <= i < |ids| => Citation(ids[i]))
  }

  /** The report line for one checklist item. */
  function ItemLine(it: ChecklistItem, evidence: seq<Evidence>): string {
    if evidence == [] then "- " + it.text + MissingSuffix
    else
      var best := BestArtifacts(it.text, evidence, CitationsPerItem);
      if best != [] then "- " + it.text + CandidatesInfix + JoinWith(", ", Citations(best))
      else "- " + it.text + NoMatchSuffix
  }

  function MappingLines(items: seq<ChecklistItem>, evidence: seq<Evidence>): (r: seq<string>)
    ensures |r| == if items == [] then 1 else |items|
  {
    if items == [] then [NoChecklistLine]
    else seq(|items|, i requires 0 <= i < |items| => ItemLine(items[i], evidence))
  }

  function GapLines(evidence: seq<Evidence>): seq<string> {
    if evidence == [] then [NoSnippetsLine] else [ConfirmLine, AddArtifactLine]
  }

  function FallbackHead(c: Control): seq<string> {
    [SummaryHeader, UnavailableLine, "Control: " + c.code + " \U{2014} " + c.title, "", MappingHeader]
  }

  function GapSection(evidence: seq<Evidence>): seq<string> {
    ["", GapsHeader] + GapLines(evidence)
  }

  const ActionSection := ["", ActionsHeader] + ActionLines

  /** The lines of `_fallback_report`. */
  function FallbackLines(c: Control, items: seq<ChecklistItem>, evidence: seq<Evidence>): seq<string> {
    FallbackHead(c) + MappingLines(items, evidence) + GapSection(evidence) + ActionSection
  }

  function FallbackText(c: Control, items: seq<ChecklistItem>, evidence: seq<Evidence>): string {
    JoinWith("\n", FallbackLines(c, items, evidence))
  }

  /** The number of lines: five head lines, the mapping, the gaps and the actions. */
  lemma FallbackLength(c: Control, items: seq<ChecklistItem>, evidence: seq<Evidence>)
    ensures |FallbackLines(c, items, evidence)|
      == 12 + (if items == [] then 1 else |items|) + (if evidence == [] then 1 else 2)
  {
  }

  /** The four numbered section headers, in order, and the control line. */
  lemma FallbackHeaders(c: Control, items: seq<ChecklistItem>, evidence: seq<Evidence>)
    ensures var lines := FallbackLines(c, items, evidence);
      var m := |MappingLines(items, evidence)|;
      var g := |GapLines(evidence)|;
      && |lines| == 12 + m + g
      && lines[0] == SummaryHeader
      && lines[2] == "Control: " + c.code + " \U{2014} " + c.title
      && lines[4] == MappingHeader
      && lines[6 + m] == GapsHeader
      && lines[8 + m + g] == ActionsHeader
      && lines[9 + m + g..] == ActionLines
  {
    var head := FallbackHead(c);
    var ml := MappingLines(items, evidence);
    var gaps := GapSection(evidence);
    var front := head + ml + gaps;
    IndexLeft(head, ml, 0);
    IndexLeft(head, ml, 2);
    IndexLeft(head, ml, 4);
    IndexLeft(head + ml, gaps, 0);
    IndexLeft(head + ml, gaps, 2);
    IndexLeft(head + ml, gaps, 4);
    IndexRight(head + ml, gaps, 1);
    IndexLeft(front, ActionSection, 0);
    IndexLeft(front, ActionSection, 2);
    IndexLeft(front, ActionSection, 4);
    IndexLeft(front, ActionSection, 6 + |ml|);
    IndexRight(front, ActionSection, 1);
    DropLeft(front, ActionSection, 2);
  }

  /** The mapping section: one line per checklist item, in order, or the placeholder. */
  lemma FallbackMapping(c: Control, items: seq<ChecklistItem>, evidence: seq<Evidence>)
    ensures |FallbackLines(c, items, evidence)| == 12 + |MappingLines(items, evidence)| + |GapLines(evidence)|
    ensures items == [] ==> FallbackLines(c, items, evidence)[5] == NoChecklistLine
    ensures forall i :: 0 <= i < |items| ==> FallbackLines(c, items, evidence)[5 + i] == ItemLine(items[i], evidence)
  {
    if items == [] {
      MappingLineAt(c, items, evidence, 0);
    } else {
      forall i | 0 <= i < |items| ensures FallbackLines(c, items, evidence)[5 + i] == ItemLine(items[i], evidence) {
        MappingLineAt(c, items, evidence, i);
        assert MappingLines(items, evidence)[i] == ItemLine(items[i], evidence);
      }
    }
  }

  /** Line `5 + i` of the report is line `i` of the mapping section. */
  lemma MappingLineAt(c: Control, items: seq<ChecklistItem>, evidence: seq<Evidence>, i: nat)
    requires i < |MappingLines(items, evidence)|
    ensures |FallbackLines(c, items, evidence)| > 5 + i
    ensures FallbackLines(c, items, evidence)[5 + i] == MappingLines(items, evidence)[i]
  {
    var head := FallbackHead(c);
    var ml := MappingLines(items, evidence);
    var gaps := GapSection(evidence);
    IndexRight(head, ml, i);
    IndexLeft(head + ml, gaps, 5 + i);
    IndexLeft(head + ml + gaps, ActionSection, 5 + i);
  }

  /** The gaps section asks for uploads exactly when no evidence was retrieved. */
  lemma FallbackGaps(c: Control, items: seq<ChecklistItem>, evidence: seq<Evidence>)
    ensures var lines := FallbackLines(c, items, evidence);
      var m := |MappingLines(items, evidence)|;
      && |lines| > 8 + m
      && (evidence == [] <==> lines[7 + m] == NoSnippetsLine)
      && (evidence != [] ==> lines[7 + m] == ConfirmLine && lines[8 + m] == AddArtifactLine)
  {
    var head := FallbackHead(c);
    var ml := MappingLines(items, evidence);
    var gaps := GapSection(evidence);
    var front := head + ml + gaps;
    var lines := FallbackLines(c, items, evidence);
    forall i | 0 <= i < |gaps| ensures lines[5 + |ml| + i] == gaps[i] {
      IndexRight(head + ml, gaps, i);
      IndexLeft(front, ActionSection, 5 + |ml| + i);
    }
    assert ConfirmLine != NoSnippetsLine by {
      assert |ConfirmLine| != |NoSnippetsLine|;
    }
  }

  /** Without evidence every checklist line reports missing evidence and the gaps ask for uploads. */
  lemma FallbackWithoutEvidence(c: Control, items: seq<ChecklistItem>)
    ensures var lines := FallbackLines(c, items, []);
      && (forall i :: 0 <= i < |items| ==> lines[5 + i] == "- " + items[i].text + MissingSuffix)
      && lines[7 + |MappingLines(items, [])|] == NoSnippetsLine
  {
    FallbackMapping(c, items, []);
    FallbackGaps(c, items, []);
  }

  /** With room for at least one, nothing is chosen exactly when nothing scored above zero. */
  lemma TopPositiveEmptyIff(scored: seq<(int, int)>, topN: int)
    requires 1 <= topN
    ensures TopPositive(scored, topN) == [] <==> forall e :: e in scored ==> e.0 <= 0
  {
    TopPositiveComplete(scored, topN);
    if e :| e in scored && e.0 > 0 {
      PositiveOfSort(scored);
      assert e in Positive(Sort(scored, LargerPair));
    }
  }

  /**
   * With evidence, a checklist line cites the artifacts chosen for the item
   * when some artifact shares a keyword with it, and otherwise says that no
   * strong match was found; one or two artifacts are cited.
   */
  lemma ItemLineCases(it: ChecklistItem, evidence: seq<Evidence>)
    requires evidence != []
    ensures var best := BestArtifacts(it.text, evidence, CitationsPerItem);
      (forall e :: e in ScoredList(Keywords(it.text), evidence) ==> e.0 <= 0) <==> best == []
    ensures var best := BestArtifacts(it.text, evidence, CitationsPerItem);
      best == [] ==> ItemLine(it, evidence) == "- " + it.text + NoMatchSuffix
    ensures var best := BestArtifacts(it.text, evidence, CitationsPerItem);
      best != [] ==>
        && 1 <= |best| <= CitationsPerItem
        && ItemLine(it, evidence) == "- " + it.text + CandidatesInfix + JoinWith(", ", Citations(best))
  {
    var scored := ScoredList(Keywords(it.text), evidence);
    TopPositiveEmptyIff(scored, CitationsPerItem);
    TopPositiveSound(scored, CitationsPerItem);
  }

  /** The mapping line for one checklist item, as the fallback report's loop writes it. */
  method MapItem(it: ChecklistItem, evidence: seq<Evidence>) returns (line: string)
    ensures line == ItemLine(it, evidence)
  {
    if evidence == [] {
      line := "- " + it.text + MissingSuffix;
    } else {
      var best := PickBest(it.text, evidence, CitationsPerItem);
      if best != [] {
        var citations := JoinWith(", ", Citations(best));
        line := "- " + it.text + CandidatesInfix + citations;
      } else {
        line := "- " + it.text + NoMatchSuffix;
      }
    }
  }

  /** The mapping section, as the fallback report's loop over the checklist builds it. */
  method MapItems(items: seq<ChecklistItem>, evidence: seq<Evidence>) returns (mapped: seq<string>)
    ensures mapped == MappingLines(items, evidence)
  {
    if items == [] {
      mapped := [NoChecklistLine];
    } else {
      mapped := [];
      var i := 0;
      while i < |items|
        invariant 0 <= i <= |items|
        invariant |mapped| == i
        invariant forall t :: 0 <= t < i ==> mapped[t] == ItemLine(items[t], evidence)
      {
        var line := MapItem(items[i], evidence);
        var prev := mapped;
        mapped := mapped + [line];
        forall t | 0 <= t < i ensures mapped[t] == ItemLine(items[t], evidence) {
          IndexLeft(prev, [line], t);
        }
        IndexRight(prev, [line], 0);
        i := i + 1;
      }
    }
    assert mapped == MappingLines(items, evidence);
  }

  /** `_fallback_report`, building its line list step by step. */
  method FallbackReport(c: Control, items: seq<ChecklistItem>, evidence: seq<Evidence>) returns (report: string)
    ensures report == FallbackText(c, items, evidence)
  {
    var lines := [SummaryHeader, UnavailableLine, "Control: " + c.code + " \U{2014} " + c.title, ""];
    lines := lines + [MappingHeader];
    assert lines == FallbackHead(c);
    var mapped := MapItems(items, evidence);
    lines := lines + mapped;
    var gaps := ["", GapsHeader];
    if evidence == [] {
      gaps := gaps + [NoSnippetsLine];
    } else {
      gaps := gaps + [ConfirmLine];
      gaps := gaps + [AddArtifactLine];
    }
    assert gaps == GapSection(evidence);
    lines := lines + gaps;
    lines := lines + ["", ActionsHeader] + ActionLines;
    assert lines == FallbackLines(c, items, evidence);
    report := JoinWith("\n", lines);
  }

  // ---------------------------------------------------------------------
  // Evidence gathering and the report itself
  // ---------------------------------------------------------------------

  /** Each snippet is cut to this many characters. */
  const SnippetChars := 1200

  /** The chunks of one artifact, in table order. */
  function ChunksOf(chunks: seq<Chunk>, aid: int): (r: seq<Chunk>)
    ensures forall ch :: ch in r <==> ch in chunks && ch.artifactId == aid
  {
    if chunks == [] then []
    else (if chunks[0].artifactId == aid then [chunks[0]] else []) + ChunksOf(chunks[1..], aid)
  }

  /** `order_by(chunk_index.asc())`. */
  function LowerIndex(a: Chunk, b: Chunk): bool {
    a.chunkIndex < b.chunkIndex
  }

  /** The first `n` chunks of an artifact by chunk index. */
  function FirstChunks(chunks: seq<Chunk>, aid: int, n: nat): seq<Chunk> {
    PySliceTo(Sort(ChunksOf(chunks, aid), LowerIndex), n)
  }

  /** `[c.text[:1200] for c in chunks]`. */
  function SnippetsOf(chunks: seq<Chunk>, aid: int, n: nat): (r: seq<string>)
    ensures |r| == |FirstChunks(chunks, aid, n)|
    ensures forall i :: 0 <= i < |r| ==> r[i] == PySliceTo(FirstChunks(chunks, aid, n)[i].text, SnippetChars)
  {
    var cs := FirstChunks(chunks, aid, n);
    seq(|cs|, i requires 0 <= i < |cs| => PySliceTo(cs[i].text, SnippetChars))
  }

  /** The first `n` of `own` by chunk index: `min(n, |own|)` of them, in index order. */
  lemma LowestIndexFirst(own: seq<Chunk>, n: nat)
    ensures var cs := PySliceTo(Sort(own, LowerIndex), n);
      && |cs| == (if n < |own| then n else |own|)
      && (forall ch :: ch in cs ==> ch in own)
      && (forall i, j :: 0 <= i < j < |cs| ==> cs[i].chunkIndex <= cs[j].chunkIndex)
  {
    var sorted := Sort(own, LowerIndex);
    var cs := PySliceTo(sorted, n);
    SortSorted(own, LowerIndex);
    assert cs == sorted[..|cs|];
    forall ch | ch in cs ensures ch in own {
      assert ch in multiset(sorted);
    }
  }

  /** No chunk left out of the first `n` by chunk index has a lower index than one kept. */
  lemma LowestIndexKept(own: seq<Chunk>, n: nat)
    ensures var cs := PySliceTo(Sort(own, LowerIndex), n);
      forall ch, kept :: ch in own && ch !in cs && kept in cs ==> kept.chunkIndex <= ch.chunkIndex
  {
    var sorted := Sort(own, LowerIndex);
    var cs := PySliceTo(sorted, n);
    SortSorted(own, LowerIndex);
    assert cs == sorted[..|cs|];
    forall ch, kept | ch in own && ch !in cs && kept in cs
      ensures kept.chunkIndex <= ch.chunkIndex
    {
      assert ch in multiset(own);
      assert ch in sorted;
      SortedPrefixFirst(sorted, |cs|, ch, kept);
    }
  }

  /** In a sequence sorted by chunk index, a chunk of a prefix comes no later than one outside it. */
  lemma SortedPrefixFirst(sorted: seq<Chunk>, m: nat, ch: Chunk, kept: Chunk)
    requires SortedBy(sorted, LowerIndex) && m <= |sorted|
    requires ch in sorted && ch !in sorted[..m] && kept in sorted[..m]
    ensures kept.chunkIndex <= ch.chunkIndex
  {
    var a :| 0 <= a < |sorted| && sorted[a] == ch;
    var b :| 0 <= b < m && sorted[..m][b] == kept;
    forall i | 0 <= i < m ensures sorted[i] != ch {
      assert sorted[..m][i] == sorted[i];
    }
    assert sorted[b] == kept;
    assert b < a;
  }

  /**
   * An artifact contributes its `min(n, chunks)` lowest-index chunks, in
   * index order; no chunk of it left out has a lower index than one kept.
   */
  lemma SnippetsSpec(chunks: seq<Chunk>, aid: int, n: nat)
    ensures var cs := FirstChunks(chunks, aid, n);
      && |cs| == (if n < |ChunksOf(chunks, aid)| then n else |ChunksOf(chunks, aid)|)
      && (forall ch :: ch in cs ==> ch in chunks && ch.artifactId == aid)
      && (forall i, j :: 0 <= i < j < |cs| ==> cs[i].chunkIndex <= cs[j].chunkIndex)
      && (forall ch, kept :: ch in chunks && ch.artifactId == aid && ch !in cs && kept in cs ==>
            kept.chunkIndex <= ch.chunkIndex)
  {
    LowestIndexFirst(ChunksOf(chunks, aid), n);
    LowestIndexKept(ChunksOf(chunks, aid), n);
  }

  /** Each snippet is a prefix of its chunk's text of at most 1200 characters. */
  lemma SnippetsCut(chunks: seq<Chunk>, aid: int, n: nat)
    ensures var cs := FirstChunks(chunks, aid, n);
      forall i :: 0 <= i < |cs| ==>
        var s := SnippetsOf(chunks, aid, n)[i]; |s| <= SnippetChars && s <= cs[i].text
  {
  }

  /** The evidence gathered for the retrieved ids, skipping ids with no artifact row. */
  function EvidenceFor(artifacts: seq<Artifact>, chunks: seq<Chunk>, ids: seq<int>, n: nat): seq<Evidence> {
    if ids == [] then []
    else
      var aid := ids[|ids| - 1];
      EvidenceFor(artifacts, chunks, ids[..|ids| - 1], n) +
      match FindArtifact(artifacts, aid)
      case None => []
      case Some(a) => [Evidence(a, SnippetsOf(chunks, aid, n))]
  }

  /**
   * Evidence follows the retrieved order, one entry per id that names an
   * artifact, each carrying that artifact's snippets.
   */
  lemma EvidenceForSpec(artifacts: seq<Artifact>, chunks: seq<Chunk>, ids: seq<int>, n: nat)
    ensures var ev := EvidenceFor(artifacts, chunks, ids, n);
      && |ev| <= |ids|
      && (forall i :: 0 <= i < |ev| ==>
            && ev[i].artifact in artifacts && ev[i].artifact.id in ids
            && ev[i].snippets == SnippetsOf(chunks, ev[i].artifact.id, n))
      && ((forall i :: 0 <= i < |ids| ==> FindArtifact(artifacts, ids[i]).Some?) ==>
            |ev| == |ids| && forall i :: 0 <= i < |ids| ==> ev[i].artifact.id == ids[i])
  {
    EvidenceForSound(artifacts, chunks, ids, n);
    if forall i :: 0 <= i < |ids| ==> FindArtifact(artifacts, ids[i]).Some? {
      EvidenceForComplete(artifacts, chunks, ids, n);
    }
  }

  lemma {:induction false} EvidenceForSound(artifacts: seq<Artifact>, chunks: seq<Chunk>, ids: seq<int>, n: nat)
    ensures var ev := EvidenceFor(artifacts, chunks, ids, n);
      && |ev| <= |ids|
      && forall i :: 0 <= i < |ev| ==>
           && ev[i].artifact in artifacts && ev[i].artifact.id in ids
           && ev[i].snippets == SnippetsOf(chunks, ev[i].artifact.id, n)
  {
    if ids != [] {
      var init := ids[..|ids| - 1];
      var prev := EvidenceFor(artifacts, chunks, init, n);
      var ev := EvidenceFor(artifacts, chunks, ids, n);
      EvidenceForSound(artifacts, chunks, init, n);
      forall i | 0 <= i < |ev|
        ensures ev[i].artifact in artifacts && ev[i].artifact.id in ids
        ensures ev[i].snippets == SnippetsOf(chunks, ev[i].artifact.id, n)
      {
        if i < |prev| {
          assert ev[i] == prev[i];
          assert prev[i].artifact.id in init;
        }
      }
    }
  }

  lemma {:induction false} EvidenceForComplete(artifacts: seq<Artifact>, chunks: seq<Chunk>, ids: seq<int>, n: nat)
    requires forall i :: 0 <= i < |ids| ==> FindArtifact(artifacts, ids[i]).Some?
    ensures var ev := EvidenceFor(artifacts, chunks, ids, n);
      |ev| == |ids| && forall i :: 0 <= i < |ids| ==> ev[i].artifact.id == ids[i]
  {
    if ids != [] {
      var init := ids[..|ids| - 1];
      assert forall i :: 0 <= i < |init| ==> init[i] == ids[i];
      EvidenceForComplete(artifacts, chunks, init, n);
      var prev := EvidenceFor(artifacts, chunks, init, n);
      var ev := EvidenceFor(artifacts, chunks, ids, n);
      forall i | 0 <= i < |ids| ensures ev[i].artifact.id == ids[i] {
        if i < |init| {
          assert ev[i] == prev[i];
        }
      }
    }
  }

  /** The snippet-gathering loop of `generate_control_report`. */
  method GatherEvidence(artifacts: seq<Artifact>, chunks: seq<Chunk>, ids: seq<int>, n: nat)
    returns (evidence: seq<Evidence>)
    ensures evidence == EvidenceFor(artifacts, chunks, ids, n)
  {
    evidence := [];
    var i := 0;
    while i < |ids|
      invariant 0 <= i <= |ids|
      invariant evidence == EvidenceFor(artifacts, chunks, ids[..i], n)
    {
      var aid := ids[i];
      EvidenceForStep(artifacts, chunks, ids, n, i);
      var a := FindArtifact(artifacts, aid);
      if a.None? {
        i := i + 1;
        continue;
      }
      var cs := FirstChunks(chunks, aid, n);
      var snippets := seq(|cs|, j requires 0 <= j < |cs| => PySliceTo(cs[j].text, SnippetChars));
      assert snippets == SnippetsOf(chunks, aid, n);
      evidence := evidence + [Evidence(a.value, snippets)];
      i := i + 1;
    }
    assert ids[..i] == ids;
  }

  /** One more retrieved id adds its evidence entry, if it names an artifact. */
  lemma EvidenceForStep(artifacts: seq<Artifact>, chunks: seq<Chunk>, ids: seq<int>, n: nat, i: nat)
    requires i < |ids|
    ensures EvidenceFor(artifacts, chunks, ids[..i + 1], n) ==
      EvidenceFor(artifacts, chunks, ids[..i], n) +
      match FindArtifact(artifacts, ids[i])
      case None => []
      case Some(a) => [Evidence(a, SnippetsOf(chunks, ids[i], n))]
  {
    assert ids[..i + 1][..i] == ids[..i];
  }

  /** Which path produced the report. */
  datatype Mode = OpenAi | Fallback

  function ModeTag(m: Mode): string {
    match m
    case OpenAi => "openai"
    case Fallback => "fallback"
  }

  const ControlNotFound := "Control not found."

  /**
   * `generate_control_report`: look the control up, retrieve `k` artifacts,
   * gather `n` snippets of each, and ask the model; when the model call fails,
   * fall back to the deterministic report over the same evidence.
   */
  method GenerateControlReport<M>(cache: ModelCache<M>, outcome: Option<M>,
                                  controls: seq<Control>, checklist: seq<ChecklistItem>,
                                  artifacts: seq<Artifact>, chunks: seq<Chunk>, controlId: int,
                                  kwSims: seq<real>, kwRanked: seq<int>, emSims: seq<real>, emRanked: seq<int>,
                                  k: int, n: nat, llm: string -> Option<string>)
    returns (report: string, mode: Mode)
    requires |kwSims| == |chunks| && ValidRanking(kwRanked, |kwSims|)
    requires |emSims| == |chunks| && ValidRanking(emRanked, |emSims|)
    modifies cache
    ensures FindControl(controls, controlId).None? ==>
      report == ControlNotFound && mode == Fallback && cache.State() == old(cache.State())
    ensures FindControl(controls, controlId).Some? ==>
      var c := FindControl(controls, controlId).value;
      var ids := HybridIds(old(cache.State()), outcome, ControlQueryText(controls, checklist, controlId), chunks,
                           kwSims, kwRanked, emSims, emRanked, k);
      var evidence := EvidenceFor(artifacts, chunks, ids, n);
      var prompt := BuildPrompt(c, ItemsOf(checklist, controlId), evidence);
      && cache.State() == Step(old(cache.State()), outcome).0
      && (llm(prompt).Some? ==> report == llm(prompt).value && mode == OpenAi)
      && (llm(prompt).None? ==> report == FallbackText(c, ItemsOf(checklist, controlId), evidence) && mode == Fallback)
  {
    var control := FindControl(controls, controlId);
    if control.None? {
      return ControlNotFound, Fallback;
    }
    var items := ItemsOf(checklist, controlId);
    var ids := HybridRetrieve(cache, outcome, controls, checklist, chunks, controlId,
                              kwSims, kwRanked, emSims, emRanked, k);
    var evidence := GatherEvidence(artifacts, chunks, ids, n);
    var prompt := BuildPrompt(control.value, items, evidence);
    var response := llm(prompt);
    if response.Some? {
      return response.value, OpenAi;
    }
    report := FallbackReport(control.value, items, evidence);
    mode := Fallback;
  }
}
