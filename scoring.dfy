/**
 * Readiness scoring and the gap lifecycle of `api/main.py`: the pure scorer
 * `compute_scores`, and the two routes that change stored state,
 * `link_artifact` (insert a link if absent) and `compute_score` (append a
 * score snapshot, resolve the control's open gaps, open the gaps the new
 * scores imply). Scores are exact reals; timestamps are whole seconds.
 */
module Scoring {
  import opened Wrappers
  import opened Entities

  const SecondsPerDay: int := 86400

  datatype Scores = Scores(coverage: real, freshness: real, credibility: real, readiness: real)

  /** Whole days from `t` to `now`, rounded down like `timedelta.days`. */
  function AgeDays(now: int, t: int): int {
    (now - t) / SecondsPerDay
  }

  function MinReal(a: real, b: real): real {
    if a <= b then a else b
  }

  /** Share of the checklist covered by linked artifacts, in percent, capped at 100. */
  function Coverage(linkedCount: nat, checklistCount: int): (r: real)
    ensures 0.0 <= r <= 100.0
    ensures checklistCount <= 0 ==> r == 0.0
    ensures checklistCount > 0 && linkedCount >= checklistCount ==> r == 100.0
    ensures checklistCount > 0 && linkedCount < checklistCount ==> r < 100.0
  {
    if checklistCount <= 0 then 0.0
    else MinReal(100.0, (linkedCount as real / checklistCount as real) * 100.0)
  }

  /** The latest collection time among the artifacts that have one. */
  function Newest(linked: seq<Artifact>): (r: Option<int>)
    ensures r.None? <==> forall i :: 0 <= i < |linked| ==> linked[i].collectedAt.None?
    ensures r.Some? ==> exists i :: 0 <= i < |linked| && linked[i].collectedAt == Some(r.value)
    ensures r.Some? ==> forall i :: 0 <= i < |linked| && linked[i].collectedAt.Some? ==> linked[i].collectedAt.value <= r.value
  {
    if linked == [] then None
    else
      var rest := Newest(linked[1..]);
      match linked[0].collectedAt
      case None => rest
      case Some(t) => if rest.Some? && rest.value > t then rest else Some(t)
  }

  /** 100 for evidence at most 90 days old, 50 up to 180 days, else 0; 0 without any dated evidence. */
  function Freshness(linked: seq<Artifact>, now: int): real {
    if linked == [] then 0.0
    else
      match Newest(linked)
      case None => 0.0
      case Some(t) =>
        var age := AgeDays(now, t);
        if age <= 90 then 100.0 else if age <= 180 then 50.0 else 0.0
  }

  /** System-collected ("github") evidence weighs 1.0, anything else 0.7. */
  function Weight(a: Artifact): real {
    if a.source == "github" then 1.0 else 0.7
  }

  function WeightSum(linked: seq<Artifact>): real {
    if linked == [] then 0.0 else Weight(linked[0]) + WeightSum(linked[1..])
  }

  function GithubCount(linked: seq<Artifact>): (n: nat)
    ensures n <= |linked|
  {
    if linked == [] then 0 else (if linked[0].source == "github" then 1 else 0) + GithubCount(linked[1..])
  }

  /** Mean weight of the linked artifacts, in percent; 0 when nothing is linked. */
  function Credibility(linked: seq<Artifact>): real {
    if linked == [] then 0.0 else (WeightSum(linked) / |linked| as real) * 100.0
  }

  /** `compute_scores(linked_artifacts, checklist_count)` at time `now`. */
  function ComputeScores(linked: seq<Artifact>, checklistCount: int, now: int): (s: Scores)
    ensures 0.0 <= s.coverage <= 100.0
    ensures s.freshness == 0.0 || s.freshness == 50.0 || s.freshness == 100.0
    ensures 0.0 <= s.credibility <= 100.0
    ensures 0.0 <= s.readiness <= 100.0
  {
    CredibilityRange(linked);
    var c := Coverage(|linked|, checklistCount);
    var f := Freshness(linked, now);
    var cr := Credibility(linked);
    Scores(c, f, cr, 0.5 * c + 0.3 * f + 0.2 * cr)
  }

  /** The weights add up to one per github artifact plus 0.7 per other artifact. */
  lemma {:induction false} WeightSumByCount(linked: seq<Artifact>)
    ensures WeightSum(linked) == GithubCount(linked) as real + 0.7 * (|linked| - GithubCount(linked)) as real
  {
    if linked != [] {
      WeightSumByCount(linked[1..]);
    }
  }

  /** Credibility is 70 plus 30 times the github share of the linked artifacts. */
  lemma CredibilityByCount(linked: seq<Artifact>)
    requires linked != []
    ensures Credibility(linked) == 70.0 + 30.0 * (GithubCount(linked) as real / |linked| as real)
  {
    WeightSumByCount(linked);
    MeanWeight(WeightSum(linked), |linked| as real, GithubCount(linked) as real);
  }

  lemma MeanWeight(w: real, n: real, g: real)
    requires n > 0.0 && w == g + 0.7 * (n - g)
    ensures (w / n) * 100.0 == 70.0 + 30.0 * (g / n)
  {
    var q := w / n;
    var h := g / n;
    assert q * n == w;
    assert h * n == g;
    assert (0.7 + 0.3 * h) * n == w;
    CancelFactor(q, 0.7 + 0.3 * h, n);
  }

  lemma CancelFactor(a: real, b: real, n: real)
    requires n != 0.0 && a * n == b * n
    ensures a == b
  {
    assert (a - b) * n == 0.0;
  }

  lemma ShareBounds(g: real, n: real)
    requires 0.0 <= g <= n && n > 0.0
    ensures 0.0 <= g / n <= 1.0
    ensures g / n == 1.0 <==> g == n
  {
    var h := g / n;
    assert h * n == g;
    assert (1.0 - h) * n == n - g;
  }

  /** With anything linked, credibility lies between 70 (all uploads) and 100 (all github). */
  lemma CredibilityRange(linked: seq<Artifact>)
    ensures linked == [] ==> Credibility(linked) == 0.0
    ensures linked != [] ==> 70.0 <= Credibility(linked) <= 100.0
    ensures linked != [] ==> (Credibility(linked) == 100.0 <==> GithubCount(linked) == |linked|)
  {
    if linked != [] {
      CredibilityByCount(linked);
      ShareBounds(GithubCount(linked) as real, |linked| as real);
    }
  }

  /** Freshness is 0 exactly when no linked artifact is dated or the newest is over 180 days old. */
  lemma FreshnessZeroIff(linked: seq<Artifact>, now: int)
    ensures Freshness(linked, now) == 0.0 <==>
      (forall i :: 0 <= i < |linked| ==> linked[i].collectedAt.None? || AgeDays(now, linked[i].collectedAt.value) > 180)
  {
    var r := Newest(linked);
    if r.Some? {
      forall i | 0 <= i < |linked| && linked[i].collectedAt.Some?
        ensures AgeDays(now, linked[i].collectedAt.value) >= AgeDays(now, r.value)
      {
        DivMonotone(now - r.value, now - linked[i].collectedAt.value);
      }
      var k :| 0 <= k < |linked| && linked[k].collectedAt == Some(r.value);
    }
  }

  lemma DivMonotone(a: int, b: int)
    requires a <= b
    ensures a / SecondsPerDay <= b / SecondsPerDay
  {
  }

  /** The example figures: 2 of 4 items covered, fresh evidence, one github and one upload. */
  lemma ScenarioScores(now: int)
    ensures var linked := [Artifact(1, "github", "repo-settings", Some(now - 30 * SecondsPerDay)),
                           Artifact(2, "upload", "policy.md", None)];
      ComputeScores(linked, 4, now) == Scores(50.0, 100.0, 85.0, 72.0)
  {
    var linked := [Artifact(1, "github", "repo-settings", Some(now - 30 * SecondsPerDay)),
                   Artifact(2, "upload", "policy.md", None)];
    assert Newest(linked[1..]) == None;
    assert "upload"[0] != "github"[0];
    assert linked[1..][1..] == [];
    assert Weight(linked[1]) == 0.7;
    assert WeightSum(linked[1..]) == 0.7;
    assert WeightSum(linked) == 1.7;
  }

  /** Evidence 200 days old earns no freshness; 30 days old earns full freshness. */
  lemma ScenarioFreshness(now: int)
    ensures Freshness([Artifact(1, "upload", "a", Some(now - 200 * SecondsPerDay))], now) == 0.0
    ensures Freshness([Artifact(1, "upload", "a", Some(now - 30 * SecondsPerDay))], now) == 100.0
  {
    var old200 := [Artifact(1, "upload", "a", Some(now - 200 * SecondsPerDay))];
    var new30 := [Artifact(1, "upload", "a", Some(now - 30 * SecondsPerDay))];
    assert Newest(old200[1..]) == None;
    assert Newest(new30[1..]) == None;
  }

  // ---------------------------------------------------------------------
  // Links
  // ---------------------------------------------------------------------

  datatype Link = Link(controlId: int, artifactId: int)

  predicate UniqueLinks(links: seq<Link>) {
    forall i, j :: 0 <= i < j < |links| ==> links[i] != links[j]
  }

  /** The link table after `link_artifact(c, a)`: the pair is added unless it is already there. */
  function WithLink(links: seq<Link>, controlId: int, artifactId: int): seq<Link> {
    if Link(controlId, artifactId) in links then links else links + [Link(controlId, artifactId)]
  }

  lemma {:induction false} UniqueCountsOnce(links: seq<Link>, l: Link)
    requires UniqueLinks(links) && l in links
    ensures multiset(links)[l] == 1
  {
    if links[0] == l {
      assert links == [l] + links[1..];
      assert l !in links[1..];
    } else {
      assert links == [links[0]] + links[1..];
      UniqueCountsOnce(links[1..], l);
    }
  }

  /** Linking keeps links unique, leaves exactly one row for the pair, and a second link changes nothing. */
  lemma LinkIdempotent(links: seq<Link>, controlId: int, artifactId: int)
    requires UniqueLinks(links)
    ensures UniqueLinks(WithLink(links, controlId, artifactId))
    ensures multiset(WithLink(links, controlId, artifactId))[Link(controlId, artifactId)] == 1
    ensures WithLink(WithLink(links, controlId, artifactId), controlId, artifactId) == WithLink(links, controlId, artifactId)
    ensures multiset(links) <= multiset(WithLink(links, controlId, artifactId))
  {
    UniqueCountsOnce(WithLink(links, controlId, artifactId), Link(controlId, artifactId));
  }

  /** The linked artifacts the scorer sees: one per link of the control whose artifact row exists. */
  function LinkedArtifacts(links: seq<Link>, artifacts: seq<Artifact>, controlId: int): (r: seq<Artifact>)
    ensures |r| <= |links|
    ensures forall a :: a in r ==> a in artifacts
  {
    if links == [] then []
    else
      var rest := LinkedArtifacts(links[1..], artifacts, controlId);
      if links[0].controlId == controlId then
        match FindArtifact(artifacts, links[0].artifactId)
        case Some(a) => [a] + rest
        case None => rest
      else rest
  }

  /** A link to an artifact row that does not exist, or to another control, does not change what is scored. */
  lemma {:induction false} DanglingLinkIgnored(links: seq<Link>, artifacts: seq<Artifact>, controlId: int, l: Link)
    requires l.controlId != controlId || FindArtifact(artifacts, l.artifactId).None?
    ensures LinkedArtifacts(links + [l], artifacts, controlId) == LinkedArtifacts(links, artifacts, controlId)
  {
    if links == [] {
      assert [] + [l] == [l];
    } else {
      assert (links + [l])[1..] == links[1..] + [l];
      DanglingLinkIgnored(links[1..], artifacts, controlId, l);
    }
  }

  // ---------------------------------------------------------------------
  // Gaps
  // ---------------------------------------------------------------------

  datatype Severity = High | Medium | Low

  /** A compliance gap; it is open while `resolvedAt` is `None`. */
  datatype Gap = Gap(controlId: int, severity: Severity, reason: string, createdAt: int, resolvedAt: Option<int>)

  datatype ControlScore = ControlScore(controlId: int, scores: Scores, computedAt: int)

  const CoverageReason: string := "Missing evidence: coverage below 100%"
  const StaleReason: string := "Evidence may be stale (older than 90 days)"
  const CredibilityReason: string := "Evidence relies heavily on manual uploads vs system sources"

  /** The (severity, reason) of each gap the scores `s` call for, in the order `compute_score` adds them. */
  function ImpliedKinds(s: Scores, anyLinked: bool): seq<(Severity, string)> {
    (if s.coverage < 100.0 then [(High, CoverageReason)] else []) +
    (if s.freshness < 100.0 then [(Medium, StaleReason)] else []) +
    (if s.credibility < 80.0 && anyLinked then [(Low, CredibilityReason)] else [])
  }

  /** The gap rows `compute_score` opens at time `now`. */
  function ImpliedGaps(controlId: int, s: Scores, anyLinked: bool, now: int): (r: seq<Gap>) {
    var k := ImpliedKinds(s, anyLinked);
    seq(|k|, i requires 0 <= i < |k| => Gap(controlId, k[i].0, k[i].1, now, None))
  }

  /** The implied gap rows are the three tests of `compute_score`, in order. */
  lemma ImpliedGapsByTest(controlId: int, s: Scores, anyLinked: bool, now: int)
    ensures ImpliedGaps(controlId, s, anyLinked, now) ==
      (if s.coverage < 100.0 then [Gap(controlId, High, CoverageReason, now, None)] else []) +
      (if s.freshness < 100.0 then [Gap(controlId, Medium, StaleReason, now, None)] else []) +
      (if s.credibility < 80.0 && anyLinked then [Gap(controlId, Low, CredibilityReason, now, None)] else [])
  {
  }

  function ResolveGap(g: Gap, controlId: int, now: int): Gap {
    if g.controlId == controlId && g.resolvedAt.None? then g.(resolvedAt := Some(now)) else g
  }

  /** The bulk update: every open gap of the control gets `resolvedAt := now`. */
  function ResolveOpen(gaps: seq<Gap>, controlId: int, now: int): (r: seq<Gap>)
    ensures |r| == |gaps|
  {
    seq(|gaps|, i requires 0 <= i < |gaps| => ResolveGap(gaps[i], controlId, now))
  }

  /** The gap table after one recompute. */
  function Recompute(gaps: seq<Gap>, controlId: int, s: Scores, anyLinked: bool, now: int): seq<Gap> {
    ResolveOpen(gaps, controlId, now) + ImpliedGaps(controlId, s, anyLinked, now)
  }

  /** The open gaps of one control, in table order. */
  function OpenGapsOf(gaps: seq<Gap>, controlId: int): seq<Gap> {
    if gaps == [] then []
    else
      (if gaps[0].controlId == controlId && gaps[0].resolvedAt.None? then [gaps[0]] else []) +
      OpenGapsOf(gaps[1..], controlId)
  }

  /** The (severity, reason) pairs of some gaps, in order. */
  function Kinds(gaps: seq<Gap>): (r: seq<(Severity, string)>)
    ensures |r| == |gaps|
  {
    seq(|gaps|, i requires 0 <= i < |gaps| => (gaps[i].severity, gaps[i].reason))
  }

  /** What a user sees of a control's open gaps: their (severity, reason) pairs. */
  function OpenKinds(gaps: seq<Gap>, controlId: int): seq<(Severity, string)> {
    Kinds(OpenGapsOf(gaps, controlId))
  }

  lemma {:induction false} OpenGapsOfConcat(a: seq<Gap>, b: seq<Gap>, controlId: int)
    ensures OpenGapsOf(a + b, controlId) == OpenGapsOf(a, controlId) + OpenGapsOf(b, controlId)
  {
    if a == [] {
      assert a + b == b;
    } else {
      assert (a + b)[1..] == a[1..] + b;
      OpenGapsOfConcat(a[1..], b, controlId);
    }
  }

  lemma {:induction false} NoneOpenAfterResolve(gaps: seq<Gap>, controlId: int, now: int)
    ensures OpenGapsOf(ResolveOpen(gaps, controlId, now), controlId) == []
  {
    if gaps != [] {
      NoneOpenAfterResolve(gaps[1..], controlId, now);
      assert ResolveOpen(gaps, controlId, now)[1..] == ResolveOpen(gaps[1..], controlId, now);
    }
  }

  lemma {:induction false} ImpliedAllOpen(controlId: int, s: Scores, anyLinked: bool, now: int)
    ensures OpenGapsOf(ImpliedGaps(controlId, s, anyLinked, now), controlId) == ImpliedGaps(controlId, s, anyLinked, now)
  {
    AllOpen(ImpliedGaps(controlId, s, anyLinked, now), controlId);
  }

  lemma {:induction false} AllOpen(gaps: seq<Gap>, controlId: int)
    requires forall i :: 0 <= i < |gaps| ==> gaps[i].controlId == controlId && gaps[i].resolvedAt.None?
    ensures OpenGapsOf(gaps, controlId) == gaps
  {
    if gaps != [] {
      AllOpen(gaps[1..], controlId);
      assert gaps == [gaps[0]] + gaps[1..];
    }
  }

  /** After a recompute the control's open gaps are exactly the implied ones. */
  lemma OpenAfterRecompute(gaps: seq<Gap>, controlId: int, s: Scores, anyLinked: bool, now: int)
    ensures OpenGapsOf(Recompute(gaps, controlId, s, anyLinked, now), controlId) == ImpliedGaps(controlId, s, anyLinked, now)
  {
    OpenGapsOfConcat(ResolveOpen(gaps, controlId, now), ImpliedGaps(controlId, s, anyLinked, now), controlId);
    NoneOpenAfterResolve(gaps, controlId, now);
    ImpliedAllOpen(controlId, s, anyLinked, now);
  }

  /** Which gaps are implied: High iff coverage < 100, Medium iff freshness < 100, Low iff credibility < 80 with evidence linked; at most three, all distinct. */
  lemma ImpliedGapsExact(controlId: int, s: Scores, anyLinked: bool, now: int)
    ensures var g := ImpliedGaps(controlId, s, anyLinked, now);
      && |g| <= 3
      && (forall i :: 0 <= i < |g| ==> g[i].controlId == controlId && g[i].createdAt == now && g[i].resolvedAt.None?)
      && Kinds(g) == ImpliedKinds(s, anyLinked)
      && (forall i, j :: 0 <= i < j < |g| ==> g[i].reason != g[j].reason && g[i].severity != g[j].severity)
      && ((High, CoverageReason) in Kinds(g) <==> s.coverage < 100.0)
      && ((Medium, StaleReason) in Kinds(g) <==> s.freshness < 100.0)
      && ((Low, CredibilityReason) in Kinds(g) <==> s.credibility < 80.0 && anyLinked)
  {
    var g := ImpliedGaps(controlId, s, anyLinked, now);
    assert Kinds(g) == ImpliedKinds(s, anyLinked);
    assert |CoverageReason| == 37 && |StaleReason| == 42 && |CredibilityReason| == 59;
  }

  /** Recomputing again with the same scores leaves the same open (severity, reason) pairs. */
  lemma RecomputeStable(gaps: seq<Gap>, controlId: int, s: Scores, anyLinked: bool, now1: int, now2: int)
    ensures OpenKinds(Recompute(Recompute(gaps, controlId, s, anyLinked, now1), controlId, s, anyLinked, now2), controlId)
         == OpenKinds(Recompute(gaps, controlId, s, anyLinked, now1), controlId)
  {
    var once := Recompute(gaps, controlId, s, anyLinked, now1);
    OpenAfterRecompute(gaps, controlId, s, anyLinked, now1);
    OpenAfterRecompute(once, controlId, s, anyLinked, now2);
    assert Kinds(ImpliedGaps(controlId, s, anyLinked, now1)) == ImpliedKinds(s, anyLinked);
    assert Kinds(ImpliedGaps(controlId, s, anyLinked, now2)) == ImpliedKinds(s, anyLinked);
  }

  /** A recompute deletes no gap row: old rows keep their place and content, and only open rows of this control gain `resolvedAt == now`. */
  lemma RecomputeKeepsHistory(gaps: seq<Gap>, controlId: int, s: Scores, anyLinked: bool, now: int)
    ensures var r := Recompute(gaps, controlId, s, anyLinked, now);
      && |r| == |gaps| + |ImpliedGaps(controlId, s, anyLinked, now)|
      && forall i :: 0 <= i < |gaps| ==>
           && r[i].controlId == gaps[i].controlId && r[i].severity == gaps[i].severity
           && r[i].reason == gaps[i].reason && r[i].createdAt == gaps[i].createdAt
           && r[i].resolvedAt == (if gaps[i].controlId == controlId && gaps[i].resolvedAt.None? then Some(now) else gaps[i].resolvedAt)
  {
  }

  // ---------------------------------------------------------------------
  // The stored state the two routes change
  // ---------------------------------------------------------------------

  /** The link, score and gap tables, with the checklist and artifact tables they read. */
  class Database {
    const checklist: seq<ChecklistItem>
    const artifacts: seq<Artifact>
    var links: seq<Link>
    var scores: seq<ControlScore>
    var gaps: seq<Gap>

    ghost predicate Valid()
      reads this
    {
      UniqueLinks(links)
    }

    constructor (checklist: seq<ChecklistItem>, artifacts: seq<Artifact>)
      ensures Valid()
      ensures this.checklist == checklist && this.artifacts == artifacts
      ensures links == [] && scores == [] && gaps == []
    {
      this.checklist := checklist;
      this.artifacts := artifacts;
      links, scores, gaps := [], [], [];
    }

    /** `link_artifact`: insert the (control, artifact) link unless it exists. */
    method LinkArtifact(controlId: int, artifactId: int)
      requires Valid()
      modifies this`links
      ensures Valid()
      ensures links == WithLink(old(links), controlId, artifactId)
    {
      var found := false;
      var i := 0;
      while i < |links| && !found
        invariant 0 <= i <= |links|
        invariant found <==> Link(controlId, artifactId) in links[..i]
      {
        found := links[i] == Link(controlId, artifactId);
        i := i + 1;
      }
      assert !found ==> links[..i] == links;
      if !found {
        links := links + [Link(controlId, artifactId)];
      }
      LinkIdempotent(old(links), controlId, artifactId);
    }

    /** The bulk update of `compute_score`: every open gap row of the control gets `resolvedAt := now`. */
    method CloseOpenGaps(controlId: int, now: int)
      modifies this`gaps
      ensures gaps == ResolveOpen(old(gaps), controlId, now)
    {
      var i := 0;
      while i < |gaps|
        invariant 0 <= i <= |gaps| == |old(gaps)|
        invariant forall j :: 0 <= j < i ==> gaps[j] == ResolveGap(old(gaps)[j], controlId, now)
        invariant forall j :: i <= j < |gaps| ==> gaps[j] == old(gaps)[j]
      {
        if gaps[i].controlId == controlId && gaps[i].resolvedAt.None? {
          gaps := gaps[i := gaps[i].(resolvedAt := Some(now))];
        }
        i := i + 1;
      }
    }

    /** `compute_score`: append a snapshot of the current scores, then replace the control's open gaps. */
    method ComputeScore(controlId: int, now: int)
      modifies this`scores, this`gaps
      ensures var linked := LinkedArtifacts(links, artifacts, controlId);
        var s := ComputeScores(linked, |ItemsOf(checklist, controlId)|, now);
        && scores == old(scores) + [ControlScore(controlId, s, now)]
        && gaps == Recompute(old(gaps), controlId, s, linked != [], now)
    {
      var linked := LinkedArtifacts(links, artifacts, controlId);
      var s := ComputeScores(linked, |ItemsOf(checklist, controlId)|, now);
      scores := scores + [ControlScore(controlId, s, now)];

      CloseOpenGaps(controlId, now);
      OpenImpliedGaps(controlId, s, linked != [], now);
    }

    /** The inserts of `compute_score`: one open row per gap the new scores imply. */
    method OpenImpliedGaps(controlId: int, s: Scores, anyLinked: bool, now: int)
      modifies this`gaps
      ensures gaps == old(gaps) + ImpliedGaps(controlId, s, anyLinked, now)
    {
      ImpliedGapsByTest(controlId, s, anyLinked, now);
      if s.coverage < 100.0 {
        gaps := gaps + [Gap(controlId, High, CoverageReason, now, None)];
      }
      if s.freshness < 100.0 {
        gaps := gaps + [Gap(controlId, Medium, StaleReason, now, None)];
      }
      if s.credibility < 80.0 && anyLinked {
        gaps := gaps + [Gap(controlId, Low, CredibilityReason, now, None)];
      }
    }
  }
}
