/**
 * Retrieval post-processing of `api/retrieval.py`: the control's query text,
 * the chunk-to-artifact max aggregation and top-k cut shared by the lexical
 * and the semantic ranker, the rank-union fusion of the two, and the
 * load-once, fail-forever cache of the embedding model.
 *
 * The per-chunk similarities (TF-IDF cosine or embedding dot product) and
 * their ranking `np.argsort(-sims)` come from numerical libraries; they are
 * inputs here.
 */
module Retrieval {
  import opened Wrappers
  import opened Text
  import opened Sorting
  import opened Entities

  // ---------------------------------------------------------------------
  // Query construction
  // ---------------------------------------------------------------------

  function ItemTexts(items: seq<ChecklistItem>): (r: seq<string>)
    ensures |r| == |items| && forall i :: 0 <= i < |items| ==> r[i] == items[i].text
  {
    seq(|items|, i requires 0 <= i < |items| => items[i].text)
  }

  /** Code, title, description, then every checklist text. */
  function QueryParts(c: Control, items: seq<ChecklistItem>): seq<string> {
    [c.code, c.title, c.description] + ItemTexts(items)
  }

  /** The parts that are not empty, in order. */
  function NonEmpty(parts: seq<string>): (r: seq<string>)
    ensures forall i :: 0 <= i < |r| ==> r[i] != []
    ensures forall p :: p in r <==> p in parts && p != []
  {
    if parts == [] then []
    else (if parts[0] != [] then [parts[0]] else []) + NonEmpty(parts[1..])
  }

  predicate AllEmpty(parts: seq<string>) {
    forall p :: p in parts ==> p == []
  }

  /** `control_query_text(db, control_id)`. */
  function ControlQueryText(controls: seq<Control>, checklist: seq<ChecklistItem>, controlId: int): string {
    match FindControl(controls, controlId)
    case None => ""
    case Some(c) => JoinWith(" ", NonEmpty(QueryParts(c, ItemsOf(checklist, controlId))))
  }

  /** The query is empty exactly when the control is missing or every part of it is empty. */
  lemma QueryTextEmptyIff(controls: seq<Control>, checklist: seq<ChecklistItem>, controlId: int)
    ensures FindControl(controls, controlId).None? ==> ControlQueryText(controls, checklist, controlId) == ""
    ensures FindControl(controls, controlId).Some? ==>
      (ControlQueryText(controls, checklist, controlId) == "" <==>
       AllEmpty(QueryParts(FindControl(controls, controlId).value, ItemsOf(checklist, controlId))))
  {
    var fc := FindControl(controls, controlId);
    if fc.Some? {
      var parts := QueryParts(fc.value, ItemsOf(checklist, controlId));
      var ps := NonEmpty(parts);
      JoinEmptyIff(" ", ps);
      if ps != [] {
        assert ps[0] in parts && ps[0] != [];
      } else {
        forall p | p in parts ensures p == [] {
          assert p == [] || p in ps;
        }
      }
    }
  }

  /** The query mentions the code, the title, the description and every non-empty checklist text. */
  lemma QueryTextMentionsParts(controls: seq<Control>, checklist: seq<ChecklistItem>, controlId: int, p: string)
    requires FindControl(controls, controlId).Some?
    requires p in QueryParts(FindControl(controls, controlId).value, ItemsOf(checklist, controlId))
    ensures Contains(ControlQueryText(controls, checklist, controlId), p)
  {
    var ps := NonEmpty(QueryParts(FindControl(controls, controlId).value, ItemsOf(checklist, controlId)));
    if p == [] {
      assert p <= ControlQueryText(controls, checklist, controlId);
    } else {
      var i :| 0 <= i < |ps| && ps[i] == p;
      JoinContainsPart(" ", ps, i);
    }
  }

  // ---------------------------------------------------------------------
  // Chunk scores to artifact scores
  // ---------------------------------------------------------------------

  /** Only the best-ranked 200 chunks are aggregated. */
  const MaxRankedChunks: nat := 200

  /** Every ranked position names a chunk. */
  predicate ValidRanking(ranked: seq<int>, n: nat) {
    forall j :: 0 <= j < |ranked| ==> 0 <= ranked[j] < n
  }

  function TopN(ranked: seq<int>): nat {
    if |ranked| < MaxRankedChunks then |ranked| else MaxRankedChunks
  }

  function MaxReal(a: real, b: real): real {
    if a >= b then a else b
  }

  /** The artifact of each chunk, in chunk order (`load_chunks`). */
  function ArtifactIds(chunks: seq<Chunk>): (r: seq<int>)
    ensures |r| == |chunks| && forall i :: 0 <= i < |chunks| ==> r[i] == chunks[i].artifactId
  {
    seq(|chunks|, i requires 0 <= i < |chunks| => chunks[i].artifactId)
  }

  /** The score stored under `aid` in an insertion-ordered dictionary. */
  function Lookup(entries: seq<(int, real)>, aid: int): Option<real> {
    if entries == [] then None
    else if entries[0].0 == aid then Some(entries[0].1)
    else Lookup(entries[1..], aid)
  }

  function Key(e: (int, real)): int {
    e.0
  }

  /** `d[aid] = max(d.get(aid, 0.0), score)` on an insertion-ordered dictionary. */
  function Upsert(entries: seq<(int, real)>, aid: int, score: real): seq<(int, real)> {
    if entries == [] then [(aid, MaxReal(0.0, score))]
    else if entries[0].0 == aid then [(aid, MaxReal(entries[0].1, score))] + entries[1..]
    else [entries[0]] + Upsert(entries[1..], aid, score)
  }

  /** The dictionary after visiting the chunks at `positions` in order. */
  function Aggregate(artifactOf: seq<int>, sims: seq<real>, positions: seq<int>): seq<(int, real)>
    requires |sims| == |artifactOf| && ValidRanking(positions, |sims|)
  {
    if positions == [] then []
    else
      var j := positions[|positions| - 1];
      Upsert(Aggregate(artifactOf, sims, positions[..|positions| - 1]), artifactOf[j], sims[j])
  }

  /** Whether some visited chunk belongs to `aid`. */
  predicate Visits(artifactOf: seq<int>, positions: seq<int>, aid: int)
    requires ValidRanking(positions, |artifactOf|)
  {
    exists j :: 0 <= j < |positions| && artifactOf[positions[j]] == aid
  }

  /** The maximum of 0.0 and the similarities of the visited chunks of `aid`. */
  function BestScore(artifactOf: seq<int>, sims: seq<real>, positions: seq<int>, aid: int): real
    requires |sims| == |artifactOf| && ValidRanking(positions, |sims|)
  {
    if positions == [] then 0.0
    else
      var j := positions[|positions| - 1];
      var before := BestScore(artifactOf, sims, positions[..|positions| - 1], aid);
      if artifactOf[j] == aid then MaxReal(before, sims[j]) else before
  }

  lemma {:induction false} UpsertLookup(entries: seq<(int, real)>, aid: int, score: real, k: int)
    ensures Lookup(Upsert(entries, aid, score), k) ==
      if k == aid then Some(MaxReal(match Lookup(entries, aid) case Some(v) => v case None => 0.0, score))
      else Lookup(entries, k)
  {
    if entries != [] && entries[0].0 != aid {
      UpsertLookup(entries[1..], aid, score, k);
    }
  }

  lemma {:induction false} UpsertDistinct(entries: seq<(int, real)>, aid: int, score: real)
    requires DistinctBy(entries, Key)
    ensures DistinctBy(Upsert(entries, aid, score), Key)
    ensures forall e :: e in Upsert(entries, aid, score) ==> e.0 == aid || exists i :: 0 <= i < |entries| && entries[i].0 == e.0
  {
    if entries != [] && entries[0].0 != aid {
      var rest := Upsert(entries[1..], aid, score);
      UpsertDistinct(entries[1..], aid, score);
      forall e | e in rest ensures e.0 != entries[0].0 {
        if e.0 != aid {
          var i :| 0 <= i < |entries[1..]| && entries[1..][i].0 == e.0;
          assert entries[i + 1].0 == e.0;
        }
      }
      forall e | e in Upsert(entries, aid, score)
        ensures e.0 == aid || exists i :: 0 <= i < |entries| && entries[i].0 == e.0
      {
        if e != entries[0] && e.0 != aid {
          assert e in rest;
          var i :| 0 <= i < |entries[1..]| && entries[1..][i].0 == e.0;
          assert entries[i + 1].0 == e.0;
        }
      }
    }
  }

  lemma {:induction false} LookupFound(entries: seq<(int, real)>, i: nat)
    requires i < |entries| && DistinctBy(entries, Key)
    ensures Lookup(entries, entries[i].0) == Some(entries[i].1)
  {
    if i > 0 {
      assert Key(entries[0]) != Key(entries[i]);
      LookupFound(entries[1..], i - 1);
    }
  }

  /**
   * Aggregation is a max: after visiting `positions`, an artifact has an entry
   * exactly when one of its chunks was visited, and its score is the maximum of
   * 0.0 and its visited chunks' similarities. Keys are distinct.
   */
  lemma {:induction false} AggregateIsMax(artifactOf: seq<int>, sims: seq<real>, positions: seq<int>, aid: int)
    requires |sims| == |artifactOf| && ValidRanking(positions, |sims|)
    ensures DistinctBy(Aggregate(artifactOf, sims, positions), Key)
    ensures Lookup(Aggregate(artifactOf, sims, positions), aid) ==
      if Visits(artifactOf, positions, aid) then Some(BestScore(artifactOf, sims, positions, aid)) else None
  {
    if positions != [] {
      var init := positions[..|positions| - 1];
      var j := positions[|positions| - 1];
      var before := Aggregate(artifactOf, sims, init);
      AggregateIsMax(artifactOf, sims, init, aid);
      AggregateIsMax(artifactOf, sims, init, artifactOf[j]);
      UpsertDistinct(before, artifactOf[j], sims[j]);
      UpsertLookup(before, artifactOf[j], sims[j], aid);
      assert forall t :: 0 <= t < |init| ==> init[t] == positions[t];
      assert Visits(artifactOf, positions, aid) <==> Visits(artifactOf, init, aid) || artifactOf[j] == aid;
      if !Visits(artifactOf, init, aid) {
        NoVisitNoScore(artifactOf, sims, init, aid);
      }
    }
  }

  lemma {:induction false} NoVisitNoScore(artifactOf: seq<int>, sims: seq<real>, positions: seq<int>, aid: int)
    requires |sims| == |artifactOf| && ValidRanking(positions, |sims|)
    requires !Visits(artifactOf, positions, aid)
    ensures BestScore(artifactOf, sims, positions, aid) == 0.0
  {
    if positions != [] {
      var init := positions[..|positions| - 1];
      assert !Visits(artifactOf, init, aid) by {
        forall t | 0 <= t < |init| ensures artifactOf[init[t]] != aid {
          assert init[t] == positions[t];
        }
      }
      NoVisitNoScore(artifactOf, sims, init, aid);
      assert artifactOf[positions[|positions| - 1]] != aid;
    }
  }

  /** `BestScore` is at least 0.0 and every visited similarity of the artifact, and equals 0.0 or one of them. */
  lemma {:induction false} BestScoreIsMax(artifactOf: seq<int>, sims: seq<real>, positions: seq<int>, aid: int)
    requires |sims| == |artifactOf| && ValidRanking(positions, |sims|)
    ensures var b := BestScore(artifactOf, sims, positions, aid);
      && b >= 0.0
      && (forall j :: 0 <= j < |positions| && artifactOf[positions[j]] == aid ==> b >= sims[positions[j]])
      && (b == 0.0 || exists j :: 0 <= j < |positions| && artifactOf[positions[j]] == aid && b == sims[positions[j]])
  {
    if positions != [] {
      var init := positions[..|positions| - 1];
      BestScoreIsMax(artifactOf, sims, init, aid);
      var b := BestScore(artifactOf, sims, positions, aid);
      var before := BestScore(artifactOf, sims, init, aid);
      forall j | 0 <= j < |positions| && artifactOf[positions[j]] == aid
        ensures b >= sims[positions[j]]
      {
        if j < |init| {
          assert positions[j] == init[j];
        }
      }
      if b != 0.0 && b == before {
        var j :| 0 <= j < |init| && artifactOf[init[j]] == aid && before == sims[init[j]];
        assert positions[j] == init[j];
      }
    }
  }

  /**
   * The aggregation loop of `keyword_retrieve` and `embedding_retrieve`:
   * the chunks at the first `min(len, 200)` ranked positions, each folded
   * into its artifact's running maximum.
   */
  method AggregateMax(artifactOf: seq<int>, sims: seq<real>, ranked: seq<int>) returns (entries: seq<(int, real)>)
    requires |sims| == |artifactOf| && ValidRanking(ranked, |sims|)
    ensures entries == Aggregate(artifactOf, sims, ranked[..TopN(ranked)])
  {
    entries := [];
    var topN := TopN(ranked);
    var i := 0;
    while i < topN
      invariant 0 <= i <= topN
      invariant entries == Aggregate(artifactOf, sims, ranked[..i])
    {
      var idx := ranked[i];
      var score := sims[idx];
      entries := Upsert(entries, artifactOf[idx], score);
      assert ranked[..i + 1][..i] == ranked[..i];
      i := i + 1;
    }
  }

  // ---------------------------------------------------------------------
  // Top-k cut
  // ---------------------------------------------------------------------

  /** `sorted(..., key=score, reverse=True)`: a higher score comes first. */
  function HigherScore(a: (int, real), b: (int, real)): bool {
    a.1 > b.1
  }

  function Ids(entries: seq<(int, real)>): (r: seq<int>)
    ensures |r| == |entries| && forall i :: 0 <= i < |entries| ==> r[i] == entries[i].0
  {
    seq(|entries|, i requires 0 <= i < |entries| => entries[i].0)
  }

  /** The best `k` entries (Python's `[:k]`), highest score first. */
  function TopEntries(entries: seq<(int, real)>, k: int): seq<(int, real)> {
    PySliceTo(Sort(entries, HigherScore), k)
  }

  /**
   * The top-k cut returns distinct artifacts with non-increasing scores, at
   * most `k` of them (all of them when fewer), each one of the candidates, and
   * no candidate it leaves out scores higher than one it keeps.
   */
  lemma TopEntriesSpec(entries: seq<(int, real)>, k: int)
    requires DistinctBy(entries, Key)
    ensures var top := TopEntries(entries, k);
      && DistinctBy(top, Key)
      && (0 <= k ==> |top| == if k < |entries| then k else |entries|)
      && (forall i, j :: 0 <= i < j < |top| ==> top[i].1 >= top[j].1)
      && (forall e :: e in top ==> e in entries)
      && (forall e, t :: e in entries && e !in top && t in top ==> e.1 <= t.1)
  {
    TopEntriesShape(entries, k);
    TopEntriesOutrank(entries, k);
  }

  lemma TopEntriesShape(entries: seq<(int, real)>, k: int)
    requires DistinctBy(entries, Key)
    ensures var top := TopEntries(entries, k);
      && DistinctBy(top, Key)
      && (0 <= k ==> |top| == if k < |entries| then k else |entries|)
      && (forall i, j :: 0 <= i < j < |top| ==> top[i].1 >= top[j].1)
      && (forall e :: e in top ==> e in entries)
  {
    var sorted := Sort(entries, HigherScore);
    var top := TopEntries(entries, k);
    SortSorted(entries, HigherScore);
    SortKeepsDistinct(entries, HigherScore, Key);
    assert top == sorted[..|top|];
    forall e | e in top ensures e in entries {
      assert e in multiset(sorted);
    }
  }

  lemma TopEntriesOutrank(entries: seq<(int, real)>, k: int)
    ensures var top := TopEntries(entries, k);
      forall e, t :: e in entries && e !in top && t in top ==> e.1 <= t.1
  {
    var sorted := Sort(entries, HigherScore);
    var top := TopEntries(entries, k);
    SortSorted(entries, HigherScore);
    assert top == sorted[..|top|];
    forall e, t | e in entries && e !in top && t in top ensures e.1 <= t.1 {
      assert e in multiset(sorted);
      var a :| 0 <= a < |sorted| && sorted[a] == e;
      var b :| 0 <= b < |top| && top[b] == t;
      assert sorted[b] == t;
    }
  }

  /**
   * What `keyword_retrieve` and `embedding_retrieve` return once the
   * similarities are known: nothing for an empty (stripped) query or an empty
   * corpus, otherwise the ids of the best `k` artifacts by aggregated score.
   */
  function RankedIds(query: string, chunks: seq<Chunk>, sims: seq<real>, ranked: seq<int>, k: int): seq<int>
    requires |sims| == |chunks| && ValidRanking(ranked, |sims|)
  {
    if Strip(query) == [] || chunks == [] then []
    else Ids(TopEntries(Aggregate(ArtifactIds(chunks), sims, ranked[..TopN(ranked)]), k))
  }

  /** The shared tail of both rankers: aggregate the top 200 chunks, then cut to `k`. */
  method RankArtifacts(query: string, chunks: seq<Chunk>, sims: seq<real>, ranked: seq<int>, k: int)
    returns (ids: seq<int>)
    requires |sims| == |chunks| && ValidRanking(ranked, |sims|)
    ensures ids == RankedIds(query, chunks, sims, ranked, k)
  {
    var q := Strip(query);
    if q == [] {
      return [];
    }
    if chunks == [] {
      return [];
    }
    var scores := AggregateMax(ArtifactIds(chunks), sims, ranked);
    ids := Ids(TopEntries(scores, k));
  }

  lemma {:induction false} LookupIn(entries: seq<(int, real)>, aid: int)
    requires Lookup(entries, aid).Some?
    ensures (aid, Lookup(entries, aid).value) in entries
  {
    if entries[0].0 != aid {
      LookupIn(entries[1..], aid);
    }
  }

  /**
   * What a ranker promises of `ids`: distinct artifact ids, at most `k`, each
   * with a chunk among `positions`, ordered by non-increasing best chunk
   * score, and no visited artifact left out scores higher than one kept.
   */
  ghost predicate RanksWell(ids: seq<int>, artifactOf: seq<int>, sims: seq<real>, positions: seq<int>, k: int)
    requires |sims| == |artifactOf| && ValidRanking(positions, |sims|)
  {
    && (forall i, j :: 0 <= i < j < |ids| ==> ids[i] != ids[j])
    && (0 <= k ==> |ids| <= k)
    && (forall i :: 0 <= i < |ids| ==> Visits(artifactOf, positions, ids[i]))
    && (forall i, j :: 0 <= i < j < |ids| ==>
          BestScore(artifactOf, sims, positions, ids[i]) >= BestScore(artifactOf, sims, positions, ids[j]))
    && (forall aid, i :: Visits(artifactOf, positions, aid) && aid !in ids && 0 <= i < |ids| ==>
          BestScore(artifactOf, sims, positions, aid) <= BestScore(artifactOf, sims, positions, ids[i]))
  }

  /**
   * The cut is as long as it can be: when it holds fewer than `k` ids, every
   * visited artifact is among them.
   */
  ghost predicate CutIsFull(ids: seq<int>, artifactOf: seq<int>, positions: seq<int>, k: int)
    requires ValidRanking(positions, |artifactOf|)
  {
    0 <= k && |ids| < k ==> forall aid :: Visits(artifactOf, positions, aid) ==> aid in ids
  }

  /**
   * The ranker's output: nothing for a blank query or an empty corpus, and
   * otherwise ids that rank well over the first 200 ranked chunk positions and
   * fill the cut.
   */
  lemma RankedOutputSpec(query: string, chunks: seq<Chunk>, sims: seq<real>, ranked: seq<int>, k: int)
    requires |sims| == |chunks| && ValidRanking(ranked, |sims|)
    ensures Strip(query) == [] || chunks == [] ==> RankedIds(query, chunks, sims, ranked, k) == []
    ensures RanksWell(RankedIds(query, chunks, sims, ranked, k), ArtifactIds(chunks), sims, ranked[..TopN(ranked)], k)
    ensures Strip(query) != [] && chunks != [] ==>
      CutIsFull(RankedIds(query, chunks, sims, ranked, k), ArtifactIds(chunks), ranked[..TopN(ranked)], k)
  {
    var artifactOf := ArtifactIds(chunks);
    var positions := ranked[..TopN(ranked)];
    assert ValidRanking(positions, |sims|);
    var ids := RankedIds(query, chunks, sims, ranked, k);
    if Strip(query) != [] && chunks != [] {
      assert ids == Ids(TopEntries(Aggregate(artifactOf, sims, positions), k));
      RankedTopSpec(artifactOf, sims, positions, k);
    } else {
      assert ids == [];
    }
  }

  /** The ranker never returns an artifact twice. */
  lemma RankedDistinct(query: string, chunks: seq<Chunk>, sims: seq<real>, ranked: seq<int>, k: int)
    requires |sims| == |chunks| && ValidRanking(ranked, |sims|)
    ensures NoDup(RankedIds(query, chunks, sims, ranked, k))
  {
    var ids := RankedIds(query, chunks, sims, ranked, k);
    var positions := ranked[..TopN(ranked)];
    RankedOutputSpec(query, chunks, sims, ranked, k);
    assert ValidRanking(positions, |sims|);
    RanksWellDistinct(ids, ArtifactIds(chunks), sims, positions, k);
  }

  lemma RanksWellDistinct(ids: seq<int>, artifactOf: seq<int>, sims: seq<real>, positions: seq<int>, k: int)
    requires |sims| == |artifactOf| && ValidRanking(positions, |sims|)
    requires RanksWell(ids, artifactOf, sims, positions, k)
    ensures NoDup(ids)
  {
  }

  /** The ids of the top-k cut of the aggregate rank well, for any chunk-to-artifact map. */
  lemma RankedTopSpec(artifactOf: seq<int>, sims: seq<real>, positions: seq<int>, k: int)
    requires |sims| == |artifactOf| && ValidRanking(positions, |sims|)
    ensures RanksWell(Ids(TopEntries(Aggregate(artifactOf, sims, positions), k)), artifactOf, sims, positions, k)
    ensures CutIsFull(Ids(TopEntries(Aggregate(artifactOf, sims, positions), k)), artifactOf, positions, k)
  {
    var agg := Aggregate(artifactOf, sims, positions);
    var top := TopEntries(agg, k);
    var ids := Ids(top);
    AggregateIsMax(artifactOf, sims, positions, 0);
    TopEntriesSpec(agg, k);
    forall i | 0 <= i < |top|
      ensures Visits(artifactOf, positions, ids[i])
      ensures BestScore(artifactOf, sims, positions, ids[i]) == top[i].1
    {
      TopEntryIsBest(artifactOf, sims, positions, k, i);
    }
    forall aid, i | Visits(artifactOf, positions, aid) && aid !in ids && 0 <= i < |ids|
      ensures BestScore(artifactOf, sims, positions, aid) <= BestScore(artifactOf, sims, positions, ids[i])
    {
      LeftOutScoresLower(artifactOf, sims, positions, k, aid, i);
    }
    forall aid | Visits(artifactOf, positions, aid) && aid !in ids && 0 <= k
      ensures |ids| == k
    {
      LeftOutMeansFull(artifactOf, sims, positions, k, aid);
    }
  }

  /** Each kept entry is a visited artifact with its best chunk score. */
  lemma TopEntryIsBest(artifactOf: seq<int>, sims: seq<real>, positions: seq<int>, k: int, i: nat)
    requires |sims| == |artifactOf| && ValidRanking(positions, |sims|)
    requires i < |TopEntries(Aggregate(artifactOf, sims, positions), k)|
    ensures var top := TopEntries(Aggregate(artifactOf, sims, positions), k);
      Visits(artifactOf, positions, top[i].0) && BestScore(artifactOf, sims, positions, top[i].0) == top[i].1
  {
    var agg := Aggregate(artifactOf, sims, positions);
    var top := TopEntries(agg, k);
    AggregateIsMax(artifactOf, sims, positions, 0);
    TopEntriesSpec(agg, k);
    assert top[i] in agg;
    var a :| 0 <= a < |agg| && agg[a] == top[i];
    LookupFound(agg, a);
    AggregateIsMax(artifactOf, sims, positions, top[i].0);
  }

  /** A visited artifact left out of the cut scores no higher than any kept entry. */
  lemma LeftOutScoresLower(artifactOf: seq<int>, sims: seq<real>, positions: seq<int>, k: int, aid: int, i: nat)
    requires |sims| == |artifactOf| && ValidRanking(positions, |sims|)
    requires Visits(artifactOf, positions, aid)
    requires aid !in Ids(TopEntries(Aggregate(artifactOf, sims, positions), k))
    requires i < |TopEntries(Aggregate(artifactOf, sims, positions), k)|
    ensures var top := TopEntries(Aggregate(artifactOf, sims, positions), k);
      BestScore(artifactOf, sims, positions, aid) <= BestScore(artifactOf, sims, positions, top[i].0)
  {
    var agg := Aggregate(artifactOf, sims, positions);
    var top := TopEntries(agg, k);
    var ids := Ids(top);
    AggregateIsMax(artifactOf, sims, positions, aid);
    TopEntriesSpec(agg, k);
    LookupIn(agg, aid);
    var e := (aid, BestScore(artifactOf, sims, positions, aid));
    assert e in agg;
    forall t | 0 <= t < |top| ensures top[t] != e {
      assert ids[t] == top[t].0;
    }
    assert top[i] in top;
    TopEntryIsBest(artifactOf, sims, positions, k, i);
  }

  /** A visited artifact left out of the cut means the cut holds `k` ids. */
  lemma LeftOutMeansFull(artifactOf: seq<int>, sims: seq<real>, positions: seq<int>, k: int, aid: int)
    requires |sims| == |artifactOf| && ValidRanking(positions, |sims|)
    requires Visits(artifactOf, positions, aid) && 0 <= k
    requires aid !in Ids(TopEntries(Aggregate(artifactOf, sims, positions), k))
    ensures |TopEntries(Aggregate(artifactOf, sims, positions), k)| == k
  {
    var agg := Aggregate(artifactOf, sims, positions);
    var top := TopEntries(agg, k);
    var ids := Ids(top);
    AggregateIsMax(artifactOf, sims, positions, aid);
    LookupIn(agg, aid);
    var e := (aid, BestScore(artifactOf, sims, positions, aid));
    forall t | 0 <= t < |top| ensures top[t] != e {
      assert ids[t] == top[t].0;
    }
    TopEntriesFull(agg, k, e);
  }

  /** An entry missing from the top-`k` cut means the cut holds `k` entries. */
  lemma TopEntriesFull(entries: seq<(int, real)>, k: int, e: (int, real))
    requires 0 <= k && e in entries && e !in TopEntries(entries, k)
    ensures |TopEntries(entries, k)| == k
  {
    var sorted := Sort(entries, HigherScore);
    assert e in multiset(sorted);
    assert e in sorted;
  }

  // ---------------------------------------------------------------------
  // Rank fusion
  // ---------------------------------------------------------------------

  /** First occurrences, in order. */
  function Dedup(xs: seq<int>): seq<int> {
    if xs == [] then []
    else
      var d := Dedup(xs[..|xs| - 1]);
      if xs[|xs| - 1] in d then d else d + [xs[|xs| - 1]]
  }

  /** `Dedup` has no duplicates and keeps every element. */
  lemma {:induction false} DedupSpec(xs: seq<int>)
    ensures NoDup(Dedup(xs))
    ensures forall x :: x in Dedup(xs) <==> x in xs
  {
    if xs != [] {
      DedupSpec(xs[..|xs| - 1]);
      assert xs == xs[..|xs| - 1] + [xs[|xs| - 1]];
    }
  }

  /** A list without duplicates is its own deduplication. */
  lemma {:induction false} DedupOfDistinct(xs: seq<int>)
    requires NoDup(xs)
    ensures Dedup(xs) == xs
  {
    if xs != [] {
      var init := xs[..|xs| - 1];
      DedupOfDistinct(init);
      DedupSpec(init);
      assert xs == init + [xs[|xs| - 1]];
    }
  }

  /** Deduplicating a prefix gives a prefix of the deduplicated whole. */
  lemma {:induction false} DedupPrefix(xs: seq<int>, i: nat)
    requires i <= |xs|
    ensures Dedup(xs[..i]) <= Dedup(xs)
    decreases |xs| - i
  {
    if i < |xs| {
      DedupPrefix(xs[..|xs| - 1], i);
      assert xs[..|xs| - 1][..i] == xs[..i];
    } else {
      assert xs[..i] == xs;
    }
  }

  /** Appending one element to the input appends it to the deduplication unless it was already there. */
  lemma DedupSnoc(xs: seq<int>, x: int)
    ensures Dedup(xs + [x]) == if x in Dedup(xs) then Dedup(xs) else Dedup(xs) + [x]
  {
    assert (xs + [x])[..|xs|] == xs;
  }

  /** One step of the fusion loop over `xs`, as `DedupSnoc` on the prefix read so far. */
  lemma DedupStep(xs: seq<int>, i: nat)
    requires i < |xs|
    ensures Dedup(xs[..i + 1]) == if xs[i] in Dedup(xs[..i]) then Dedup(xs[..i]) else Dedup(xs[..i]) + [xs[i]]
  {
    assert xs[..i + 1] == xs[..i] + [xs[i]];
    DedupSnoc(xs[..i], xs[i]);
  }

  /** The fused list for `k`: a non-positive `k` still lets one element through. */
  function Fused(kw: seq<int>, em: seq<int>, k: int): seq<int> {
    var d := Dedup(kw + em);
    var m := if k < 1 then 1 else k;
    if |d| <= m then d else d[..m]
  }

  /** `hybrid_retrieve`'s loop over `kw + em` with its `seen` set and early break. */
  method HybridFuse(kw: seq<int>, em: seq<int>, k: int) returns (out: seq<int>)
    ensures out == Fused(kw, em, k)
  {
    var xs := kw + em;
    var m := if k < 1 then 1 else k;
    var seen: set<int> := {};
    out := [];
    var i := 0;
    while i < |xs|
      invariant 0 <= i <= |xs|
      invariant out == Dedup(xs[..i])
      invariant seen == set x | x in out
      invariant |out| < m
    {
      var aid := xs[i];
      DedupStep(xs, i);
      if aid !in seen {
        out := out + [aid];
        seen := seen + {aid};
      }
      if |out| >= k {
        DedupPrefix(xs, i + 1);
        return;
      }
      i := i + 1;
    }
    assert xs[..i] == xs;
  }

  /**
   * Fusion output has no duplicates, draws only from the two inputs, keeps
   * lexical order first (the deduplicated lexical list leads whenever it fits),
   * and for `k >= 1` has length `min(k, distinct inputs)`.
   */
  lemma FusedSpec(kw: seq<int>, em: seq<int>, k: int)
    ensures var out := Fused(kw, em, k);
      && NoDup(out)
      && (forall x :: x in out ==> x in kw || x in em)
      && out <= Dedup(kw + em)
      && (k >= 1 ==> |out| == if |Dedup(kw + em)| < k then |Dedup(kw + em)| else k)
      && (|Dedup(kw)| <= k ==> Dedup(kw) <= out)
      && (k >= 1 && |Dedup(kw + em)| <= k ==> forall x :: x in kw || x in em ==> x in out)
  {
    var xs := kw + em;
    DedupSpec(xs);
    DedupPrefix(xs, |kw|);
    assert xs[..|kw|] == kw;
    var d := Dedup(xs);
    var out := Fused(kw, em, k);
    forall x | x in out ensures x in kw || x in em {
      var i :| 0 <= i < |out| && out[i] == x;
      assert d[i] == x;
      assert x in xs;
    }
  }

  /** Fusing two empty lists gives nothing; for `k <= 0` a non-empty input still yields one id. */
  lemma FusedEdgeCases(kw: seq<int>, em: seq<int>, k: int)
    ensures Fused([], [], k) == []
    ensures k <= 0 && kw + em != [] ==> |Fused(kw, em, k)| == 1
  {
    var none: seq<int> := [];
    assert none + none == none;
    if kw + em != [] {
      var xs := kw + em;
      DedupPrefix(xs, 1);
      assert xs[..1][..0] == [];
      assert Dedup(xs[..1]) == [xs[0]];
    }
  }

  /** `[3, 1, 2]` fused with `[2, 5, 1]` at k = 3 gives `[3, 1, 2]`. */
  lemma FusedExample()
    ensures Fused([3, 1, 2], [2, 5, 1], 3) == [3, 1, 2]
  {
    DedupExample();
    assert [3, 1, 2] + [2, 5, 1] == [3, 1, 2, 2, 5, 1];
    assert [3, 1, 2, 5][..3] == [3, 1, 2];
  }

  /** The repeated 2 and 1 of the semantic list are dropped, the new 5 kept. */
  lemma DedupExample()
    ensures Dedup([3, 1, 2, 2, 5, 1]) == [3, 1, 2, 5]
  {
    DedupExampleHead();
    DedupSnoc([3, 1, 2], 2);
    assert [3, 1, 2] + [2] == [3, 1, 2, 2];
    DedupSnoc([3, 1, 2, 2], 5);
    assert [3, 1, 2, 2] + [5] == [3, 1, 2, 2, 5];
    DedupSnoc([3, 1, 2, 2, 5], 1);
    assert [3, 1, 2, 2, 5] + [1] == [3, 1, 2, 2, 5, 1];
  }

  /** Three distinct ids deduplicate to themselves. */
  lemma DedupExampleHead()
    ensures Dedup([3, 1, 2]) == [3, 1, 2]
  {
    DedupSnoc([], 3);
    assert [] + [3] == [3];
    DedupSnoc([3], 1);
    assert [3] + [1] == [3, 1];
    DedupSnoc([3, 1], 2);
    assert [3, 1] + [2] == [3, 1, 2];
  }

  // ---------------------------------------------------------------------
  // The embedding model cache
  // ---------------------------------------------------------------------

  datatype CacheState<M> = Unloaded | Loaded(model: M) | Failed

  /** One `_get_model()` call: the new state and the result; `outcome` is what loading would give. */
  function Step<M>(st: CacheState<M>, outcome: Option<M>): (CacheState<M>, Option<M>) {
    match st
    case Loaded(m) => (st, Some(m))
    case Failed => (st, None)
    case Unloaded =>
      match outcome
      case Some(m) => (Loaded(m), Some(m))
      case None => (Failed, None)
  }

  /** The results of successive calls, the i-th load attempt (if any) giving `outcomes[i]`. */
  function Results<M>(st: CacheState<M>, outcomes: seq<Option<M>>): (r: seq<Option<M>>)
    ensures |r| == |outcomes|
    decreases outcomes
  {
    if outcomes == [] then []
    else
      var (next, res) := Step(st, outcomes[0]);
      [res] + Results(next, outcomes[1..])
  }

  /** How many of those calls try to load the model. */
  function LoadAttempts<M>(st: CacheState<M>, outcomes: seq<Option<M>>): nat
    decreases outcomes
  {
    if outcomes == [] then 0
    else (if st.Unloaded? then 1 else 0) + LoadAttempts(Step(st, outcomes[0]).0, outcomes[1..])
  }

  /** After a failed load every later call returns `None`, whatever loading would now give. */
  lemma {:induction false} FailureIsPermanent<M>(outcomes: seq<Option<M>>)
    ensures forall i :: 0 <= i < |outcomes| ==> Results(Failed, outcomes)[i] == None
    ensures LoadAttempts(Failed, outcomes) == 0
  {
    if outcomes != [] {
      FailureIsPermanent(outcomes[1..]);
    }
  }

  /** Once loaded, every later call returns that same model and none reloads it. */
  lemma {:induction false} LoadedIsStable<M>(m: M, outcomes: seq<Option<M>>)
    ensures forall i :: 0 <= i < |outcomes| ==> Results(Loaded(m), outcomes)[i] == Some(m)
    ensures LoadAttempts(Loaded(m), outcomes) == 0
  {
    if outcomes != [] {
      LoadedIsStable(m, outcomes[1..]);
    }
  }

  /** From a fresh process the model is loaded at most once, and every call agrees with the first. */
  lemma LoadAtMostOnce<M>(outcomes: seq<Option<M>>)
    requires outcomes != []
    ensures LoadAttempts(Unloaded, outcomes) == 1
    ensures forall i :: 0 <= i < |outcomes| ==> Results(Unloaded, outcomes)[i] == outcomes[0]
  {
    var rest := outcomes[1..];
    match outcomes[0]
    case Some(m) => LoadedIsStable(m, rest);
    case None => FailureIsPermanent(rest);
  }

  /** The module globals `_model` and `_model_load_failed`. */
  class ModelCache<M> {
    var model: Option<M>
    var loadFailed: bool

    function State(): CacheState<M>
      reads this
    {
      if model.Some? then Loaded(model.value) else if loadFailed then Failed else Unloaded
    }

    constructor ()
      ensures State() == Unloaded
    {
      model := None;
      loadFailed := false;
    }

    /** `_get_model()`; `outcome` is what constructing the model would give, `None` for an exception. */
    method GetModel(outcome: Option<M>) returns (r: Option<M>)
      modifies this
      ensures (State(), r) == Step(old(State()), outcome)
    {
      if model.Some? {
        return model;
      }
      if loadFailed {
        return None;
      }
      match outcome
      case Some(m) =>
        model := Some(m);
        return model;
      case None =>
        loadFailed := true;
        return None;
    }
  }

  /** `keyword_retrieve` with the TF-IDF similarities and their ranking given. */
  method KeywordRetrieve(controls: seq<Control>, checklist: seq<ChecklistItem>, chunks: seq<Chunk>,
                         controlId: int, sims: seq<real>, ranked: seq<int>, k: int) returns (ids: seq<int>)
    requires |sims| == |chunks| && ValidRanking(ranked, |sims|)
    ensures ids == RankedIds(ControlQueryText(controls, checklist, controlId), chunks, sims, ranked, k)
  {
    ids := RankArtifacts(ControlQueryText(controls, checklist, controlId), chunks, sims, ranked, k);
  }

  /** `embedding_retrieve`: nothing when the model is unavailable, else the same ranking over embedding similarities. */
  method EmbeddingRetrieve<M>(cache: ModelCache<M>, outcome: Option<M>,
                              controls: seq<Control>, checklist: seq<ChecklistItem>, chunks: seq<Chunk>,
                              controlId: int, sims: seq<real>, ranked: seq<int>, k: int) returns (ids: seq<int>)
    requires |sims| == |chunks| && ValidRanking(ranked, |sims|)
    modifies cache
    ensures cache.State() == Step(old(cache.State()), outcome).0
    ensures ids == if Step(old(cache.State()), outcome).1.None? then []
                   else RankedIds(ControlQueryText(controls, checklist, controlId), chunks, sims, ranked, k)
  {
    var model := cache.GetModel(outcome);
    if model.None? {
      return [];
    }
    ids := RankArtifacts(ControlQueryText(controls, checklist, controlId), chunks, sims, ranked, k);
  }

  /** Both rankers are asked for this many artifacts before fusion. */
  const CandidatePool := 50

  /** What `hybrid_retrieve` returns from cache state `st`, given the similarities of both rankers. */
  function HybridIds<M>(st: CacheState<M>, outcome: Option<M>, query: string, chunks: seq<Chunk>,
                        kwSims: seq<real>, kwRanked: seq<int>, emSims: seq<real>, emRanked: seq<int>, k: int): seq<int>
    requires |kwSims| == |chunks| && ValidRanking(kwRanked, |kwSims|)
    requires |emSims| == |chunks| && ValidRanking(emRanked, |emSims|)
  {
    Fused(RankedIds(query, chunks, kwSims, kwRanked, CandidatePool),
          if Step(st, outcome).1.None? then [] else RankedIds(query, chunks, emSims, emRanked, CandidatePool),
          k)
  }

  /**
   * With no embedding model the hybrid result is the lexical ranking alone, cut
   * to `k`: the fallback the model cache is there for.
   */
  lemma HybridWithoutModel<M>(st: CacheState<M>, outcome: Option<M>, query: string, chunks: seq<Chunk>,
                              kwSims: seq<real>, kwRanked: seq<int>, emSims: seq<real>, emRanked: seq<int>, k: int)
    requires |kwSims| == |chunks| && ValidRanking(kwRanked, |kwSims|)
    requires |emSims| == |chunks| && ValidRanking(emRanked, |emSims|)
    requires Step(st, outcome).1.None? && k >= 1
    ensures var kw := RankedIds(query, chunks, kwSims, kwRanked, CandidatePool);
      HybridIds(st, outcome, query, chunks, kwSims, kwRanked, emSims, emRanked, k) ==
        if |kw| <= k then kw else kw[..k]
  {
    var kw := RankedIds(query, chunks, kwSims, kwRanked, CandidatePool);
    RankedDistinct(query, chunks, kwSims, kwRanked, CandidatePool);
    assert kw + [] == kw;
    DedupOfDistinct(kw);
  }

  /** `hybrid_retrieve`: the lexical and the semantic top 50, fused and cut to `k`. */
  method HybridRetrieve<M>(cache: ModelCache<M>, outcome: Option<M>,
                           controls: seq<Control>, checklist: seq<ChecklistItem>, chunks: seq<Chunk>, controlId: int,
                           kwSims: seq<real>, kwRanked: seq<int>, emSims: seq<real>, emRanked: seq<int>, k: int)
    returns (ids: seq<int>)
    requires |kwSims| == |chunks| && ValidRanking(kwRanked, |kwSims|)
    requires |emSims| == |chunks| && ValidRanking(emRanked, |emSims|)
    modifies cache
    ensures cache.State() == Step(old(cache.State()), outcome).0
    ensures ids == HybridIds(old(cache.State()), outcome, ControlQueryText(controls, checklist, controlId), chunks,
                             kwSims, kwRanked, emSims, emRanked, k)
  {
    var kw := KeywordRetrieve(controls, checklist, chunks, controlId, kwSims, kwRanked, CandidatePool);
    var em := EmbeddingRetrieve(cache, outcome, controls, checklist, chunks, controlId, emSims, emRanked, CandidatePool);
    ids := HybridFuse(kw, em, k);
  }
}
