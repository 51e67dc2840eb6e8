/** The top-N selection loop of the post-processing script (scripts/PostProcess.py).
    The script reads one JSON results file per learning trial and keeps the `numScore`
    best distinct parameter sets. Reading and parsing the files is left to the caller:
    each file arrives here as the two lookups the loop performs on it. */
module PostProcess {

  datatype Option<T> = None | Some(value: T)

  /** What one results file yields: `obj['nodeVals']['paramID']` and
      `obj['nodeVals']['maxScore']`, each `None` when its lookup raises KeyError. */
  datatype FileRecord = FileRecord(paramID: Option<string>, maxScore: Option<real>)

  /** The script's accumulators between two files. */
  datatype Tally = Tally(
    scoreSum: real,          // sum of every file's score so far
    fileSum: nat,            // number of files whose score counted
    maxScore: real,          // threshold a score must exceed to enter the list
    topScore: seq<real>,     // best scores, best first
    topParam: seq<nat>,      // file index of each entry of topScore
    paramList: seq<string>)  // parameter IDs already counted

  /** The accumulators before the first file. */
  function Initial(): Tally {
    Tally(0.0, 0, 0.0, [], [], [])
  }

  // ---------------------------------------------------------------------------
  // Python list operations used by the loop

  /** `xs.insert(j, x)` for an index within the list. */
  function InsertAt<T>(xs: seq<T>, j: nat, x: T): (r: seq<T>)
    requires j <= |xs|
    ensures |r| == |xs| + 1 && r[j] == x
    ensures forall k :: 0 <= k < j ==> r[k] == xs[k]
    ensures forall k :: j < k < |r| ==> r[k] == xs[k - 1]
  {
    xs[..j] + [x] + xs[j..]
  }

  /** `xs.pop(k)` for an index within the list (the popped value is discarded). */
  function PopAt<T>(xs: seq<T>, k: nat): (r: seq<T>)
    requires k < |xs|
    ensures |r| == |xs| - 1
    ensures forall i :: 0 <= i < k ==> r[i] == xs[i]
    ensures forall i :: k <= i < |r| ==> r[i] == xs[i + 1]
  {
    xs[..k] + xs[k + 1..]
  }

  predicate NoDuplicates<T(==)>(xs: seq<T>) {
    forall a, b :: 0 <= a < b < |xs| ==> xs[a] != xs[b]
  }

  function Sum(s: seq<real>): real {
    if s == [] then 0.0 else Sum(s[..|s| - 1]) + s[|s| - 1]
  }

  // ---------------------------------------------------------------------------
  // Scores of the files, as the deduplication assigns them

  /** The score of one file given the IDs counted before it, and the IDs counted
      after it: a new ID with a score counts; a repeated ID or a missing key scores 0. */
  function Classify(paramList: seq<string>, rec: FileRecord): (r: (real, seq<string>))
    ensures r.1 != paramList <==>
      rec.paramID.Some? && rec.paramID.value !in paramList && rec.maxScore.Some?
    ensures r.1 != paramList ==> r.1 == paramList + [rec.paramID.value] && r.0 == rec.maxScore.value
    ensures r.1 == paramList ==> r.0 == 0.0
    ensures NoDuplicates(paramList) ==> NoDuplicates(r.1)
  {
    match rec.paramID
    case None => (0.0, paramList)
    case Some(id) =>
      if id in paramList then (0.0, paramList)
      else
        match rec.maxScore
        case None => (0.0, paramList)
        case Some(v) => (v, paramList + [id])
  }

  /** The score of every file in order, and the IDs counted after all of them. */
  function Scan(records: seq<FileRecord>): (r: (seq<real>, seq<string>))
    ensures |r.0| == |records|
    ensures NoDuplicates(r.1)
  {
    if records == [] then ([], [])
    else
      var prev := Scan(records[..|records| - 1]);
      var (s, ids) := Classify(prev.1, records[|records| - 1]);
      (prev.0 + [s], ids)
  }

  /** A parameter ID scores at most once: every file with a non-zero score carries an
      ID that no earlier file carried together with a score. */
  lemma {:induction false} ScanCountsFirstOnly(records: seq<FileRecord>, i: nat, j: nat)
    requires j < i < |records|
    requires Scan(records).0[i] != 0.0
    ensures records[i].paramID.Some? && records[i].maxScore.Some?
    ensures Scan(records).0[i] == records[i].maxScore.value
    ensures records[j].paramID == records[i].paramID ==> records[j].maxScore.None?
  {
    var n := |records| - 1;
    var prefix := records[..n];
    assert prefix[..|prefix|] == prefix;
    if i < n {
      assert records[..n][i] == records[i] && records[..n][j] == records[j];
      ScanCountsFirstOnly(prefix, i, j);
    } else {
      var ids := Scan(prefix).1;
      assert records[j] == prefix[j];
      if records[j].paramID.Some? && records[j].maxScore.Some? {
        ScanCounts(prefix, j);
      }
    }
  }

  /** A file with an ID and a score leaves its ID among the counted ones. */
  lemma {:induction false} ScanCounts(records: seq<FileRecord>, j: nat)
    requires j < |records|
    requires records[j].paramID.Some? && records[j].maxScore.Some?
    ensures records[j].paramID.value in Scan(records).1
  {
    var n := |records| - 1;
    var prefix := records[..n];
    if j < n {
      assert prefix[j] == records[j];
      ScanCounts(prefix, j);
    }
  }

  // ---------------------------------------------------------------------------
  // What the list means: the best files, ranked

  /** File `a` ranks strictly ahead of file `b`: a higher score, or the same score
      and read earlier. */
  ghost predicate RanksAhead(scores: seq<real>, a: nat, b: nat) {
    a < |scores| && b < |scores| &&
    (scores[a] > scores[b] || (scores[a] == scores[b] && a < b))
  }

  /** `topScore[k]` is the score of file `topParam[k]`. */
  ghost predicate Parallel(scores: seq<real>, topScore: seq<real>, topParam: seq<nat>) {
    |topScore| == |topParam| &&
    forall k :: 0 <= k < |topParam| ==> topParam[k] < |scores| && topScore[k] == scores[topParam[k]]
  }

  /** The listed files appear in rank order (so no file appears twice). */
  ghost predicate Ranked(scores: seq<real>, topParam: seq<nat>) {
    forall k, l :: 0 <= k < l < |topParam| ==> RanksAhead(scores, topParam[k], topParam[l])
  }

  /** Every listed score is positive and at least the threshold; a positive threshold
      has been raised to the last of a full list. */
  ghost predicate Threshold(topScore: seq<real>, maxScore: real, numScore: nat) {
    0.0 <= maxScore &&
    (forall k :: 0 <= k < |topScore| ==> 0.0 < topScore[k] && maxScore <= topScore[k]) &&
    (maxScore == 0.0 || (1 <= numScore && |topScore| == numScore && maxScore == topScore[numScore - 1]))
  }

  /** A positive-scoring file that is not listed is below the threshold, the list is
      full, and every listed file ranks ahead of it. */
  ghost predicate Complete(scores: seq<real>, topParam: seq<nat>, maxScore: real, numScore: nat) {
    forall i :: 0 <= i < |scores| && 0.0 < scores[i] && i !in topParam ==>
      scores[i] <= maxScore && |topParam| == numScore &&
      forall k :: 0 <= k < |topParam| ==> RanksAhead(scores, topParam[k], i)
  }

  /** The threshold is raised only once a positive-scoring file has been dropped from
      the list: a list that has just filled without overflowing leaves it at 0. */
  ghost predicate Dropped(scores: seq<real>, topParam: seq<nat>, maxScore: real) {
    maxScore != 0.0 ==> exists i :: 0 <= i < |scores| && 0.0 < scores[i] && i !in topParam
  }

  /** The list holds the best `numScore` files of `scores`, ranked, with the threshold
      the script keeps beside it. */
  ghost predicate TopInv(topScore: seq<real>, topParam: seq<nat>, maxScore: real, numScore: nat, scores: seq<real>) {
    1 <= numScore &&
    |topScore| <= numScore &&
    Parallel(scores, topScore, topParam) &&
    Ranked(scores, topParam) &&
    Threshold(topScore, maxScore, numScore) &&
    Complete(scores, topParam, maxScore, numScore) &&
    Dropped(scores, topParam, maxScore)
  }

  /** The threshold the script prints is 0 exactly when every positive-scoring file is
      listed. */
  lemma ThresholdZeroIff(topScore: seq<real>, topParam: seq<nat>, maxScore: real, numScore: nat, scores: seq<real>)
    requires TopInv(topScore, topParam, maxScore, numScore, scores)
    ensures maxScore == 0.0 <==> forall i :: 0 <= i < |scores| && 0.0 < scores[i] ==> i in topParam
  {
  }

  /** The loop invariant of the script, for the files `scores` already read. */
  ghost predicate Inv(t: Tally, numScore: nat, scores: seq<real>) {
    TopInv(t.topScore, t.topParam, t.maxScore, numScore, scores) &&
    t.scoreSum == Sum(scores) &&
    t.fileSum == |t.paramList| && NoDuplicates(t.paramList)
  }

  lemma InitialInv(numScore: nat)
    requires 1 <= numScore
    ensures Inv(Initial(), numScore, [])
  {
  }

  // ---------------------------------------------------------------------------
  // The loop body

  /** Lines 57-68 of the loop: the score of one file, counting a parameter ID only the
      first time it is seen with a score. */
  method ScoreFile(paramList: seq<string>, fileSum: nat, rec: FileRecord)
    returns (thisScore: real, paramList': seq<string>, fileSum': nat)
    requires fileSum == |paramList| && NoDuplicates(paramList)
    ensures (thisScore, paramList') == Classify(paramList, rec)
    ensures fileSum' == |paramList'| && NoDuplicates(paramList')
    ensures paramList' == paramList || (rec.paramID.Some? && rec.paramID.value !in paramList &&
                                        paramList' == paramList + [rec.paramID.value])
    ensures paramList' == paramList ==> thisScore == 0.0
  {
    paramList', fileSum' := paramList, fileSum;
    match rec.paramID {
      case None =>
        thisScore := 0.0;
      case Some(id) =>
        if id !in paramList {
          match rec.maxScore {
            case None =>
              thisScore := 0.0;  // KeyError before the file is counted
            case Some(v) =>
              thisScore := v;
              fileSum' := fileSum' + 1;
              paramList' := paramList' + [id];
          }
        } else {
          thisScore := 0.0;
        }
    }
  }

  /** Lines 70-85 of the loop: file `i` with score `thisScore`, read after the files
      whose scores are `scores`, enters the ranked list if it beats the threshold. */
  method RankFile(topScore: seq<real>, topParam: seq<nat>, maxScore: real, numScore: nat,
                  i: nat, thisScore: real, ghost scores: seq<real>)
    returns (topScore': seq<real>, topParam': seq<nat>, maxScore': real)
    requires TopInv(topScore, topParam, maxScore, numScore, scores) && i == |scores|
    ensures TopInv(topScore', topParam', maxScore', numScore, scores + [thisScore])
    ensures maxScore <= maxScore'
    ensures thisScore <= maxScore ==>
      topScore' == topScore && topParam' == topParam && maxScore' == maxScore
    ensures maxScore < thisScore && |topScore| < numScore ==>
      |topScore'| == |topScore| + 1 && maxScore' == maxScore && i in topParam'
    ensures maxScore < thisScore && |topScore| == numScore ==> |topScore'| == numScore
  {
    topScore', topParam', maxScore' := topScore, topParam, maxScore;
    if thisScore > maxScore {
      var j := if numScore < |topScore| then numScore else |topScore|;
      // find the insertion point: step left past every entry below the score
      while j > 0
        invariant 0 <= j <= |topScore|
        invariant forall k :: j <= k < |topScore| ==> topScore[k] < thisScore
      {
        if thisScore > topScore[j - 1] {
          j := j - 1;
        } else {
          break;
        }
      }
      PrefixAtLeast(scores, topScore, topParam, thisScore, j);
      InsertParallel(scores, topScore, topParam, thisScore, j);
      InsertRanked(scores, topScore, topParam, thisScore, j);
      InsertComplete(scores, topParam, maxScore, numScore, thisScore, j);
      topScore' := InsertAt(topScore, j, thisScore);
      topParam' := InsertAt(topParam, j, i);
      if |topScore'| > numScore {
        TruncateKeepsInv(scores + [thisScore], topScore', topParam', maxScore, numScore);
        maxScore' := topScore'[numScore - 1];
        topScore' := PopAt(topScore', numScore);
        topParam' := PopAt(topParam', numScore);
      }
    } else {
      SkipKeepsInv(topScore, topParam, maxScore, numScore, scores, thisScore);
    }
  }

  /** One iteration of the loop over files: file `i`, parsed into `rec`, after the
      files whose scores are `scores`. Returns the new accumulators and the file's score. */
  method ProcessFile(t: Tally, numScore: nat, i: nat, rec: FileRecord, ghost scores: seq<real>)
    returns (next: Tally, thisScore: real)
    requires Inv(t, numScore, scores) && i == |scores|
    ensures (thisScore, next.paramList) == Classify(t.paramList, rec)
    ensures next.scoreSum == t.scoreSum + thisScore
    ensures Inv(next, numScore, scores + [thisScore])
    ensures t.maxScore <= next.maxScore
  {
    var paramList, fileSum;
    thisScore, paramList, fileSum := ScoreFile(t.paramList, t.fileSum, rec);
    var topScore, topParam, maxScore := RankFile(t.topScore, t.topParam, t.maxScore, numScore, i, thisScore, scores);
    next := Tally(t.scoreSum + thisScore, fileSum, maxScore, topScore, topParam, paramList);
    assert (scores + [thisScore])[..|scores|] == scores;
  }

  /** The whole loop over the files `records`, starting from the initial accumulators. */
  method ProcessAll(records: seq<FileRecord>, numScore: nat) returns (t: Tally)
    requires 1 <= numScore
    ensures Inv(t, numScore, Scan(records).0)
    ensures t.paramList == Scan(records).1
    ensures t.maxScore == 0.0 <==>
      forall i :: 0 <= i < |records| && 0.0 < Scan(records).0[i] ==> i in t.topParam
  {
    t := Initial();
    ghost var scores: seq<real> := [];
    InitialInv(numScore);
    for i := 0 to |records|
      invariant (scores, t.paramList) == Scan(records[..i])
      invariant Inv(t, numScore, scores)
    {
      var s;
      ghost var before := t.paramList;
      t, s := ProcessFile(t, numScore, i, records[i], scores);
      ScanStep(records, i, scores, before, s, t.paramList);
      scores := scores + [s];
    }
    assert records[..|records|] == records;
    ThresholdZeroIff(t.topScore, t.topParam, t.maxScore, numScore, scores);
  }

  /** One more file extends the scan by its classification. */
  lemma ScanStep(records: seq<FileRecord>, i: nat, scores: seq<real>, ids: seq<string>,
                 s: real, ids': seq<string>)
    requires i < |records| && Scan(records[..i]) == (scores, ids)
    requires (s, ids') == Classify(ids, records[i])
    ensures Scan(records[..i + 1]) == (scores + [s], ids')
  {
    assert records[..i + 1][..i] == records[..i];
  }

  // ---------------------------------------------------------------------------
  // Proof of the loop body

  /** A score at or below the threshold leaves the list as it is. */
  lemma SkipKeepsInv(topScore: seq<real>, topParam: seq<nat>, maxScore: real, numScore: nat,
                     scores: seq<real>, s: real)
    requires TopInv(topScore, topParam, maxScore, numScore, scores)
    requires s <= maxScore
    ensures TopInv(topScore, topParam, maxScore, numScore, scores + [s])
  {
    var n := |scores|;
    var sc := scores + [s];
    forall k, l | 0 <= k < l < |topParam|
      ensures RanksAhead(sc, topParam[k], topParam[l])
    {
      assert RanksAhead(scores, topParam[k], topParam[l]);
    }
    forall i | 0 <= i < |sc| && 0.0 < sc[i] && i !in topParam
      ensures sc[i] <= maxScore && |topParam| == numScore
      ensures forall k :: 0 <= k < |topParam| ==> RanksAhead(sc, topParam[k], i)
    {
      if i < n {
        assert sc[i] == scores[i];
        forall k | 0 <= k < |topParam| ensures RanksAhead(sc, topParam[k], i) {
          assert RanksAhead(scores, topParam[k], i);
        }
      } else {
        forall k | 0 <= k < |topParam| ensures RanksAhead(sc, topParam[k], i) {
          assert topParam[k] < n;
        }
      }
    }
  }

  /** The entries before position `j` are all at least `s`. */
  lemma PrefixAtLeast(scores: seq<real>, topScore: seq<real>, topParam: seq<nat>, s: real, j: nat)
    requires Parallel(scores, topScore, topParam) && Ranked(scores, topParam)
    requires j <= |topScore| && (j == 0 || s <= topScore[j - 1])
    ensures forall k :: 0 <= k < j ==> s <= topScore[k]
  {
    forall k | 0 <= k < j ensures s <= topScore[k] {
      if k < j - 1 {
        assert RanksAhead(scores, topParam[k], topParam[j - 1]);
      }
    }
  }

  /** Inserting file `|scores|` at position `j` keeps the two lists parallel. */
  lemma InsertParallel(scores: seq<real>, topScore: seq<real>, topParam: seq<nat>, s: real, j: nat)
    requires Parallel(scores, topScore, topParam) && j <= |topScore|
    ensures Parallel(scores + [s], InsertAt(topScore, j, s), InsertAt(topParam, j, |scores|))
  {
  }

  /** Inserting file `|scores|` after every entry at least `s` and before every entry
      below `s` keeps the list ranked. */
  lemma InsertRanked(scores: seq<real>, topScore: seq<real>, topParam: seq<nat>, s: real, j: nat)
    requires Parallel(scores, topScore, topParam) && Ranked(scores, topParam)
    requires j <= |topScore|
    requires forall k :: 0 <= k < j ==> s <= topScore[k]
    requires forall k :: j <= k < |topScore| ==> topScore[k] < s
    ensures Ranked(scores + [s], InsertAt(topParam, j, |scores|))
  {
    var sc, tp := scores + [s], InsertAt(topParam, j, |scores|);
    forall k, l | 0 <= k < l < |tp| ensures RanksAhead(sc, tp[k], tp[l]) {
      if l < j {
        assert RanksAhead(scores, topParam[k], topParam[l]);
      } else if l == j {
        assert sc[tp[k]] == topScore[k];
      } else if k == j {
        assert sc[tp[l]] == topScore[l - 1];
      } else if k < j {
        assert RanksAhead(scores, topParam[k], topParam[l - 1]);
      } else {
        assert RanksAhead(scores, topParam[k - 1], topParam[l - 1]);
      }
    }
  }

  /** After the insertion, every unlisted positive file is still at most the threshold
      and ranks behind every listed file, the new one included; the list is then
      one longer than `numScore`. */
  lemma InsertComplete(scores: seq<real>, topParam: seq<nat>, maxScore: real, numScore: nat, s: real, j: nat)
    requires Complete(scores, topParam, maxScore, numScore)
    requires maxScore < s && j <= |topParam|
    ensures Complete(scores + [s], InsertAt(topParam, j, |scores|), maxScore, numScore + 1)
  {
    var n := |scores|;
    var sc, tp := scores + [s], InsertAt(topParam, j, n);
    forall i | 0 <= i < |sc| && 0.0 < sc[i] && i !in tp
      ensures sc[i] <= maxScore && |tp| == numScore + 1
      ensures forall k :: 0 <= k < |tp| ==> RanksAhead(sc, tp[k], i)
    {
      assert i < n && sc[i] == scores[i];
      forall k | 0 <= k < |topParam| ensures topParam[k] != i {
        assert tp[if k < j then k else k + 1] == topParam[k];
      }
      forall k | 0 <= k < |tp| ensures RanksAhead(sc, tp[k], i) {
        if k < j {
          assert RanksAhead(scores, topParam[k], i);
        } else if k > j {
          assert RanksAhead(scores, topParam[k - 1], i);
        }
      }
    }
  }

  /** Popping the entry past `numScore` from a ranked list one too long, and raising
      the threshold to the new last entry, restores the invariant. */
  lemma TruncateKeepsInv(sc: seq<real>, ts: seq<real>, tp: seq<nat>, maxScore: real, numScore: nat)
    requires 1 <= numScore && |ts| == numScore + 1 && 0.0 <= maxScore
    requires Parallel(sc, ts, tp) && Ranked(sc, tp)
    requires forall k :: 0 <= k < |ts| ==> 0.0 < ts[k] && maxScore <= ts[k]
    requires Complete(sc, tp, maxScore, numScore + 1)
    ensures TopInv(PopAt(ts, numScore), PopAt(tp, numScore), ts[numScore - 1], numScore, sc)
    ensures maxScore <= ts[numScore - 1]
  {
    var m := ts[numScore - 1];
    var ts', tp' := PopAt(ts, numScore), PopAt(tp, numScore);
    assert ts' == ts[..numScore] && tp' == tp[..numScore];
    forall k | 0 <= k < numScore ensures m <= ts'[k] {
      if k < numScore - 1 {
        assert RanksAhead(sc, tp[k], tp[numScore - 1]);
      }
    }
    var dropped := tp[numScore];
    forall k | 0 <= k < numScore ensures tp'[k] != dropped {
      assert RanksAhead(sc, tp[k], tp[numScore]);
    }
    forall i | 0 <= i < |sc| && 0.0 < sc[i] && i !in tp'
      ensures sc[i] <= m && forall k :: 0 <= k < numScore ==> RanksAhead(sc, tp'[k], i)
    {
      if i == dropped {
        assert RanksAhead(sc, tp[numScore - 1], tp[numScore]);
        forall k | 0 <= k < numScore ensures RanksAhead(sc, tp'[k], i) {
          assert RanksAhead(sc, tp[k], tp[numScore]);
        }
      } else {
        forall k | 0 <= k < |tp| ensures tp[k] != i {
          if k < numScore {
            assert tp'[k] == tp[k];
          }
        }
      }
    }
  }
}
