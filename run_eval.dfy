/**
 * The evaluation scorer: gold question rows and predicted answers are read
 * from JSON-lines files (blank lines skipped), indexed by question id, and
 * every gold question counts as a hit when its expected substring occurs,
 * case-insensitively, in the predicted answer.  Parsing the JSON itself is
 * outside the model: rows arrive already decoded.
 */
module RunEval {
  import opened Common
  import opened Strings

  /** A gold row: the question id and the substring a right answer holds. */
  datatype GoldRow = GoldRow(id: string, expectedSubstring: string)

  /** A prediction row; `answer` is None when the row has no "answer" key. */
  datatype PredRow = PredRow(id: string, answer: Option<string>)

  // ---------------------------------------------------------------------
  // load_jsonl: only lines with something besides whitespace are parsed
  // ---------------------------------------------------------------------

  /** The lines `load_jsonl` hands to the JSON decoder, in file order. */
  function NonBlankLines(lines: seq<string>): (r: seq<string>)
    ensures |r| <= |lines|
    ensures forall k :: 0 <= k < |r| ==> !IsBlank(r[k])
    ensures forall k :: 0 <= k < |lines| && !IsBlank(lines[k]) ==> lines[k] in r
    decreases |lines|
  {
    if |lines| == 0 then []
    else
      var rest := NonBlankLines(lines[1..]);
      assert forall k :: 1 <= k < |lines| ==> lines[k] == lines[1..][k - 1];
      if IsBlank(lines[0]) then rest else [lines[0]] + rest
  }

  /** Filtering keeps the order: the lines kept from a + b are those kept
      from a, then those kept from b. */
  lemma {:induction false} NonBlankLinesAppend(a: seq<string>, b: seq<string>)
    ensures NonBlankLines(a + b) == NonBlankLines(a) + NonBlankLines(b)
    decreases |a|
  {
    if |a| > 0 {
      assert (a + b)[0] == a[0];
      assert (a + b)[1..] == a[1..] + b;
      NonBlankLinesAppend(a[1..], b);
      if !IsBlank(a[0]) {
        assert ([a[0]] + NonBlankLines(a[1..])) + NonBlankLines(b) == [a[0]] + (NonBlankLines(a[1..]) + NonBlankLines(b));
      }
    } else {
      assert a + b == b;
    }
  }

  /** The line loop of `load_jsonl`. */
  method LoadLines(lines: seq<string>) returns (kept: seq<string>)
    ensures kept == NonBlankLines(lines)
  {
    kept := [];
    for i := 0 to |lines|
      invariant kept == NonBlankLines(lines[..i])
    {
      assert lines[..i + 1] == lines[..i] + [lines[i]];
      NonBlankLinesAppend(lines[..i], [lines[i]]);
      if !IsBlank(lines[i]) {
        kept := kept + [lines[i]];
      }
    }
    assert lines[..|lines|] == lines;
  }

  // ---------------------------------------------------------------------
  // Dictionaries keyed by question id
  // ---------------------------------------------------------------------

  /** A Python dictionary: its keys in insertion order, and its entries. */
  datatype Dict<V> = Dict(keys: seq<string>, entries: map<string, V>)

  ghost predicate ValidDict<V>(d: Dict<V>) {
    && (forall i, j :: 0 <= i < j < |d.keys| ==> d.keys[i] != d.keys[j])
    && (forall k :: k in d.entries <==> k in d.keys)
  }

  /** `d[k] = v`: a new key goes to the end, an existing one keeps its place. */
  function Put<V>(d: Dict<V>, k: string, v: V): Dict<V> {
    Dict(if k in d.entries then d.keys else d.keys + [k], d.entries[k := v])
  }

  /** `{ids[i]: rows[i] for i in range(len(rows))}`. */
  function IndexRows<V>(ids: seq<string>, rows: seq<V>): Dict<V>
    requires |ids| == |rows|
    decreases |ids|
  {
    if |ids| == 0 then Dict([], map[])
    else Put(IndexRows(ids[..|ids| - 1], rows[..|rows| - 1]), ids[|ids| - 1], rows[|rows| - 1])
  }

  /** The index is a well-formed dictionary whose keys are exactly the ids. */
  lemma {:induction false} IndexRowsValid<V>(ids: seq<string>, rows: seq<V>)
    requires |ids| == |rows|
    ensures ValidDict(IndexRows(ids, rows))
    ensures forall k :: k in IndexRows(ids, rows).entries <==> k in ids
    decreases |ids|
  {
    if |ids| > 0 {
      var n := |ids| - 1;
      IndexRowsValid(ids[..n], rows[..n]);
      assert forall k :: k in ids <==> k in ids[..n] || k == ids[n];
    }
  }

  /** The dictionary comprehension's loop. */
  method BuildIndex<V>(ids: seq<string>, rows: seq<V>) returns (d: Dict<V>)
    requires |ids| == |rows|
    ensures d == IndexRows(ids, rows)
  {
    d := Dict([], map[]);
    for i := 0 to |ids|
      invariant d == IndexRows(ids[..i], rows[..i])
    {
      assert ids[..i + 1][..i] == ids[..i] && rows[..i + 1][..i] == rows[..i];
      d := Put(d, ids[i], rows[i]);
    }
    assert ids[..|ids|] == ids && rows[..|rows|] == rows;
  }

  /** The row stored under a key is the last row with that id. */
  lemma {:induction false} LastRowWins<V>(ids: seq<string>, rows: seq<V>, i: nat)
    requires |ids| == |rows| && i < |ids|
    requires forall j :: i < j < |ids| ==> ids[j] != ids[i]
    ensures ids[i] in IndexRows(ids, rows).entries && IndexRows(ids, rows).entries[ids[i]] == rows[i]
    decreases |ids|
  {
    var n := |ids| - 1;
    var prev := IndexRows(ids[..n], rows[..n]);
    assert IndexRows(ids, rows).entries == prev.entries[ids[n] := rows[n]];
    if i < n {
      assert ids[..n][i] == ids[i] && rows[..n][i] == rows[i];
      LastRowWins(ids[..n], rows[..n], i);
    }
  }

  /** Position of the first occurrence of k. */
  function FirstIndex(ids: seq<string>, k: string): (r: nat)
    requires k in ids
    ensures r < |ids| && ids[r] == k
    ensures forall j :: 0 <= j < r ==> ids[j] != k
    decreases |ids|
  {
    if ids[0] == k then 0 else 1 + FirstIndex(ids[1..], k)
  }

  /** Every key occurs in ids, and the keys come in the order of their
      first occurrences there. */
  predicate FirstOccurrenceOrder(ids: seq<string>, keys: seq<string>) {
    && (forall a :: 0 <= a < |keys| ==> keys[a] in ids)
    && forall a, b :: 0 <= a < b < |keys| ==> FirstIndex(ids, keys[a]) < FirstIndex(ids, keys[b])
  }

  /** Keys are kept in the order of their first occurrence. */
  lemma {:induction false} KeysInFirstOccurrenceOrder<V>(ids: seq<string>, rows: seq<V>)
    requires |ids| == |rows|
    ensures FirstOccurrenceOrder(ids, IndexRows(ids, rows).keys)
    decreases |ids|
  {
    if |ids| > 0 {
      var n := |ids| - 1;
      KeysInFirstOccurrenceOrder(ids[..n], rows[..n]);
      KeysOrderStep(ids, rows);
    }
  }

  /** One more row keeps the keys in first-occurrence order. */
  lemma KeysOrderStep<V>(ids: seq<string>, rows: seq<V>)
    requires |ids| == |rows| && |ids| > 0
    requires FirstOccurrenceOrder(ids[..|ids| - 1], IndexRows(ids[..|ids| - 1], rows[..|rows| - 1]).keys)
    ensures FirstOccurrenceOrder(ids, IndexRows(ids, rows).keys)
  {
    KeysStep(ids, rows);
    FirstOccurrenceExtend(ids, IndexRows(ids[..|ids| - 1], rows[..|rows| - 1]).keys, IndexRows(ids, rows).keys);
  }

  /** The keys after one more row: unchanged for a known id, extended by a
      new one. */
  lemma KeysStep<V>(ids: seq<string>, rows: seq<V>)
    requires |ids| == |rows| && |ids| > 0
    ensures var n := |ids| - 1;
      var prev := IndexRows(ids[..n], rows[..n]).keys;
      IndexRows(ids, rows).keys == if ids[n] in ids[..n] then prev else prev + [ids[n]]
  {
    IndexRowsValid(ids[..|ids| - 1], rows[..|rows| - 1]);
  }

  /** Appending an id keeps the order of the keys seen so far, and a new id
      goes after all of them. */
  lemma FirstOccurrenceExtend(ids: seq<string>, keys: seq<string>, next: seq<string>)
    requires |ids| > 0 && FirstOccurrenceOrder(ids[..|ids| - 1], keys)
    requires next == if ids[|ids| - 1] in ids[..|ids| - 1] then keys else keys + [ids[|ids| - 1]]
    ensures FirstOccurrenceOrder(ids, next)
  {
    var n := |ids| - 1;
    forall a | 0 <= a < |keys| ensures keys[a] in ids && FirstIndex(ids, keys[a]) == FirstIndex(ids[..n], keys[a]) {
      FirstIndexPrefix(ids, n, keys[a]);
    }
    if ids[n] !in ids[..n] {
      FirstIndexNew(ids, n);
      var ext := keys + [ids[n]];
      assert forall a :: 0 <= a < |keys| ==> ext[a] == keys[a];
    }
  }

  /** The first occurrence of a key of a prefix is where it is in the prefix. */
  lemma FirstIndexPrefix(ids: seq<string>, n: nat, k: string)
    requires n <= |ids| && k in ids[..n]
    ensures FirstIndex(ids, k) == FirstIndex(ids[..n], k)
  {
    var f := FirstIndex(ids[..n], k);
    assert ids[f] == k;
    assert forall j :: 0 <= j < f ==> ids[j] == ids[..n][j];
  }

  /** A key first seen at the last position is first found there. */
  lemma FirstIndexNew(ids: seq<string>, n: nat)
    requires n + 1 == |ids| && ids[n] !in ids[..n]
    ensures FirstIndex(ids, ids[n]) == n
  {
  }

  /** Distinct keys are as many as the distinct ids. */
  lemma {:induction false} DistinctKeysCount(keys: seq<string>)
    requires forall i, j :: 0 <= i < j < |keys| ==> keys[i] != keys[j]
    ensures |set k | k in keys| == |keys|
    decreases |keys|
  {
    if |keys| > 0 {
      var n := |keys| - 1;
      DistinctKeysCount(keys[..n]);
      assert (set k | k in keys) == (set k | k in keys[..n]) + {keys[n]};
      assert keys[n] !in keys[..n];
    }
  }

  // ---------------------------------------------------------------------
  // Scoring
  // ---------------------------------------------------------------------

  /** `preds.get(qid, {}).get("answer", "")`. */
  function Answer(preds: Dict<PredRow>, qid: string): string {
    if qid in preds.entries then OrElse(preds.entries[qid].answer, "") else ""
  }

  /** The expected substring, lowercased, occurs in the lowercased answer. */
  predicate IsHit(gold: Dict<GoldRow>, preds: Dict<PredRow>, qid: string)
    requires qid in gold.entries
  {
    Contains(Lower(Answer(preds, qid)), Lower(gold.entries[qid].expectedSubstring))
  }

  predicate AllGold(gold: Dict<GoldRow>, qids: seq<string>) {
    forall k :: 0 <= k < |qids| ==> qids[k] in gold.entries
  }

  /** How many of the questions are hits. */
  function HitCount(gold: Dict<GoldRow>, preds: Dict<PredRow>, qids: seq<string>): nat
    requires AllGold(gold, qids)
    decreases |qids|
  {
    if |qids| == 0 then 0
    else HitCount(gold, preds, qids[..|qids| - 1]) + (if IsHit(gold, preds, qids[|qids| - 1]) then 1 else 0)
  }

  /** The questions that are not hits, in their order. */
  function Missed(gold: Dict<GoldRow>, preds: Dict<PredRow>, qids: seq<string>): seq<string>
    requires AllGold(gold, qids)
    decreases |qids|
  {
    if |qids| == 0 then []
    else
      var last := qids[|qids| - 1];
      Missed(gold, preds, qids[..|qids| - 1]) + (if IsHit(gold, preds, last) then [] else [last])
  }

  /** Every question is a hit or missed, never both. */
  lemma {:induction false} HitsPlusMissed(gold: Dict<GoldRow>, preds: Dict<PredRow>, qids: seq<string>)
    requires AllGold(gold, qids)
    ensures HitCount(gold, preds, qids) + |Missed(gold, preds, qids)| == |qids|
    decreases |qids|
  {
    if |qids| > 0 {
      HitsPlusMissed(gold, preds, qids[..|qids| - 1]);
    }
  }

  /** A question is missed exactly when it is one of the questions and not
      a hit. */
  lemma {:induction false} MissedExactly(gold: Dict<GoldRow>, preds: Dict<PredRow>, qids: seq<string>, q: string)
    requires AllGold(gold, qids)
    ensures q in Missed(gold, preds, qids) <==> q in qids && !IsHit(gold, preds, q)
    decreases |qids|
  {
    if |qids| > 0 {
      var n := |qids| - 1;
      MissedExactly(gold, preds, qids[..n], q);
      assert qids == qids[..n] + [qids[n]];
    }
  }

  /** The missed questions keep the order the questions have: when the
      questions come in order of first occurrence in ids, so do the missed
      ones (which makes them distinct). */
  lemma {:induction false} MissedKeepsOrder(gold: Dict<GoldRow>, preds: Dict<PredRow>, qids: seq<string>, ids: seq<string>)
    requires AllGold(gold, qids) && FirstOccurrenceOrder(ids, qids)
    ensures FirstOccurrenceOrder(ids, Missed(gold, preds, qids))
    decreases |qids|
  {
    if |qids| > 0 {
      var n := |qids| - 1;
      OrderPrefix(ids, qids);
      MissedKeepsOrder(gold, preds, qids[..n], ids);
      MissedBefore(gold, preds, qids, ids);
    }
  }

  /** A prefix of keys in first-occurrence order is in that order too. */
  lemma OrderPrefix(ids: seq<string>, keys: seq<string>)
    requires |keys| > 0 && FirstOccurrenceOrder(ids, keys)
    ensures FirstOccurrenceOrder(ids, keys[..|keys| - 1])
  {
    var init := keys[..|keys| - 1];
    assert forall a :: 0 <= a < |init| ==> init[a] == keys[a];
  }

  /** The closing step: the questions missed before the last one all come
      before it in ids, so missing the last one keeps the order. */
  lemma MissedBefore(gold: Dict<GoldRow>, preds: Dict<PredRow>, qids: seq<string>, ids: seq<string>)
    requires AllGold(gold, qids) && |qids| > 0 && FirstOccurrenceOrder(ids, qids)
    requires FirstOccurrenceOrder(ids, Missed(gold, preds, qids[..|qids| - 1]))
    ensures FirstOccurrenceOrder(ids, Missed(gold, preds, qids))
  {
    var n := |qids| - 1;
    var init := qids[..n];
    var m := Missed(gold, preds, init);
    if !IsHit(gold, preds, qids[n]) {
      forall a | 0 <= a < |m| ensures FirstIndex(ids, m[a]) < FirstIndex(ids, qids[n]) {
        MissedExactly(gold, preds, init, m[a]);
        var b :| 0 <= b < n && init[b] == m[a];
        assert qids[b] == m[a];
      }
      AppendLater(ids, m, qids[n]);
    }
  }

  /** Appending a key found after all the others keeps the order. */
  lemma AppendLater(ids: seq<string>, keys: seq<string>, k: string)
    requires FirstOccurrenceOrder(ids, keys) && k in ids
    requires forall a :: 0 <= a < |keys| ==> FirstIndex(ids, keys[a]) < FirstIndex(ids, k)
    ensures FirstOccurrenceOrder(ids, keys + [k])
  {
    var ext := keys + [k];
    assert forall a :: 0 <= a < |keys| ==> ext[a] == keys[a];
  }

  /** Scoring one more question. */
  lemma ScoreStep(gold: Dict<GoldRow>, preds: Dict<PredRow>, qids: seq<string>, i: nat)
    requires AllGold(gold, qids) && i < |qids|
    ensures AllGold(gold, qids[..i]) && AllGold(gold, qids[..i + 1])
    ensures var q := qids[i];
      var hit := Contains(Lower(OrElse((if q in preds.entries then preds.entries[q] else PredRow(q, None)).answer, "")),
                          Lower(gold.entries[q].expectedSubstring));
      && HitCount(gold, preds, qids[..i + 1]) == HitCount(gold, preds, qids[..i]) + (if hit then 1 else 0)
      && Missed(gold, preds, qids[..i + 1]) == Missed(gold, preds, qids[..i]) + (if hit then [] else [q])
  {
    assert qids[..i + 1][..i] == qids[..i];
  }

  /** The scoring loop of `main` over the gold questions in their order. */
  method Score(gold: Dict<GoldRow>, preds: Dict<PredRow>) returns (hits: nat, missing: seq<string>)
    requires AllGold(gold, gold.keys)
    ensures hits == HitCount(gold, preds, gold.keys)
    ensures missing == Missed(gold, preds, gold.keys)
    ensures hits + |missing| == |gold.keys|
  {
    hits, missing := 0, [];
    for i := 0 to |gold.keys|
      invariant hits == HitCount(gold, preds, gold.keys[..i])
      invariant missing == Missed(gold, preds, gold.keys[..i])
    {
      ScoreStep(gold, preds, gold.keys, i);
      var qid := gold.keys[i];
      var g := gold.entries[qid];
      var p := if qid in preds.entries then preds.entries[qid] else PredRow(qid, None);
      var ans := Lower(OrElse(p.answer, ""));
      if Contains(ans, Lower(g.expectedSubstring)) {
        hits := hits + 1;
      } else {
        missing := missing + [qid];
      }
    }
    assert gold.keys[..|gold.keys|] == gold.keys;
    HitsPlusMissed(gold, preds, gold.keys);
  }

  /** The ids of the rows, in row order: the keys the comprehension uses. */
  function Ids<R>(rows: seq<R>, id: R -> string): (r: seq<string>)
    ensures |r| == |rows| && forall i :: 0 <= i < |rows| ==> r[i] == id(rows[i])
  {
    seq(|rows|, i requires 0 <= i < |rows| => id(rows[i]))
  }

  function GoldId(row: GoldRow): string { row.id }

  function PredId(row: PredRow): string { row.id }

  /** `main` without the file reading and printing: index both row lists
      by id and score.  Every distinct gold id is counted once, as a hit or
      as missed; a gold id is missed exactly when the expected substring of
      its last gold row is not in the answer of its last prediction row. */
  method Evaluate(goldRows: seq<GoldRow>, predRows: seq<PredRow>)
    returns (hits: nat, total: nat, missing: seq<string>)
    ensures total == |set r | r in goldRows :: r.id|
    ensures hits + |missing| == total
    ensures goldRows == [] ==> hits == 0 && missing == []
    ensures var gold := IndexRows(Ids(goldRows, GoldId), goldRows);
      var preds := IndexRows(Ids(predRows, PredId), predRows);
      && AllGold(gold, gold.keys)
      && hits == HitCount(gold, preds, gold.keys)
      && missing == Missed(gold, preds, gold.keys)
      && forall q :: q in missing <==> q in gold.entries && !IsHit(gold, preds, q)
    ensures FirstOccurrenceOrder(Ids(goldRows, GoldId), missing)
    ensures forall i, j :: 0 <= i < j < |missing| ==> missing[i] != missing[j]
  {
    var gold := BuildIndex(Ids(goldRows, GoldId), goldRows);
    var preds := BuildIndex(Ids(predRows, PredId), predRows);
    GoldKeys(goldRows);
    total := |gold.keys|;
    hits, missing := Score(gold, preds);
    MissedMembers(gold, preds);
    MissedKeepsOrder(gold, preds, gold.keys, Ids(goldRows, GoldId));
    OrderedDistinct(Ids(goldRows, GoldId), missing);
  }

  /** Over a whole dictionary: a key is missed exactly when it is in the
      dictionary and not a hit. */
  lemma MissedMembers(gold: Dict<GoldRow>, preds: Dict<PredRow>)
    requires ValidDict(gold)
    ensures && AllGold(gold, gold.keys)
      && forall q :: q in Missed(gold, preds, gold.keys) <==> q in gold.entries && !IsHit(gold, preds, q)
  {
    forall q ensures q in Missed(gold, preds, gold.keys) <==> q in gold.entries && !IsHit(gold, preds, q) {
      MissedExactly(gold, preds, gold.keys, q);
    }
  }

  /** Keys in first-occurrence order are distinct. */
  lemma OrderedDistinct(ids: seq<string>, keys: seq<string>)
    requires FirstOccurrenceOrder(ids, keys)
    ensures forall i, j :: 0 <= i < j < |keys| ==> keys[i] != keys[j]
  {
  }

  /** The gold dictionary holds every gold id once, as many keys as there
      are distinct gold ids, in the order of their first occurrence. */
  lemma GoldKeys(goldRows: seq<GoldRow>)
    ensures var gold := IndexRows(Ids(goldRows, GoldId), goldRows);
      && ValidDict(gold)
      && AllGold(gold, gold.keys)
      && |gold.keys| == |set r | r in goldRows :: r.id|
      && FirstOccurrenceOrder(Ids(goldRows, GoldId), gold.keys)
  {
    var ids := Ids(goldRows, GoldId);
    var gold := IndexRows(ids, goldRows);
    IndexRowsValid(ids, goldRows);
    KeysInFirstOccurrenceOrder(ids, goldRows);
    DistinctKeysCount(gold.keys);
    assert (set k | k in gold.keys) == (set r | r in goldRows :: r.id) by {
      forall k | k in gold.keys ensures k in (set r | r in goldRows :: r.id) {
        var i :| 0 <= i < |goldRows| && ids[i] == k;
        assert goldRows[i] in goldRows;
      }
      forall r | r in goldRows ensures r.id in gold.keys {
        var i :| 0 <= i < |goldRows| && goldRows[i] == r;
        assert ids[i] == r.id;
      }
    }
  }
}
