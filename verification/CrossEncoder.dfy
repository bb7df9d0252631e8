/** Batched reranking (extensions/vectorize/hf/crossencoder.go:132-191). The model is a given function
    on batches that scores each document on its own. */
module CrossEncoder {
  import opened Common

  datatype Ranked = Ranked(index: nat, document: string, score: real)

  datatype Error = EmptyQuery | ModelError(message: string)

  /** Scores a batch, or fails. */
  type Model = (string, seq<string>) -> Result<seq<real>, string>

  /** A batch that succeeds has one score per document, which depends on the query and the document alone. */
  ghost predicate PerPair(model: Model, score: (string, string) -> real) {
    forall query, docs: seq<string> | model(query, docs).Ok? ::
      && |model(query, docs).value| == |docs|
      && forall i | 0 <= i < |docs| :: model(query, docs).value[i] == score(query, docs[i])
  }

  /** Every document with its index and score, in input order. */
  function AllRanked(score: (string, string) -> real, query: string, docs: seq<string>): (all: seq<Ranked>)
    ensures |all| == |docs|
  {
    seq(|docs|, i requires 0 <= i < |docs| => Ranked(i, docs[i], score(query, docs[i])))
  }

  /** a goes before b: by descending score, then in input order. */
  predicate RanksBefore(a: Ranked, b: Ranked) {
    a.score > b.score || (a.score == b.score && a.index < b.index)
  }

  predicate InOrder(s: seq<Ranked>) {
    forall i, j | 0 <= i < j < |s| :: RanksBefore(s[i], s[j])
  }

  /** Stable insertion from the back: x goes behind the last element that does not score less. */
  function Insert(x: Ranked, s: seq<Ranked>): (t: seq<Ranked>)
    ensures |t| == |s| + 1
  {
    if s == [] || !(x.score > s[|s| - 1].score) then s + [x]
    else Insert(x, s[..|s| - 1]) + [s[|s| - 1]]
  }

  function StableSorted(s: seq<Ranked>): (t: seq<Ranked>)
    ensures |t| == |s|
  {
    if s == [] then [] else Insert(s[|s| - 1], StableSorted(s[..|s| - 1]))
  }

  /** sort.SliceStable with the descending score as its order, as an insertion sort. */
  method StableSort(s: seq<Ranked>) returns (t: seq<Ranked>)
    ensures t == StableSorted(s)
  {
    hide Insert;
    t := [];
    for i := 0 to |s|
      invariant t == StableSorted(s[..i])
    {
      assert s[..i + 1][..i] == s[..i];
      var x := s[i];
      var j := |t|;
      assert t[..j] == t && Insert(x, t) == Insert(x, t) + t[j..];
      while j > 0 && x.score > t[j - 1].score
        invariant 0 <= j <= |t|
        invariant Insert(x, t) == Insert(x, t[..j]) + t[j..]
      {
        InsertStep(x, t, j);
        j := j - 1;
      }
      InsertEnd(x, t[..j]);
      t := t[..j] + [x] + t[j..];
    }
    assert s[..|s|] == s;
  }

  lemma InsertEnd(x: Ranked, t: seq<Ranked>)
    requires t == [] || !(x.score > t[|t| - 1].score)
    ensures Insert(x, t) == t + [x]
  {
  }

  lemma InsertStep(x: Ranked, t: seq<Ranked>, j: nat)
    requires 0 < j <= |t| && x.score > t[j - 1].score
    ensures Insert(x, t[..j]) + t[j..] == Insert(x, t[..j - 1]) + t[j - 1..]
  {
    assert t[..j][..j - 1] == t[..j - 1];
    assert [t[j - 1]] + t[j..] == t[j - 1..];
  }

  /** start is a multiple of the batch size. */
  ghost predicate StartsBatch(start: nat, batchSize: nat) {
    exists k: nat :: k * batchSize == start
  }

  /** The batches cut the documents after every batchSize of them. */
  ghost predicate IsBatch(start: nat, end: nat, n: nat, batchSize: nat) {
    StartsBatch(start, batchSize) && end == if start + batchSize > n then n else start + batchSize
  }

  lemma NextBatch(start: nat, batchSize: nat)
    requires StartsBatch(start, batchSize)
    ensures StartsBatch(start + batchSize, batchSize)
  {
    var k: nat :| k * batchSize == start;
    assert (k + 1) * batchSize == start + batchSize;
  }

  /** The model scores every batch that starts before upTo. */
  ghost predicate BatchesSucceed(model: Model, query: string, docs: seq<string>, batchSize: nat, upTo: nat) {
    forall start: nat, end: nat | start < upTo && start < end <= |docs| && IsBatch(start, end, |docs|, batchSize) ::
      model(query, docs[start..end]).Ok?
  }

  lemma SameStart(a: nat, b: nat, batchSize: nat)
    requires StartsBatch(a, batchSize) && StartsBatch(b, batchSize) && a <= b < a + batchSize
    ensures a == b
  {
    var k: nat :| k * batchSize == a;
    var l: nat :| l * batchSize == b;
    if l > k {
      Further(k, l, batchSize);
      assert false;
    } else if l < k {
      Further(l, k, batchSize);
    }
  }

  lemma {:induction false} Further(k: nat, l: nat, batchSize: nat)
    requires k < l
    ensures k * batchSize + batchSize <= l * batchSize
  {
    assert (l - 1) * batchSize + batchSize == l * batchSize;
    if k < l - 1 {
      Further(k, l - 1, batchSize);
    }
  }

  lemma SucceedNext(model: Model, query: string, docs: seq<string>, batchSize: nat, start: nat)
    requires BatchesSucceed(model, query, docs, batchSize, start) && start < |docs| && StartsBatch(start, batchSize)
    requires model(query, docs[start..if start + batchSize > |docs| then |docs| else start + batchSize]).Ok?
    ensures BatchesSucceed(model, query, docs, batchSize, start + batchSize)
  {
    hide StartsBatch;
    forall s: nat, e: nat | s < start + batchSize && s < e <= |docs| && IsBatch(s, e, |docs|, batchSize)
      ensures model(query, docs[s..e]).Ok?
    {
      if s >= start {
        SameStart(start, s, batchSize);
      }
    }
  }

  method Rank(model: Model, ghost score: (string, string) -> real, query: string, docs: seq<string>,
              batchSize: nat, limit: nat)
    returns (r: Result<seq<Ranked>, Error>)
    requires PerPair(model, score) && batchSize > 0
    ensures query == "" ==> r == Err(EmptyQuery)
    ensures query != "" && docs == [] ==> r == Ok([])
    ensures query != "" && r.Err? ==>
              exists start, end | 0 <= start < end <= |docs| && IsBatch(start, end, |docs|, batchSize) ::
                model(query, docs[start..end]).Err? && r.error == ModelError(model(query, docs[start..end]).error)
    ensures r.Ok? ==> query != "" && r.value == Top(score, query, docs, limit)
    ensures r.Ok? ==> IsRanking(score, query, docs, limit, r.value)
    ensures r.Ok? ==> BatchesSucceed(model, query, docs, batchSize, |docs|)
  {
    if query == "" {
      return Err(EmptyQuery);
    }
    if |docs| == 0 {
      assert AllRanked(score, query, docs) == [];
      TopRanks(score, query, docs, limit);
      return Ok([]);
    }
    var results: seq<Ranked> := [];
    var start := 0;
    assert 0 * batchSize == 0;
    while start < |docs|
      invariant 0 <= start && StartsBatch(start, batchSize)
      invariant results == AllRanked(score, query, docs)[..if start < |docs| then start else |docs|]
      invariant BatchesSucceed(model, query, docs, batchSize, start)
      decreases |docs| - start
    {
      var end := start + batchSize;
      if end > |docs| {
        end := |docs|;
      }
      var batch := docs[start..end];
      match model(query, batch)
      case Err(error) =>
        return Err(ModelError(error));
      case Ok(scores) =>
        for i := 0 to |scores|
          invariant results == AllRanked(score, query, docs)[..start + i]
        {
          assert batch[i] == docs[start + i];
          results := results + [Ranked(start + i, docs[start + i], scores[i])];
        }
        NextBatch(start, batchSize);
        SucceedNext(model, query, docs, batchSize, start);
        start := start + batchSize;
    }
    assert results == AllRanked(score, query, docs);
    results := StableSort(results);
    if |results| > limit {
      results := results[..limit];
    }
    TopRanks(score, query, docs, limit);
    r := Ok(results);
  }

  /** The first limit entries of the stable descending sort. */
  function Top(score: (string, string) -> real, query: string, docs: seq<string>, limit: nat): seq<Ranked> {
    var sorted := StableSorted(AllRanked(score, query, docs));
    if |sorted| > limit then sorted[..limit] else sorted
  }

  lemma {:induction false} InsertMembers(x: Ranked, s: seq<Ranked>)
    ensures multiset(Insert(x, s)) == multiset(s) + multiset{x}
  {
    if s == [] || !(x.score > s[|s| - 1].score) {
    } else {
      InsertMembers(x, s[..|s| - 1]);
      assert s == s[..|s| - 1] + [s[|s| - 1]];
    }
  }

  /** Inserting an element of a later index keeps the order. */
  lemma {:induction false} InsertOrdered(x: Ranked, s: seq<Ranked>)
    requires InOrder(s)
    requires forall i | 0 <= i < |s| :: s[i].index < x.index
    ensures InOrder(Insert(x, s))
  {
    if s == [] || !(x.score > s[|s| - 1].score) {
      forall i | 0 <= i < |s| ensures RanksBefore(s[i], x) {
        if i < |s| - 1 {
          assert RanksBefore(s[i], s[|s| - 1]);
        }
      }
    } else {
      var front, last := s[..|s| - 1], s[|s| - 1];
      InsertOrdered(x, front);
      InsertMembers(x, front);
      var t := Insert(x, front);
      forall i | 0 <= i < |t| ensures RanksBefore(t[i], last) {
        assert t[i] in multiset(t);
        assert t[i] == x || t[i] in front;
      }
    }
  }

  lemma {:induction false} SortedMembers(s: seq<Ranked>)
    ensures multiset(StableSorted(s)) == multiset(s)
  {
    if s == [] {
    } else {
      SortedMembers(s[..|s| - 1]);
      InsertMembers(s[|s| - 1], StableSorted(s[..|s| - 1]));
      assert s == s[..|s| - 1] + [s[|s| - 1]];
    }
  }

  predicate Ascending(s: seq<Ranked>) {
    forall i, j | 0 <= i < j < |s| :: s[i].index < s[j].index
  }

  lemma {:induction false} SortedOrdered(s: seq<Ranked>)
    requires Ascending(s)
    ensures InOrder(StableSorted(s))
  {
    if s == [] {
    } else {
      var front := s[..|s| - 1];
      SortedOrdered(front);
      SortedMembers(front);
      var t := StableSorted(front);
      forall i | 0 <= i < |t| ensures t[i].index < s[|s| - 1].index {
        assert t[i] in multiset(t);
        assert t[i] in front;
      }
      InsertOrdered(s[|s| - 1], t);
    }
  }

  lemma {:induction false} SameMembers(s: seq<Ranked>, t: seq<Ranked>)
    requires multiset(s) == multiset(t)
    ensures forall x :: x in s <==> x in t
  {
    forall x ensures x in s <==> x in t {
      assert x in multiset(s) <==> x in multiset(t);
    }
  }

  /** What Rank returns: entries of documents, each with its own text and score, by descending score and in
      input order among equals; and no document that is left out belongs before a kept one. */
  ghost predicate IsRanking(score: (string, string) -> real, query: string, docs: seq<string>, limit: nat,
                            top: seq<Ranked>) {
    && |top| == (if |docs| > limit then limit else |docs|)
    && (forall i | 0 <= i < |top| ::
          && top[i].index < |docs| && top[i].document == docs[top[i].index]
          && top[i].score == score(query, docs[top[i].index]))
    && (forall i, j | 0 <= i < j < |top| :: BelongsBefore(score, query, docs, top[i].index, top[j].index))
    && (forall d, k | 0 <= d < |docs| && 0 <= k < |top| && (forall i | 0 <= i < |top| :: top[i].index != d) ::
          BelongsBefore(score, query, docs, top[k].index, d))
  }

  /** Document a belongs before document b: it has the greater score, or the same one and comes earlier. */
  predicate BelongsBefore(score: (string, string) -> real, query: string, docs: seq<string>, a: nat, b: nat) {
    && a < |docs| && b < |docs|
    && score(query, docs[a]) >= score(query, docs[b])
    && (score(query, docs[a]) == score(query, docs[b]) ==> a < b)
  }

  lemma TopRanks(score: (string, string) -> real, query: string, docs: seq<string>, limit: nat)
    ensures IsRanking(score, query, docs, limit, Top(score, query, docs, limit))
  {
    hide StableSorted, BelongsBefore, RanksBefore;
    var all, top := AllRanked(score, query, docs), Top(score, query, docs, limit);
    var sorted := StableSorted(all);
    SortedMembers(all);
    SortedOrdered(all);
    SameMembers(sorted, all);
    forall i | 0 <= i < |top|
      ensures top[i].index < |docs| && top[i] == all[top[i].index]
    {
      assert sorted[i] in all;
    }
    forall i, j | 0 <= i < j < |top| ensures BelongsBefore(score, query, docs, top[i].index, top[j].index) {
      RankedBelongs(score, query, docs, top[i], top[j]);
    }
    forall d, k | 0 <= d < |docs| && 0 <= k < |top| && (forall i | 0 <= i < |top| :: top[i].index != d)
      ensures BelongsBefore(score, query, docs, top[k].index, d)
    {
      LeftBehind(score, query, docs, limit, d, k);
      RankedBelongs(score, query, docs, top[k], all[d]);
    }
  }

  lemma RankedBelongs(score: (string, string) -> real, query: string, docs: seq<string>, a: Ranked, b: Ranked)
    requires a.index < |docs| && a.score == score(query, docs[a.index])
    requires b.index < |docs| && b.score == score(query, docs[b.index])
    requires RanksBefore(a, b)
    ensures BelongsBefore(score, query, docs, a.index, b.index)
  {
  }

  /** No document that is left out ranks before a kept one. */
  lemma DroppedRankBelow(score: (string, string) -> real, query: string, docs: seq<string>, limit: nat, d: nat, k: nat)
    requires d < |docs| && k < |Top(score, query, docs, limit)|
    requires forall i | 0 <= i < |Top(score, query, docs, limit)| :: Top(score, query, docs, limit)[i].index != d
    ensures var e := Top(score, query, docs, limit)[k];
            && e.index < |docs| && score(query, docs[d]) <= score(query, docs[e.index])
            && (score(query, docs[d]) == score(query, docs[e.index]) ==> e.index < d)
  {
    TopRanks(score, query, docs, limit);
    var top := Top(score, query, docs, limit);
    hide Top;
    assert BelongsBefore(score, query, docs, top[k].index, d);
  }

  lemma LeftBehind(score: (string, string) -> real, query: string, docs: seq<string>, limit: nat, d: nat, k: nat)
    requires d < |docs| && k < |Top(score, query, docs, limit)|
    requires forall i | 0 <= i < |Top(score, query, docs, limit)| :: Top(score, query, docs, limit)[i].index != d
    ensures RanksBefore(Top(score, query, docs, limit)[k], AllRanked(score, query, docs)[d])
  {
    hide StableSorted, RanksBefore;
    var all := AllRanked(score, query, docs);
    var sorted := StableSorted(all);
    SortedMembers(all);
    SortedOrdered(all);
    SameMembers(sorted, all);
    assert all[d] in all;
    var i :| 0 <= i < |sorted| && sorted[i] == all[d];
    var top := Top(score, query, docs, limit);
    assert i >= |top|;
  }

  lemma {:induction false} TailMembers(s: seq<Ranked>)
    requires s != []
    ensures multiset(s[1..]) == multiset(s) - multiset{s[0]}
  {
    assert s == [s[0]] + s[1..];
  }

  lemma {:induction false} FirstRanksFirst(s: seq<Ranked>, x: Ranked)
    requires InOrder(s) && x in s
    ensures x == s[0] || RanksBefore(s[0], x)
  {
  }

  lemma {:induction false} TailOrdered(s: seq<Ranked>)
    requires InOrder(s) && s != []
    ensures InOrder(s[1..])
  {
  }

  lemma {:induction false} SameFirst(s: seq<Ranked>, t: seq<Ranked>)
    requires InOrder(s) && InOrder(t) && multiset(s) == multiset(t) && s != [] && t != []
    ensures s[0] == t[0]
  {
    SameMembers(s, t);
    assert s[0] in s && t[0] in t;
    FirstRanksFirst(t, s[0]);
    FirstRanksFirst(s, t[0]);
  }

  /** These properties determine the ranking: two lists in order with the same members are the same. */
  lemma {:induction false} RankingUnique(s: seq<Ranked>, t: seq<Ranked>)
    requires InOrder(s) && InOrder(t) && multiset(s) == multiset(t)
    ensures s == t
  {
    assert |s| == |multiset(s)| == |multiset(t)| == |t|;
    if s == [] {
    } else {
      SameFirst(s, t);
      TailMembers(s);
      TailMembers(t);
      TailOrdered(s);
      TailOrdered(t);
      hide InOrder;
      RankingUnique(s[1..], t[1..]);
      assert s == [s[0]] + s[1..] && t == [t[0]] + t[1..];
    }
  }
}
