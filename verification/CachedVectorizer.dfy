/** The cache-aside vectorizer (extensions/cache/cached_vectorizer.go:25-75). The cache's other users act
    before every read and during every call of the inner vectorizer; reads and writes may fail. */
module CachedVectorizer {
  import opened Common
  import opened Cache

  /** What happens around one Embed: events before the read, whether it fails, events while the inner
      vectorizer works, and whether the write takes effect. */
  datatype Around = Around(before: seq<Event>, fails: bool, during: seq<Event>, landed: bool)

  /** The same for EmbedMany: events before each read, the reads that fail on their own, and the texts
      whose write takes effect. */
  datatype AroundMany = AroundMany(before: seq<seq<Event>>, fails: bool, lost: set<nat>, during: seq<Event>,
                                   landed: set<string>)

  type Inner = string -> Result<Vector, string>
  type InnerMany = seq<string> -> Result<seq<Vector>, string>

  /** An inner vectorizer that, when it succeeds, computes the embedding of the model. */
  ghost predicate Computes(w: World, model: string, inner: Inner) {
    forall text | inner(text).Ok? :: inner(text).value == w.embed(model, text)
  }

  ghost predicate ComputesMany(w: World, model: string, inner: InnerMany) {
    forall texts: seq<string> | inner(texts).Ok? :: inner(texts).value == Embeddings(w, model, texts)
  }

  /** What the inner vectorizer would return for the texts. */
  function Embeddings(w: World, model: string, texts: seq<string>): (vs: seq<Vector>)
    ensures |vs| == |texts|
  {
    seq(|texts|, i requires 0 <= i < |texts| => w.embed(model, texts[i]))
  }

  /** EmbedMany takes an empty embedding for a miss. */
  predicate IsHit(entry: Option<Record>) {
    entry.Some? && |entry.value.embedding| > 0
  }

  /** The positions of the misses, ascending. */
  function Missing(entries: seq<Option<Record>>): (missing: seq<nat>)
    ensures forall k | 0 <= k < |missing| :: missing[k] < |entries| && !IsHit(entries[missing[k]])
    ensures forall j, k | 0 <= j < k < |missing| :: missing[j] < missing[k]
    ensures forall i | 0 <= i < |entries| && !IsHit(entries[i]) :: i in missing
  {
    if entries == [] then []
    else
      var n := |entries| - 1;
      Missing(entries[..n]) + if IsHit(entries[n]) then [] else [n]
  }

  function TextsAt(texts: seq<string>, positions: seq<nat>): (at: seq<string>)
    requires forall k | 0 <= k < |positions| :: positions[k] < |texts|
    ensures |at| == |positions|
  {
    seq(|positions|, k requires 0 <= k < |positions| => texts[positions[k]])
  }

  /** What the lookups give: nothing when they fail as a whole. */
  function Entries(naming: Naming, s: Store, model: string, texts: seq<string>, around: AroundMany)
    : (entries: seq<Option<Record>>)
    requires |around.before| == |texts|
    ensures |entries| == |texts|
  {
    if around.fails then seq(|texts|, _ => None) else Lookups(naming, s, model, texts, around.before, around.lost)
  }

  lemma {:induction false} RunAppend(naming: Naming, s: Store, first: seq<Event>, rest: seq<Event>)
    ensures Run(naming, s, first + rest) == Run(naming, Run(naming, s, first), rest)
    decreases |rest|
  {
    hide Change;
    if rest == [] {
      assert first + rest == first;
    } else {
      RunAppend(naming, s, first, rest[..|rest| - 1]);
      assert (first + rest)[..|first + rest| - 1] == first + rest[..|rest| - 1];
    }
  }

  lemma AppendHonest(w: World, first: seq<Event>, rest: seq<Event>)
    requires AllHonest(w, first) && AllHonest(w, rest)
    ensures AllHonest(w, first + rest)
  {
    hide Honest;
  }

  /** The events of all batches in order. */
  function Flat(batches: seq<seq<Event>>): seq<Event> {
    if batches == [] then [] else Flat(batches[..|batches| - 1]) + batches[|batches| - 1]
  }

  lemma {:induction false} FlatHonest(w: World, batches: seq<seq<Event>>)
    requires AllBatchesHonest(w, batches)
    ensures AllHonest(w, Flat(batches))
    decreases |batches|
  {
    hide AllHonest;
    if batches == [] {
      assert AllHonest(w, []) by {
        NothingHonest(w);
      }
    } else {
      FlatHonest(w, batches[..|batches| - 1]);
      AppendHonest(w, Flat(batches[..|batches| - 1]), batches[|batches| - 1]);
    }
  }

  lemma NothingHonest(w: World)
    ensures AllHonest(w, [])
  {
  }

  lemma {:induction false} RunFlat(naming: Naming, s: Store, batches: seq<seq<Event>>, n: nat)
    requires n <= |batches|
    ensures Run(naming, s, Flat(batches[..n])) == StoreAt(naming, s, batches, n)
    decreases n
  {
    hide Change;
    if n == 0 {
    } else {
      RunFlat(naming, s, batches, n - 1);
      assert batches[..n][..n - 1] == batches[..n - 1];
      RunAppend(naming, s, Flat(batches[..n - 1]), batches[n - 1]);
    }
  }

  /** A record that is found holds the embedding. */
  lemma FoundIsEmbedding(w: World, s: Store, text: string, model: string)
    requires Sound(w, s) && model in w.models && Lookup(w.naming, s, text, model).Some?
    ensures Lookup(w.naming, s, text, model).value.embedding == w.embed(model, text)
  {
  }

  lemma EntriesSound(w: World, s: Store, model: string, texts: seq<string>, around: AroundMany)
    requires Agree(w) && Sound(w, s) && model in w.models
    requires |around.before| == |texts| && AllBatchesHonest(w, around.before)
    ensures var entries := Entries(w.naming, s, model, texts, around);
            forall i | 0 <= i < |texts| && entries[i].Some? :: entries[i].value.embedding == w.embed(model, texts[i])
  {
    hide Agree, Sound, AllBatchesHonest, StoreAt, Lookup;
    var entries := Entries(w.naming, s, model, texts, around);
    forall i | 0 <= i < |texts| && entries[i].Some? ensures entries[i].value.embedding == w.embed(model, texts[i]) {
      StoreAtSound(w, s, around.before, i + 1);
      FoundIsEmbedding(w, StoreAt(w.naming, s, around.before, i + 1), texts[i], model);
    }
  }

  /** EmbedMany asks for exactly the texts for which the lookup failed, found nothing or found an empty embedding. */
  lemma MissingAre(naming: Naming, s: Store, model: string, texts: seq<string>, around: AroundMany, i: nat)
    requires |around.before| == |texts| && i < |texts|
    ensures var store := StoreAt(naming, s, around.before, i + 1);
            var key := naming.Key(texts[i], model);
            i in Missing(Entries(naming, s, model, texts, around))
            <==> around.fails || i in around.lost || key !in store || store[key].embedding == []
  {
    hide Missing, StoreAt;
    var entries := Entries(naming, s, model, texts, around);
    var missing := Missing(entries);
    if i in missing {
      var k :| 0 <= k < |missing| && missing[k] == i;
      assert !IsHit(entries[missing[k]]);
    }
  }

  lemma NoneMissing(entries: seq<Option<Record>>)
    ensures Missing(entries[..0]) == []
  {
  }

  lemma MissingStep(entries: seq<Option<Record>>, n: nat)
    requires n < |entries|
    ensures Missing(entries[..n + 1]) == Missing(entries[..n]) + if IsHit(entries[n]) then [] else [n]
  {
    assert entries[..n + 1][..n] == entries[..n];
  }

  /** The first loop of EmbedMany: hits are served and misses collected. */
  method ServeHits(entries: seq<Option<Record>>, out: array<Vector>) returns (missing: seq<nat>)
    requires out.Length == |entries|
    modifies out
    ensures missing == Missing(entries)
    ensures forall i | 0 <= i < |entries| && IsHit(entries[i]) :: out[i] == entries[i].value.embedding
  {
    hide Missing;
    missing := [];
    NoneMissing(entries);
    for n := 0 to |entries|
      invariant missing == Missing(entries[..n])
      invariant forall i | 0 <= i < n && IsHit(entries[i]) :: out[i] == entries[i].value.embedding
    {
      MissingStep(entries, n);
      if entries[n].Some? && |entries[n].value.embedding| > 0 {
        out[n] := entries[n].value.embedding;
      } else {
        missing := missing + [n];
      }
    }
    assert entries[..|entries|] == entries;
  }

  /** The second loop: the texts to embed. */
  method MissTexts(texts: seq<string>, missing: seq<nat>) returns (missTexts: seq<string>)
    requires forall k | 0 <= k < |missing| :: missing[k] < |texts|
    ensures missTexts == TextsAt(texts, missing)
  {
    missTexts := [];
    for n := 0 to |missing|
      invariant |missTexts| == n && forall k | 0 <= k < n :: missTexts[k] == texts[missing[k]]
    {
      missTexts := missTexts + [texts[missing[n]]];
    }
  }

  /** The third loop: new embeddings go to their positions and into the map to be cached. */
  method ServeMisses(missing: seq<nat>, missTexts: seq<string>, embeddings: seq<Vector>, out: array<Vector>)
    returns (toCache: map<string, Vector>)
    requires |missing| == |missTexts| == |embeddings|
    requires forall k | 0 <= k < |missing| :: missing[k] < out.Length
    requires forall j, k | 0 <= j < k < |missing| :: missing[j] < missing[k]
    modifies out
    ensures forall k | 0 <= k < |missing| :: out[missing[k]] == embeddings[k]
    ensures forall i | 0 <= i < out.Length && i !in missing :: out[i] == old(out[i])
    ensures forall text :: text in toCache <==> text in missTexts
    ensures forall text | text in toCache :: exists k | 0 <= k < |missTexts| ::
              missTexts[k] == text && toCache[text] == embeddings[k]
  {
    toCache := map[];
    for n := 0 to |missing|
      invariant forall k | 0 <= k < n :: out[missing[k]] == embeddings[k]
      invariant forall i | 0 <= i < out.Length && i !in missing :: out[i] == old(out[i])
      invariant forall text :: text in toCache <==> text in missTexts[..n]
      invariant forall text | text in toCache :: exists k | 0 <= k < n ::
                  missTexts[k] == text && toCache[text] == embeddings[k]
    {
      out[missing[n]] := embeddings[n];
      toCache := toCache[missTexts[n] := embeddings[n]];
      assert missTexts[..n + 1] == missTexts[..n] + [missTexts[n]];
    }
    assert missTexts[..|missing|] == missTexts;
  }

  /** Hits from the cache and misses from the inner vectorizer make up its whole answer. */
  lemma Assembled(w: World, model: string, texts: seq<string>, entries: seq<Option<Record>>, embeddings: seq<Vector>,
                  out: seq<Vector>)
    requires |entries| == |texts| == |out|
    requires forall i | 0 <= i < |texts| && entries[i].Some? :: entries[i].value.embedding == w.embed(model, texts[i])
    requires forall i | 0 <= i < |texts| && IsHit(entries[i]) :: out[i] == entries[i].value.embedding
    requires var missing := Missing(entries);
             && embeddings == Embeddings(w, model, TextsAt(texts, missing))
             && forall k | 0 <= k < |missing| :: out[missing[k]] == embeddings[k]
    ensures out == Embeddings(w, model, texts)
  {
    var missing := Missing(entries);
    hide Missing;
    forall i | 0 <= i < |texts| ensures out[i] == w.embed(model, texts[i]) {
      if !IsHit(entries[i]) {
        assert i in missing;
        var k :| 0 <= k < |missing| && missing[k] == i;
        assert embeddings[k] == w.embed(model, TextsAt(texts, missing)[k]);
      }
    }
  }

  lemma PutsHonest(w: World, model: string, missTexts: seq<string>, embeddings: seq<Vector>,
                   toCache: map<string, Vector>,
                   landed: set<string>, puts: seq<Event>)
    requires model in w.models && embeddings == Embeddings(w, model, missTexts)
    requires forall text | text in toCache :: exists k | 0 <= k < |missTexts| ::
               missTexts[k] == text && toCache[text] == embeddings[k]
    requires forall i | 0 <= i < |puts| :: IsPutOf(puts[i], model, toCache, landed)
    ensures AllHonest(w, puts)
  {
    forall i | 0 <= i < |puts| ensures Honest(w, puts[i]) {
      var e := puts[i];
      var k :| 0 <= k < |missTexts| && missTexts[k] == e.content && toCache[e.content] == embeddings[k];
      assert embeddings[k] == w.embed(model, missTexts[k]);
    }
  }

  /** The embeddings of the texts that were asked for, which are all written to the cache. */
  function Asked(w: World, model: string, asked: seq<string>): map<string, Vector> {
    map text | text in asked :: w.embed(model, text)
  }

  lemma AsksAre(w: World, model: string, missTexts: seq<string>, embeddings: seq<Vector>,
                toCache: map<string, Vector>)
    requires embeddings == Embeddings(w, model, missTexts)
    requires forall text :: text in toCache <==> text in missTexts
    requires forall text | text in toCache :: exists k | 0 <= k < |missTexts| ::
               missTexts[k] == text && toCache[text] == embeddings[k]
    ensures toCache == Asked(w, model, missTexts)
  {
    forall text | text in toCache ensures toCache[text] == w.embed(model, text) {
      var k :| 0 <= k < |missTexts| && missTexts[k] == text && toCache[text] == embeddings[k];
      assert embeddings[k] == w.embed(model, missTexts[k]);
    }
  }

  class CachedVectorizer {
    const model: string
    const cache: EmbeddingsCache

    constructor (model: string, cache: EmbeddingsCache)
      ensures this.model == model && this.cache == cache
    {
      this.model := model;
      this.cache := cache;
    }

    ghost predicate Serves(w: World)
      reads cache
    {
      cache.naming == w.naming && model in w.models && Agree(w) && Sound(w, cache.store)
    }

    /** The result is the inner vectorizer's; it is asked only when the lookup finds nothing. events is
        all that happened to the store, in order. */
    method Embed(ghost w: World, text: string, inner: Inner, around: Around)
      returns (r: Result<Vector, string>, ghost asked: seq<string>, ghost events: seq<Event>)
      requires Serves(w) && Computes(w, model, inner) && AllHonest(w, around.before) && AllHonest(w, around.during)
      modifies cache
      ensures r.Ok? ==> r.value == w.embed(model, text)
      ensures r.Err? <==> asked == [text] && inner(text).Err?
      ensures var found := Lookup(w.naming, Run(w.naming, old(cache.store), around.before), text, model);
              asked == if !around.fails && found.Some? then [] else [text]
      ensures cache.store == Run(w.naming, old(cache.store), events) && AllHonest(w, events)
      ensures events == around.before + (if asked == [] then [] else around.during)
                        + (if asked != [] && r.Ok? && around.landed then [Put(text, model, r.value)] else [])
      ensures Serves(w)
    {
      ghost var start := cache.store;
      events := around.before;
      RunSound(w, start, around.before);
      cache.Interfere(around.before);
      asked := [];
      var entry := cache.Get(text, model, around.fails);
      if entry.Ok? && entry.value.Some? {
        FoundIsEmbedding(w, cache.store, text, model);
        return Ok(entry.value.value.embedding), asked, events;
      }
      asked := [text];
      var computed := inner(text);
      RunAppend(w.naming, start, events, around.during);
      events := events + around.during;
      cache.Interfere(around.during);
      RunSound(w, start, events);
      if computed.Err? {
        return Err(computed.error), asked, events;
      }
      ghost var puts := if around.landed then [Put(text, model, computed.value)] else [];
      cache.Set(text, model, computed.value, around.landed);
      RunAppend(w.naming, start, events, puts);
      events := events + puts;
      RunSound(w, start, events);
      r := Ok(computed.value);
    }

    /** Every result is the inner vectorizer's, in input order; the inner one gets exactly the texts whose
        lookup found nothing, and only its failure is a failure. */
    method EmbedMany(ghost w: World, texts: seq<string>, inner: InnerMany, around: AroundMany)
      returns (r: Result<seq<Vector>, string>, ghost asked: seq<string>, ghost events: seq<Event>)
      requires Serves(w) && ComputesMany(w, model, inner) && |around.before| == |texts|
      requires AllBatchesHonest(w, around.before) && AllHonest(w, around.during)
      modifies cache
      ensures r.Ok? ==> r.value == Embeddings(w, model, texts)
      ensures asked == TextsAt(texts, Missing(Entries(w.naming, old(cache.store), model, texts, around)))
      ensures r.Err? <==> asked != [] && inner(asked).Err?
      ensures cache.store == Run(w.naming, old(cache.store), events) && AllHonest(w, events)
      ensures var others := Flat(around.before) + if asked == [] then [] else around.during;
              if asked == [] || r.Err? then events == others
              else
                exists puts ::
                  events == others + puts && PutsOf(puts, model, Asked(w, model, asked), around.landed, {})
      ensures Serves(w)
    {
      hide Agree, Sound, AllHonest, AllBatchesHonest, Run, StoreAt, Lookups, Missing;
      ghost var start := cache.store;
      events := Flat(around.before);
      FlatHonest(w, around.before);
      assert around.before[..|texts|] == around.before;
      RunFlat(w.naming, start, around.before, |texts|);
      RunSound(w, start, events);
      ghost var spec := Entries(w.naming, start, model, texts, around);
      EntriesSound(w, start, model, texts, around);
      var looked := cache.MGet(model, texts, around.before, around.fails, around.lost);
      var entries := if looked.Err? || |looked.value| != |texts| then seq(|texts|, _ => None) else looked.value;
      assert entries == spec;

      var out := new Vector[|texts|];
      var missing := ServeHits(entries, out);
      var missTexts := MissTexts(texts, missing);
      asked := missTexts;
      if |missing| == 0 {
        Assembled(w, model, texts, entries, [], out[..]);
        return Ok(out[..]), asked, events;
      }
      var computed := inner(missTexts);
      RunAppend(w.naming, start, events, around.during);
      AppendHonest(w, events, around.during);
      events := events + around.during;
      cache.Interfere(around.during);
      RunSound(w, start, events);
      if computed.Err? {
        return Err(computed.error), asked, events;
      }
      var toCache := ServeMisses(missing, missTexts, computed.value, out);
      Assembled(w, model, texts, entries, computed.value, out[..]);
      AsksAre(w, model, missTexts, computed.value, toCache);
      ghost var puts := cache.MSet(model, toCache, around.landed);
      assert PutsOf(puts, model, Asked(w, model, asked), around.landed, {});
      PutsHonest(w, model, missTexts, computed.value, toCache, around.landed, puts);
      RunAppend(w.naming, start, events, puts);
      AppendHonest(w, events, puts);
      events := events + puts;
      RunSound(w, start, events);
      r := Ok(out[..]);
    }
  }
}
