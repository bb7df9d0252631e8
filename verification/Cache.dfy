/** The embeddings cache (extensions/cache/embeddings.go:79-254): records under hashed keys in a store
    that other clients, expiry, drops and clears change between any two operations. */
module Cache {
  import opened Common

  type Vector = seq<real>

  datatype Record = Record(content: string, modelName: string, embedding: Vector)

  type Store = map<string, Record>

  datatype Naming = Naming(name: string, hash: string -> string) {
    function EntryId(content: string, modelName: string): string {
      hash(content + ":" + modelName)
    }

    function Key(content: string, modelName: string): string {
      name + ":" + EntryId(content, modelName)
    }
  }

  /** One atomic change of the store. Expiry, drops and each DEL of a clear remove keys; an HSET puts a record. */
  datatype Event = Remove(keys: set<string>) | Put(content: string, modelName: string, embedding: Vector)

  function Change(naming: Naming, s: Store, e: Event): Store {
    match e
    case Remove(keys) => s - keys
    case Put(content, modelName, embedding) =>
      s[naming.Key(content, modelName) := Record(content, modelName, embedding)]
  }

  function Run(naming: Naming, s: Store, events: seq<Event>): Store {
    if events == [] then s else Change(naming, Run(naming, s, events[..|events| - 1]), events[|events| - 1])
  }

  /** The vectorizers that share the cache: one deterministic embedding function per model name. */
  datatype World = World(naming: Naming, models: set<string>, embed: (string, string) -> Vector)

  /** Wrappers put only what the vectorizer of the model computes. */
  ghost predicate Honest(w: World, e: Event) {
    e.Put? ==> e.modelName in w.models && e.embedding == w.embed(e.modelName, e.content)
  }

  ghost predicate AllHonest(w: World, events: seq<Event>) {
    forall i | 0 <= i < |events| :: Honest(w, events[i])
  }

  /** Whatever is found under a key of a model's text is that model's embedding of the text. */
  ghost predicate Sound(w: World, s: Store) {
    forall content, model | model in w.models && w.naming.Key(content, model) in s ::
      s[w.naming.Key(content, model)].embedding == w.embed(model, content)
  }

  /** Texts of models that share a key share the embedding. */
  ghost predicate Agree(w: World) {
    forall c, m, d, n | m in w.models && n in w.models && w.naming.Key(c, m) == w.naming.Key(d, n) ::
      w.embed(m, c) == w.embed(n, d)
  }

  /** The put of an item that landed. */
  predicate IsPutOf(e: Event, modelName: string, items: map<string, Vector>, landed: set<string>) {
    && e.Put? && e.modelName == modelName
    && e.content in items && e.content in landed && e.embedding == items[e.content]
  }

  /** The puts of the landed items that are not in rest, each once. */
  ghost predicate PutsOf(events: seq<Event>, modelName: string, items: map<string, Vector>, landed: set<string>,
                         rest: set<string>)
  {
    && (forall i | 0 <= i < |events| :: IsPutOf(events[i], modelName, items, landed) && events[i].content !in rest)
    && (forall i, j | 0 <= i < j < |events| :: events[i] != events[j])
    && (forall content | content in items && content in landed && content !in rest ::
          Put(content, modelName, items[content]) in events)
  }

  lemma {:induction false} PutsStep(events: seq<Event>, modelName: string, items: map<string, Vector>,
                                    landed: set<string>, rest: set<string>, content: string)
    requires PutsOf(events, modelName, items, landed, rest) && content in rest && content in items
    ensures var more := if content in landed then [Put(content, modelName, items[content])] else [];
            PutsOf(events + more, modelName, items, landed, rest - {content})
  {
    var more := if content in landed then [Put(content, modelName, items[content])] else [];
    forall other | other in items && other in landed && other !in rest - {content}
      ensures Put(other, modelName, items[other]) in events + more
    {
    }
  }

  class EmbeddingsCache {
    const naming: Naming
    var store: Store

    constructor (naming: Naming)
      ensures this.naming == naming && store == map[]
    {
      this.naming := naming;
      store := map[];
    }

    /** What others do to the store. */
    method Interfere(events: seq<Event>)
      modifies this
      ensures store == Run(naming, old(store), events)
    {
      var i := 0;
      while i < |events|
        invariant 0 <= i <= |events|
        invariant store == Run(naming, old(store), events[..i])
      {
        assert events[..i + 1][..i] == events[..i];
        store := Change(naming, store, events[i]);
        i := i + 1;
      }
      assert events[..|events|] == events;
    }

    /** landed tells whether the write took effect, whatever was reported. */
    method Set(content: string, modelName: string, embedding: Vector, landed: bool)
      modifies this
      ensures store == Run(naming, old(store), if landed then [Put(content, modelName, embedding)] else [])
    {
      var key := naming.Key(content, modelName);
      if landed {
        store := store[key := Record(content, modelName, embedding)];
        assert [Put(content, modelName, embedding)][..0] == [];
      }
    }

    /** The pipelined writes, of which those in landed take effect. */
    method MSet(modelName: string, items: map<string, Vector>, landed: set<string>) returns (ghost events: seq<Event>)
      modifies this
      ensures store == Run(naming, old(store), events)
      ensures forall i | 0 <= i < |events| :: IsPutOf(events[i], modelName, items, landed)
      ensures forall i, j | 0 <= i < j < |events| :: events[i] != events[j]
      ensures forall content | content in items && content in landed ::
                Put(content, modelName, items[content]) in events
    {
      events := [];
      var rest := items.Keys;
      while rest != {}
        invariant rest <= items.Keys
        invariant store == Run(naming, old(store), events)
        invariant PutsOf(events, modelName, items, landed, rest)
        decreases |rest|
      {
        var content :| content in rest;
        PutsStep(events, modelName, items, landed, rest, content);
        rest := rest - {content};
        if content in landed {
          var key := naming.Key(content, modelName);
          store := store[key := Record(content, modelName, items[content])];
          assert (events + [Put(content, modelName, items[content])])[..|events|] == events;
          events := events + [Put(content, modelName, items[content])];
        }
      }
    }

    method Get(content: string, modelName: string, fails: bool) returns (entry: Result<Option<Record>, string>)
      ensures entry.Err? <==> fails
      ensures !fails ==> entry.value == Lookup(naming, store, content, modelName)
    {
      if fails {
        return Err("read");
      }
      var key := naming.Key(content, modelName);
      entry := Ok(if key in store then Some(store[key]) else None);
    }

    /** The pipelined reads. Others may change the store before each one; the reads in lost fail on their own. */
    method MGet(modelName: string, contents: seq<string>, before: seq<seq<Event>>, fails: bool, lost: set<nat>)
      returns (entries: Result<seq<Option<Record>>, string>)
      requires |before| == |contents|
      modifies this
      ensures store == StoreAt(naming, old(store), before, |before|)
      ensures contents == [] ==> entries == Ok([])
      ensures contents != [] ==> (entries.Err? <==> fails)
      ensures entries.Ok? ==> entries.value == Lookups(naming, old(store), modelName, contents, before, lost)
    {
      if |contents| == 0 {
        return Ok([]);
      }
      var found: seq<Option<Record>> := [];
      for i := 0 to |contents|
        invariant |found| == i
        invariant store == StoreAt(naming, old(store), before, i)
        invariant forall j | 0 <= j < i ::
                    found[j] ==
                    if j in lost then None
                    else Lookup(naming, StoreAt(naming, old(store), before, j + 1), contents[j], modelName)
      {
        Interfere(before[i]);
        var key := naming.Key(contents[i], modelName);
        found := found + [if i in lost || key !in store then None else Some(store[key])];
      }
      if fails {
        return Err("read");
      }
      entries := Ok(found);
    }

    method Drop(content: string, modelName: string)
      modifies this
      ensures Lookup(naming, store, content, modelName) == None
      ensures forall key | key != naming.Key(content, modelName) :: key in store <==> key in old(store)
      ensures forall key | key in store :: store[key] == old(store)[key]
    {
      store := store - {naming.Key(content, modelName)};
    }

    /** Deletes what the scans return. Others may change the store before each deletion. */
    method Clear(scans: seq<set<string>>, before: seq<seq<Event>>)
      requires |before| == |scans|
      modifies this
      ensures store == ClearedAt(naming, old(store), scans, before, |scans|)
    {
      for i := 0 to |scans|
        invariant store == ClearedAt(naming, old(store), scans, before, i)
      {
        Interfere(before[i]);
        store := store - scans[i];
      }
    }
  }

  /** The store when the first n deletions of a clear are done. */
  function ClearedAt(naming: Naming, s: Store, scans: seq<set<string>>, before: seq<seq<Event>>, n: nat): Store
    requires n <= |scans| == |before|
  {
    if n == 0 then s else Run(naming, ClearedAt(naming, s, scans, before, n - 1), before[n - 1]) - scans[n - 1]
  }

  /** A key that is found after a clear was put by somebody else, or was returned by no scan and there before. */
  lemma {:induction false} ClearRemoves(naming: Naming, s: Store, scans: seq<set<string>>, before: seq<seq<Event>>,
                                        n: nat, key: string)
    requires n <= |scans| == |before| && key in ClearedAt(naming, s, scans, before, n)
    ensures || (exists i, j | 0 <= i < n && 0 <= j < |before[i]| :: PutsAt(naming, before[i][j], key))
            || (key in s && forall i | 0 <= i < n :: key !in scans[i])
    decreases n
  {
    hide Run;
    if n > 0 {
      var earlier, batch := ClearedAt(naming, s, scans, before, n - 1), before[n - 1];
      RunPuts(naming, earlier, batch, key);
      if j :| 0 <= j < |batch| && PutsAt(naming, batch[j], key) {
      } else {
        ClearRemoves(naming, s, scans, before, n - 1, key);
      }
    }
  }

  predicate PutsAt(naming: Naming, e: Event, key: string) {
    e.Put? && naming.Key(e.content, e.modelName) == key
  }

  /** A key is found after a run only if it was there before or was put. */
  lemma {:induction false} RunPuts(naming: Naming, s: Store, events: seq<Event>, key: string)
    requires key in Run(naming, s, events)
    ensures key in s || exists j | 0 <= j < |events| :: PutsAt(naming, events[j], key)
    decreases |events|
  {
    if events != [] {
      var front, last := events[..|events| - 1], events[|events| - 1];
      if PutsAt(naming, last, key) {
      } else {
        RunPuts(naming, s, front, key);
        if j :| 0 <= j < |front| && PutsAt(naming, front[j], key) {
          assert events[j] == front[j];
        }
      }
    }
  }

  /** Without interference exactly the scanned keys are gone. */
  lemma {:induction false} ClearAlone(naming: Naming, s: Store, scans: seq<set<string>>, before: seq<seq<Event>>,
                                      n: nat)
    requires n <= |scans| == |before| && forall i | 0 <= i < n :: before[i] == []
    ensures var t := ClearedAt(naming, s, scans, before, n);
            && (forall key :: key in t <==> key in s && forall i | 0 <= i < n :: key !in scans[i])
            && (forall key | key in t :: t[key] == s[key])
    decreases n
  {
    if n > 0 {
      ClearAlone(naming, s, scans, before, n - 1);
    }
  }

  function Lookup(naming: Naming, s: Store, content: string, modelName: string): Option<Record> {
    var key := naming.Key(content, modelName);
    if key in s then Some(s[key]) else None
  }

  /** The store when the first n reads are done. */
  function StoreAt(naming: Naming, s: Store, before: seq<seq<Event>>, n: nat): Store
    requires n <= |before|
  {
    if n == 0 then s else Run(naming, StoreAt(naming, s, before, n - 1), before[n - 1])
  }

  function Lookups(naming: Naming, s: Store, modelName: string, contents: seq<string>, before: seq<seq<Event>>,
                   lost: set<nat>)
    : (entries: seq<Option<Record>>)
    requires |before| == |contents|
    ensures |entries| == |contents|
  {
    seq(|contents|, i requires 0 <= i < |contents| =>
      if i in lost then None else Lookup(naming, StoreAt(naming, s, before, i + 1), contents[i], modelName))
  }

  lemma ChangeSound(w: World, s: Store, e: Event)
    requires Agree(w) && Sound(w, s) && Honest(w, e)
    ensures Sound(w, Change(w.naming, s, e))
  {
    var t := Change(w.naming, s, e);
    forall content, model | model in w.models && w.naming.Key(content, model) in t
      ensures t[w.naming.Key(content, model)].embedding == w.embed(model, content)
    {
      if e.Put? && w.naming.Key(content, model) == w.naming.Key(e.content, e.modelName) {
        assert w.embed(model, content) == w.embed(e.modelName, e.content);
      }
    }
  }

  /** In every run of puts, drops, clears and expiry by any number of wrappers the store stays sound. */
  lemma {:induction false} RunSound(w: World, s: Store, events: seq<Event>)
    requires Agree(w) && Sound(w, s) && AllHonest(w, events)
    ensures Sound(w, Run(w.naming, s, events))
    decreases |events|
  {
    hide Agree, Sound, Honest, Change;
    if events == [] {
    } else {
      RunSound(w, s, events[..|events| - 1]);
      ChangeSound(w, Run(w.naming, s, events[..|events| - 1]), events[|events| - 1]);
    }
  }

  /** Every record lies under the key of its own text and model, and under the cache's prefix, for which a clear
      scans. */
  predicate Keyed(naming: Naming, s: Store) {
    forall key | key in s :: naming.name + ":" <= key && key == naming.Key(s[key].content, s[key].modelName)
  }

  lemma {:induction false} RunKeyed(naming: Naming, s: Store, events: seq<Event>)
    requires Keyed(naming, s)
    ensures Keyed(naming, Run(naming, s, events))
    decreases |events|
  {
    if events != [] {
      RunKeyed(naming, s, events[..|events| - 1]);
      ChangeKeyed(naming, Run(naming, s, events[..|events| - 1]), events[|events| - 1]);
      hide Keyed, Change;
    }
  }

  lemma ChangeKeyed(naming: Naming, s: Store, e: Event)
    requires Keyed(naming, s)
    ensures Keyed(naming, Change(naming, s, e))
  {
  }

  /** Of models with names apart, a record that is found is of the text and model that were asked for. */
  lemma FoundIsOwn(w: World, events: seq<Event>, content: string, model: string)
    requires Injective(w.naming.hash) && NamesApart(w.models) && AllHonest(w, events) && model in w.models
    requires Lookup(w.naming, Run(w.naming, map[], events), content, model).Some?
    ensures Lookup(w.naming, Run(w.naming, map[], events), content, model).value
         == Record(content, model, w.embed(model, content))
  {
    hide Run, Injective, NamesApart;
    var s := Run(w.naming, map[], events);
    var key := w.naming.Key(content, model);
    RunKeyed(w.naming, map[], events);
    NamesApartAgree(w);
    RunSound(w, map[], events);
    RunModels(w, map[], events, key);
    var r := s[key];
    if r.modelName != model {
      NamesDoNotCollide(w.naming, w.models, r.content, r.modelName, content, model);
    }
    OneModelApart(w.naming, r.content, content, model);
  }

  lemma NamesDoNotCollide(naming: Naming, models: set<string>, c: string, m: string, d: string, n: string)
    requires Injective(naming.hash) && NamesApart(models) && m in models && n in models
    requires naming.Key(c, m) == naming.Key(d, n)
    ensures m == n
  {
    if m != n {
      CollideIff(naming, m, n);
    }
  }

  lemma {:induction false} RunModels(w: World, s: Store, events: seq<Event>, key: string)
    requires AllHonest(w, events) && key in Run(w.naming, s, events)
    requires forall k | k in s :: s[k].modelName in w.models
    ensures Run(w.naming, s, events)[key].modelName in w.models
    decreases |events|
  {
    if events != [] {
      var front, last := events[..|events| - 1], events[|events| - 1];
      assert Honest(w, last);
      if key in Run(w.naming, s, front) {
        RunModels(w, s, front, key);
      }
    }
  }

  ghost predicate AllBatchesHonest(w: World, before: seq<seq<Event>>) {
    forall i | 0 <= i < |before| :: AllHonest(w, before[i])
  }

  lemma {:induction false} StoreAtSound(w: World, s: Store, before: seq<seq<Event>>, n: nat)
    requires Agree(w) && Sound(w, s) && AllBatchesHonest(w, before) && n <= |before|
    ensures Sound(w, StoreAt(w.naming, s, before, n))
    decreases n
  {
    hide Agree, Sound, AllHonest, Run;
    if n == 0 {
    } else {
      StoreAtSound(w, s, before, n - 1);
      RunSound(w, StoreAt(w.naming, s, before, n - 1), before[n - 1]);
    }
  }

  /** No model name ends in a colon and another model's name. */
  predicate NamesApart(models: set<string>) {
    forall m, n | m in models && n in models && m != n :: !EndsIn(m, ":" + n)
  }

  predicate EndsIn(s: string, suffix: string) {
    |suffix| <= |s| && s[|s| - |suffix|..] == suffix
  }

  ghost predicate Injective(hash: string -> string) {
    forall a, b | hash(a) == hash(b) :: a == b
  }

  lemma KeysEqualIff(naming: Naming, c: string, m: string, d: string, n: string)
    requires Injective(naming.hash)
    ensures naming.Key(c, m) == naming.Key(d, n) <==> c + ":" + m == d + ":" + n
  {
    var prefix := naming.name + ":";
    if naming.Key(c, m) == naming.Key(d, n) {
      assert naming.Key(c, m)[|prefix|..] == naming.hash(c + ":" + m);
      assert naming.Key(d, n)[|prefix|..] == naming.hash(d + ":" + n);
    }
  }

  /** For one model, different texts have different keys. */
  lemma OneModelApart(naming: Naming, c: string, d: string, m: string)
    requires Injective(naming.hash) && naming.Key(c, m) == naming.Key(d, m)
    ensures c == d
  {
    KeysEqualIff(naming, c, m, d, m);
    assert c == (c + ":" + m)[..|c|] && d == (d + ":" + m)[..|d|];
    assert |c + ":" + m| == |c| + 1 + |m| && |d + ":" + m| == |d| + 1 + |m|;
  }

  lemma ShorterSuffix(c: string, m: string, d: string, n: string)
    requires c + ":" + m == d + ":" + n && |n| < |m|
    ensures EndsIn(m, ":" + n)
  {
    var s := c + ":" + m;
    assert s[|s| - |m|..] == m;
    assert s[|s| - |n| - 1..] == ":" + n by {
      assert s == d + (":" + n);
    }
  }

  lemma EqualSuffix(c: string, m: string, d: string, n: string)
    requires c + ":" + m == d + ":" + n && |n| == |m|
    ensures m == n && c == d
  {
    var s := c + ":" + m;
    assert s[|s| - |m|..] == m && s[|s| - |n|..] == n;
    assert s[..|s| - |m| - 1] == c && s[..|s| - |n| - 1] == d;
  }

  /** Some texts of two models share a key exactly when one name ends in a colon and the other. */
  lemma CollideIff(naming: Naming, m: string, n: string)
    requires Injective(naming.hash) && m != n
    ensures (exists c, d :: naming.Key(c, m) == naming.Key(d, n)) <==> EndsIn(m, ":" + n) || EndsIn(n, ":" + m)
  {
    if c, d :| naming.Key(c, m) == naming.Key(d, n) {
      KeysEqualIff(naming, c, m, d, n);
      if |n| < |m| {
        ShorterSuffix(c, m, d, n);
      } else if |m| < |n| {
        ShorterSuffix(d, n, c, m);
      } else {
        EqualSuffix(c, m, d, n);
      }
    }
    if EndsIn(m, ":" + n) {
      SuffixCollides(naming, m, n);
    }
    if EndsIn(n, ":" + m) {
      SuffixCollides(naming, n, m);
    }
  }

  lemma SuffixCollides(naming: Naming, m: string, n: string)
    requires EndsIn(m, ":" + n)
    ensures naming.Key("", m) == naming.Key(":" + m[..|m| - |n| - 1], n)
  {
    var head := m[..|m| - |n| - 1];
    assert m == head + (":" + n);
    assert "" + ":" + m == ":" + head + ":" + n;
  }

  lemma NamesApartAgree(w: World)
    requires Injective(w.naming.hash) && NamesApart(w.models)
    ensures Agree(w)
  {
    forall c, m, d, n | m in w.models && n in w.models && w.naming.Key(c, m) == w.naming.Key(d, n)
      ensures w.embed(m, c) == w.embed(n, d)
    {
      if m == n {
        OneModelApart(w.naming, c, d, m);
      } else {
        CollideIff(w.naming, m, n);
      }
    }
  }

  /** Sharing a cache is safe whatever the vectorizers compute exactly when no model name ends in a
      colon and another's name; names without colons are enough. */
  lemma SharingSafeIff(naming: Naming, models: set<string>)
    requires Injective(naming.hash)
    ensures NamesApart(models) <==> forall embed :: Agree(World(naming, models, embed))
    ensures (forall m | m in models :: ':' !in m) ==> NamesApart(models)
  {
    if NamesApart(models) {
      forall embed: (string, string) -> Vector ensures Agree(World(naming, models, embed)) {
        NamesApartAgree(World(naming, models, embed));
      }
    }
    if m, n :| m in models && n in models && m != n && EndsIn(m, ":" + n) {
      SuffixCollides(naming, m, n);
      var embed := (model: string, content: string) => if model == m then [1.0] else [2.0];
      var w := World(naming, models, embed);
      assert w.embed(m, "") != w.embed(n, ":" + m[..|m| - |n| - 1]);
      assert !Agree(w);
      assert m[|m| - |n| - 1] == ':';
    }
  }

  /** Without agreement one put makes the store unsound for another model: an exact condition for sharing. */
  lemma AlwaysSoundIff(w: World)
    ensures Agree(w) <==> forall events | AllHonest(w, events) :: Sound(w, Run(w.naming, map[], events))
  {
    if Agree(w) {
      forall events | AllHonest(w, events) ensures Sound(w, Run(w.naming, map[], events)) {
        RunSound(w, map[], events);
      }
    }
    if c, m, d, n :| && m in w.models && n in w.models
                     && w.naming.Key(c, m) == w.naming.Key(d, n) && w.embed(m, c) != w.embed(n, d) {
      var events := [Put(c, m, w.embed(m, c))];
      assert AllHonest(w, events);
      assert events[..0] == [];
      assert !Sound(w, Run(w.naming, map[], events));
    }
  }
}
