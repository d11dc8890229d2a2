/** The embedding cache, and the embedding of a list of texts through it. */
module EmbeddingCache {
  import opened Wrappers

  type Embedding = seq<real>

  /** How one use of the outside world can go wrong. A lost reply means that the write took effect. */
  datatype Fault =
    | NoFault
    | CacheReadFails | EmbeddingFails | CacheWriteFails | CacheReplyLost
    | CommitFails | CommitReplyLost

  /** Can this fault hit the cache or the embedding model? */
  predicate HitsEmbedding(fault: Fault) {
    fault.CacheReadFails? || fault.EmbeddingFails? || fault.CacheWriteFails? || fault.CacheReplyLost?
  }

  datatype Key = Key(model: string, digest: string)

  ghost predicate Injective(hash: string -> string) {
    forall s, t :: hash(s) == hash(t) ==> s == t
  }

  function EmbedAll(embed: string -> Embedding, texts: seq<string>): (r: seq<Embedding>)
    ensures |r| == |texts| && forall i :: 0 <= i < |texts| ==> r[i] == embed(texts[i])
  {
    if texts == [] then [] else [embed(texts[0])] + EmbedAll(embed, texts[1..])
  }

  /** The indexes below `n` at which nothing was found, in order. */
  function Misses(found: seq<Option<Embedding>>, n: nat): (r: seq<nat>)
    requires n <= |found|
    ensures forall k :: 0 <= k < |r| ==> r[k] < n && found[r[k]].None?
    ensures forall i :: 0 <= i < n && found[i].None? ==> i in r
  {
    if n == 0 then []
    else if found[n - 1].None? then Misses(found, n - 1) + [n - 1]
    else Misses(found, n - 1)
  }

  class EmbeddingCache {
    const model: string
    const hash: string -> string
    var store: map<Key, Embedding>

    constructor (model: string, hash: string -> string)
      ensures store == map[] && this.hash == hash && this.model == model
    {
      this.model, this.hash, store := model, hash, map[];
    }

    function KeyOf(text: string): Key {
      Key(model, hash(text))
    }

    /** Each entry is the embedding of the text it is the key of. */
    ghost predicate Faithful(embed: string -> Embedding)
      reads this
    {
      forall text :: KeyOf(text) in store ==> store[KeyOf(text)] == embed(text)
    }

    ghost predicate AllCached(texts: seq<string>, store: map<Key, Embedding>) {
      forall i :: 0 <= i < |texts| ==> KeyOf(texts[i]) in store
    }

    /** Entries may disappear at any time. */
    method Expire(keys: set<Key>, ghost embed: string -> Embedding)
      requires Faithful(embed)
      modifies this
      ensures Faithful(embed) && store == old(store) - keys
    {
      store := store - keys;
    }

    method GetMany(texts: seq<string>) returns (found: seq<Option<Embedding>>, misses: seq<nat>)
      ensures |found| == |texts|
      ensures forall i :: 0 <= i < |texts| ==>
                var key := Key(model, hash(texts[i]));
                found[i] == if key in store then Some(store[key]) else None
      ensures misses == Misses(found, |found|)
    {
      found, misses := [], [];
      for i := 0 to |texts|
        invariant |found| == i
        invariant forall k :: 0 <= k < i ==>
                    found[k] == if KeyOf(texts[k]) in store then Some(store[KeyOf(texts[k])]) else None
        invariant misses == Misses(found, i)
      {
        var key := KeyOf(texts[i]);
        ghost var before := found;
        if key !in store {
          found := found + [None];
          MissesPrefix(before, found, i);
          misses := misses + [i];
        } else {
          found := found + [Some(store[key])];
          MissesPrefix(before, found, i);
        }
      }
    }

    /** One pipeline of writes. A length mismatch raises before anything is written. */
    method SetMany(texts: seq<string>, embeddings: seq<Embedding>, ghost embed: string -> Embedding)
      returns (r: Result<(), string>)
      requires Injective(hash) && Faithful(embed)
      requires forall i :: 0 <= i < |texts| && |texts| == |embeddings| ==> embeddings[i] == embed(texts[i])
      modifies this
      ensures Faithful(embed)
      ensures r.Ok? <==> texts == [] || |texts| == |embeddings|
      ensures r.Ok? ==> store.Keys == old(store).Keys + set t | t in texts :: Key(model, hash(t))
      ensures r.Err? ==> store == old(store)
    {
      if texts == [] {
        assert (set t | t in texts :: KeyOf(t)) == {};
        return Ok(());
      }
      if |texts| != |embeddings| {
        return Err("texts and embeddings differ in length");
      }
      for i := 0 to |texts|
        invariant Faithful(embed)
        invariant store.Keys == old(store).Keys + set t | t in texts[..i] :: KeyOf(t)
      {
        assert texts[..i + 1] == texts[..i] + [texts[i]];
        store := store[KeyOf(texts[i]) := embeddings[i]];
      }
      assert texts[..|texts|] == texts;
      r := Ok(());
    }

    /** Hits are taken from the cache, only misses are sent to the embedding model and then stored. Whatever was in the
        cache, a result is the list of embeddings of the texts. */
    method EmbedWithCache(texts: seq<string>, embed: string -> Embedding, fault: Fault)
      returns (r: Result<seq<Embedding>, string>)
      requires Injective(hash) && Faithful(embed)
      modifies this
      ensures Faithful(embed)
      ensures r.Ok? ==> r.value == EmbedAll(embed, texts)
      ensures r.Ok? ==> forall i :: 0 <= i < |texts| && KeyOf(texts[i]) !in old(store) ==> KeyOf(texts[i]) in store
      ensures r.Err? <==> fault == CacheReadFails || (HitsEmbedding(fault) && !AllCached(texts, old(store)))
      ensures AllCached(texts, old(store)) ==> store == old(store)
    {
      if fault == CacheReadFails {
        return Err("cache");
      }
      var cached, missIndexes := GetMany(texts);
      NoMissesIff(cached);
      if missIndexes == [] {
        var hits := Values(cached);
        assert hits == EmbedAll(embed, texts);
        return Ok(hits);
      }
      var expired: set<Key> := *;
      Expire(expired, embed);
      r := FillGaps(texts, cached, missIndexes, embed, fault);
    }

    /** The missing texts are embedded and stored, and their embeddings merged with the hits. */
    method FillGaps(texts: seq<string>, cached: seq<Option<Embedding>>, missIndexes: seq<nat>,
                    embed: string -> Embedding, fault: Fault)
      returns (r: Result<seq<Embedding>, string>)
      requires Injective(hash) && Faithful(embed)
      requires fault != CacheReadFails && |cached| == |texts| && missIndexes == Misses(cached, |cached|)
      requires forall i :: 0 <= i < |texts| && cached[i].Some? ==> cached[i].value == embed(texts[i])
      modifies this
      ensures Faithful(embed)
      ensures r.Ok? ==> r.value == EmbedAll(embed, texts)
      ensures r.Ok? ==> forall i :: 0 <= i < |texts| && cached[i].None? ==> KeyOf(texts[i]) in store
      ensures r.Err? <==> HitsEmbedding(fault)
    {
      var missTexts := seq(|missIndexes|, k requires 0 <= k < |missIndexes| => texts[missIndexes[k]]);
      MissedAll(texts, cached, missIndexes, missTexts);
      r := EmbedMisses(missTexts, embed, fault);
      if r.Err? {
        return;
      }
      var newEmbeddings := r.value;
      MissesRanked(cached);
      var result := Merge(cached, missIndexes, newEmbeddings);
      MergedIsEmbedAll(texts, embed, cached, missTexts, missIndexes, result);
      r := Ok(result);
    }

    /** The call to the embedding model for the missing texts, and their caching. */
    method EmbedMisses(missTexts: seq<string>, embed: string -> Embedding, fault: Fault)
      returns (r: Result<seq<Embedding>, string>)
      requires Injective(hash) && Faithful(embed) && fault != CacheReadFails
      modifies this
      ensures Faithful(embed)
      ensures r.Ok? ==> r.value == EmbedAll(embed, missTexts)
      ensures r.Ok? ==> forall t :: t in missTexts ==> KeyOf(t) in store
      ensures r.Err? <==> HitsEmbedding(fault)
    {
      if fault == EmbeddingFails {
        return Err("embedding");
      }
      var newEmbeddings := EmbedAll(embed, missTexts);
      if fault != CacheWriteFails {
        var _ := SetMany(missTexts, newEmbeddings, embed);
      }
      if fault == CacheWriteFails || fault == CacheReplyLost {
        return Err("cache");
      }
      r := Ok(newEmbeddings);
    }
  }

  lemma NoMissesIff(found: seq<Option<Embedding>>)
    ensures Misses(found, |found|) == [] <==> forall i :: 0 <= i < |found| ==> found[i].Some?
  {
    var misses := Misses(found, |found|);
    if misses != [] {
      assert found[misses[0]].None?;
    }
  }

  /** Every text that was not found is among the missing ones. */
  lemma MissedAll(texts: seq<string>, cached: seq<Option<Embedding>>, missIndexes: seq<nat>, missTexts: seq<string>)
    requires |cached| == |texts| && missIndexes == Misses(cached, |cached|) && |missTexts| == |missIndexes|
    requires forall k :: 0 <= k < |missIndexes| ==> missTexts[k] == texts[missIndexes[k]]
    ensures forall i :: 0 <= i < |texts| && cached[i].None? ==> texts[i] in missTexts
  {
    forall i | 0 <= i < |texts| && cached[i].None?
      ensures texts[i] in missTexts
    {
      var k :| 0 <= k < |missIndexes| && missIndexes[k] == i;
      assert missTexts[k] == texts[i];
    }
  }

  lemma {:induction false} MissesPrefix(a: seq<Option<Embedding>>, b: seq<Option<Embedding>>, n: nat)
    requires n <= |a| && n <= |b| && a[..n] == b[..n]
    ensures Misses(a, n) == Misses(b, n)
  {
    if n > 0 {
      assert a[n - 1] == a[..n][n - 1] && b[n - 1] == b[..n][n - 1];
      assert a[..n - 1] == a[..n][..n - 1] && b[..n - 1] == b[..n][..n - 1];
      MissesPrefix(a, b, n - 1);
    }
  }

  /** The entries that are there; all of them when nothing is missing. */
  function Values(found: seq<Option<Embedding>>): (r: seq<Embedding>)
    ensures (forall i :: 0 <= i < |found| ==> found[i].Some?) ==>
              |r| == |found| && forall i :: 0 <= i < |found| ==> r[i] == found[i].value
  {
    if found == [] then []
    else (if found[0].Some? then [found[0].value] else []) + Values(found[1..])
  }

  /** How many misses come before index `i`. */
  function Rank(found: seq<Option<Embedding>>, i: nat): nat
    requires i <= |found|
  {
    if i == 0 then 0 else Rank(found, i - 1) + if found[i - 1].None? then 1 else 0
  }

  lemma {:induction false} RankIsSize(found: seq<Option<Embedding>>, n: nat)
    requires n <= |found|
    ensures |Misses(found, n)| == Rank(found, n)
  {
    if n > 0 {
      RankIsSize(found, n - 1);
    }
  }

  /** The miss at index `i` is listed at its rank. */
  lemma {:induction false} MissAtRank(found: seq<Option<Embedding>>, n: nat, i: nat)
    requires i < n <= |found| && found[i].None?
    ensures Rank(found, i) < |Misses(found, n)| && Misses(found, n)[Rank(found, i)] == i
    decreases n
  {
    if i < n - 1 {
      MissAtRank(found, n - 1, i);
    } else {
      RankIsSize(found, i);
    }
  }

  lemma MergedIsEmbedAll(texts: seq<string>, embed: string -> Embedding, cached: seq<Option<Embedding>>,
                         missTexts: seq<string>, missIndexes: seq<nat>, result: seq<Embedding>)
    requires |cached| == |texts| == |result| && |missTexts| == |missIndexes| && Ranked(cached, missIndexes)
    requires forall i :: 0 <= i < |texts| && cached[i].Some? ==> cached[i].value == embed(texts[i])
    requires forall k :: 0 <= k < |missIndexes| ==> missIndexes[k] < |texts| && missTexts[k] == texts[missIndexes[k]]
    requires forall i :: 0 <= i < |texts| ==> Merged(cached, EmbedAll(embed, missTexts), i) == Some(result[i])
    ensures result == EmbedAll(embed, texts)
  {
    forall i | 0 <= i < |texts|
      ensures result[i] == embed(texts[i])
    {
      assert Merged(cached, EmbedAll(embed, missTexts), i) == Some(result[i]);
    }
  }

  /** The listed misses are exactly the gaps of `cached`, each at its rank. */
  ghost predicate Ranked(cached: seq<Option<Embedding>>, missIndexes: seq<nat>) {
    forall i :: 0 <= i < |cached| && cached[i].None? ==>
      Rank(cached, i) < |missIndexes| && missIndexes[Rank(cached, i)] == i
  }

  lemma MissesRanked(cached: seq<Option<Embedding>>)
    ensures Ranked(cached, Misses(cached, |cached|))
  {
    forall i | 0 <= i < |cached| && cached[i].None?
      ensures Rank(cached, i) < |Misses(cached, |cached|)| && Misses(cached, |cached|)[Rank(cached, i)] == i
    {
      MissAtRank(cached, |cached|, i);
    }
  }

  /** What belongs at index `i`: the cached value, or the new one of its rank. */
  ghost function Merged(cached: seq<Option<Embedding>>, newEmbeddings: seq<Embedding>, i: nat): Option<Embedding>
    requires i < |cached|
  {
    if cached[i].Some? then cached[i]
    else if Rank(cached, i) < |newEmbeddings| then Some(newEmbeddings[Rank(cached, i)])
    else None
  }

  /** The merge: the next miss is always the one the loop is at, so the assertion in the source never fires. */
  method Merge(cached: seq<Option<Embedding>>, missIndexes: seq<nat>, newEmbeddings: seq<Embedding>)
    returns (result: seq<Embedding>)
    requires Ranked(cached, missIndexes) && |newEmbeddings| == |missIndexes|
    ensures |result| == |cached|
    ensures forall i :: 0 <= i < |cached| ==> Merged(cached, newEmbeddings, i) == Some(result[i])
  {
    result := [];
    var consumed := 0;
    var nextMiss, nextEmbedding := None, [];
    if consumed < |missIndexes| {
      nextMiss, nextEmbedding := Some(missIndexes[0]), newEmbeddings[0];
      consumed := 1;
    }
    for i := 0 to |cached|
      invariant |result| == i && consumed <= |missIndexes|
      invariant forall k :: 0 <= k < i ==> Merged(cached, newEmbeddings, k) == Some(result[k])
      invariant nextMiss.Some? ==> consumed == Rank(cached, i) + 1
      invariant nextMiss.Some? ==>
                  nextMiss.value == missIndexes[consumed - 1] && nextEmbedding == newEmbeddings[consumed - 1]
      invariant nextMiss.None? ==> consumed == |missIndexes| <= Rank(cached, i)
    {
      if cached[i].Some? {
        result := result + [cached[i].value];
      } else {
        assert nextMiss == Some(i);
        result := result + [nextEmbedding];
        if consumed < |missIndexes| {
          nextMiss, nextEmbedding := Some(missIndexes[consumed]), newEmbeddings[consumed];
          consumed := consumed + 1;
        } else {
          nextMiss := None;
        }
      }
    }
  }
}
