/**
 * `buildQueries`: packing the pending keys of a translation object into
 * batches under a token budget, and what the packing guarantees.
 */
module Batching {
  import opened JsObjects
  import opened JsonText

  /** The token budget of one batch. */
  const TOKEN_LIMIT: nat := 500
  /** Tokens charged per key on top of the key's own estimate. */
  const KEY_OVERHEAD: nat := 4

  /** What one key adds to a batch: `getTokenCount(key) + 4`, the estimator being a parameter. */
  function Cost(key: string, estimate: string -> nat): nat {
    estimate(key) + KEY_OVERHEAD
  }

  function TotalCost(keys: seq<string>, estimate: string -> nat): nat {
    if keys == [] then 0 else TotalCost(keys[..|keys| - 1], estimate) + Cost(keys[|keys| - 1], estimate)
  }

  function AllButLast(batch: seq<string>): seq<string>
    requires batch != []
  {
    batch[..|batch| - 1]
  }

  /** The keys of `keys` that are pending in `d`, in order. */
  function PendingKeys(keys: seq<string>, d: Dict): seq<string> {
    if keys == [] then []
    else PendingKeys(keys[..|keys| - 1], d) + (if d.IsPending(keys[|keys| - 1]) then [keys[|keys| - 1]] else [])
  }

  /** The pending keys of `d` in `Object.keys` order. */
  function Pending(d: Dict): seq<string> {
    PendingKeys(d.keys, d)
  }

  function Flatten(batches: seq<seq<string>>): seq<string> {
    if batches == [] then [] else Flatten(batches[..|batches| - 1]) + batches[|batches| - 1]
  }

  // ---------------------------------------------------------------------------
  // The packing, as the loop performs it

  /** The loop state: batches pushed so far, the batch being built, its running token count. */
  datatype Builder = Builder(pushed: seq<seq<string>>, building: seq<string>, tokens: nat)

  /** One `forEach` step: flush when the running count has reached the budget, then take the key if pending. */
  function Step(b: Builder, key: string, d: Dict, estimate: string -> nat): Builder {
    var flushed := if b.tokens >= TOKEN_LIMIT then Builder(b.pushed + [b.building], [], 0) else b;
    if d.IsPending(key) then Builder(flushed.pushed, flushed.building + [key], flushed.tokens + Cost(key, estimate))
    else flushed
  }

  function Scan(keys: seq<string>, d: Dict, estimate: string -> nat): Builder {
    if keys == [] then Builder([], [], 0)
    else Step(Scan(keys[..|keys| - 1], d, estimate), keys[|keys| - 1], d, estimate)
  }

  /** The batches `buildQueries(d)` serialises, as key lists. */
  function Batches(d: Dict, estimate: string -> nat): seq<seq<string>> {
    var b := Scan(d.keys, d, estimate);
    if |b.building| > 0 then b.pushed + [b.building] else b.pushed
  }

  /** The JSON text of each batch, in order. */
  function Queries(d: Dict, estimate: string -> nat): seq<string> {
    var batches := Batches(d, estimate);
    seq(|batches|, i requires 0 <= i < |batches| => QueryText(batches[i]))
  }

  /** `buildQueries(d)`: the JSON text of each batch. */
  method BuildQueries(d: Dict, estimate: string -> nat) returns (queries: seq<string>)
    ensures |queries| == |Batches(d, estimate)|
    ensures forall i | 0 <= i < |queries| :: queries[i] == QueryText(Batches(d, estimate)[i])
    ensures queries == Queries(d, estimate)
  {
    queries := [];
    ghost var pushed: seq<seq<string>> := [];
    var buildingTokens: nat := 0;
    var buildingQuery: seq<string> := [];
    for i := 0 to |d.keys|
      invariant Scan(d.keys[..i], d, estimate) == Builder(pushed, buildingQuery, buildingTokens)
      invariant |queries| == |pushed|
      invariant forall j | 0 <= j < |queries| :: queries[j] == QueryText(pushed[j])
    {
      var key := d.keys[i];
      if buildingTokens >= TOKEN_LIMIT {
        queries := queries + [QueryText(buildingQuery)];
        pushed := pushed + [buildingQuery];
        buildingTokens := 0;
        buildingQuery := [];
      }
      if key in d.vals && d.vals[key] == PENDING {
        buildingQuery := buildingQuery + [key];
        buildingTokens := buildingTokens + estimate(key) + KEY_OVERHEAD;
      }
      assert d.keys[..i + 1][..i] == d.keys[..i];
    }
    assert d.keys[..|d.keys|] == d.keys;
    if |buildingQuery| > 0 {
      queries := queries + [QueryText(buildingQuery)];
      pushed := pushed + [buildingQuery];
    }
  }

  // ---------------------------------------------------------------------------
  // What the packing guarantees

  /** What holds of the loop state after any prefix of the keys. */
  ghost predicate Sound(b: Builder, keys: seq<string>, d: Dict, estimate: string -> nat) {
    && Flatten(b.pushed) + b.building == PendingKeys(keys, d)
    && b.tokens == TotalCost(b.building, estimate)
    && (b.building != [] ==> TotalCost(AllButLast(b.building), estimate) < TOKEN_LIMIT)
    && (forall q | q in b.pushed ::
          q != [] && TotalCost(q, estimate) >= TOKEN_LIMIT && TotalCost(AllButLast(q), estimate) < TOKEN_LIMIT)
  }

  lemma FlattenSnoc(batches: seq<seq<string>>, batch: seq<string>)
    ensures Flatten(batches + [batch]) == Flatten(batches) + batch
  {
    assert (batches + [batch])[..|batches|] == batches;
  }

  /** A flush keeps the loop state sound and leaves a running count below the budget. */
  lemma FlushSound(b: Builder, keys: seq<string>, d: Dict, estimate: string -> nat)
    requires Sound(b, keys, d, estimate)
    ensures var flushed := if b.tokens >= TOKEN_LIMIT then Builder(b.pushed + [b.building], [], 0) else b;
      Sound(flushed, keys, d, estimate) && flushed.tokens < TOKEN_LIMIT
  {
    if b.tokens >= TOKEN_LIMIT {
      FlattenSnoc(b.pushed, b.building);
      assert b.building != [];
    }
  }

  lemma StepSound(b: Builder, keys: seq<string>, key: string, d: Dict, estimate: string -> nat)
    requires Sound(b, keys, d, estimate)
    ensures Sound(Step(b, key, d, estimate), keys + [key], d, estimate)
  {
    var flushed := if b.tokens >= TOKEN_LIMIT then Builder(b.pushed + [b.building], [], 0) else b;
    FlushSound(b, keys, d, estimate);
    if d.IsPending(key) {
      TakeSound(flushed, keys, key, d, estimate);
    } else {
      SkipSound(flushed, keys, key, d, estimate);
    }
  }

  /** Passing over a key that is not pending keeps the state sound. */
  lemma SkipSound(b: Builder, keys: seq<string>, key: string, d: Dict, estimate: string -> nat)
    requires Sound(b, keys, d, estimate) && !d.IsPending(key)
    ensures Sound(b, keys + [key], d, estimate)
  {
    assert PendingKeys(keys + [key], d) == PendingKeys(keys, d) by {
      assert (keys + [key])[..|keys|] == keys;
    }
  }

  /** Taking a pending key into a batch whose running count is below the budget keeps the state sound. */
  lemma TakeSound(b: Builder, keys: seq<string>, key: string, d: Dict, estimate: string -> nat)
    requires Sound(b, keys, d, estimate) && b.tokens < TOKEN_LIMIT && d.IsPending(key)
    ensures Sound(Builder(b.pushed, b.building + [key], b.tokens + Cost(key, estimate)), keys + [key], d, estimate)
  {
    assert PendingKeys(keys + [key], d) == PendingKeys(keys, d) + [key] by {
      assert (keys + [key])[..|keys|] == keys;
    }
    var grown := b.building + [key];
    assert grown[..|grown| - 1] == b.building;
    assert Flatten(b.pushed) + grown == (Flatten(b.pushed) + b.building) + [key];
  }

  lemma {:induction false} ScanSound(keys: seq<string>, d: Dict, estimate: string -> nat)
    ensures Sound(Scan(keys, d, estimate), keys, d, estimate)
  {
    if keys != [] {
      var init := keys[..|keys| - 1];
      ScanSound(init, d, estimate);
      StepSound(Scan(init, d, estimate), init, keys[|keys| - 1], d, estimate);
      assert init + [keys[|keys| - 1]] == keys;
    }
  }

  lemma FlattenMember(batches: seq<seq<string>>, i: nat, k: string)
    requires i < |batches| && k in batches[i]
    ensures k in Flatten(batches)
  {
    if i < |batches| - 1 {
      FlattenMember(batches[..|batches| - 1], i, k);
    }
  }

  /** A key is listed as pending exactly when it is a key of `keys` whose value in `d` is `""`. */
  lemma {:induction false} PendingKeysMembers(keys: seq<string>, d: Dict)
    ensures forall k :: k in PendingKeys(keys, d) <==> k in keys && d.IsPending(k)
  {
    if keys != [] {
      PendingKeysMembers(keys[..|keys| - 1], d);
      assert keys == keys[..|keys| - 1] + [keys[|keys| - 1]];
    }
  }

  lemma {:induction false} PendingKeysDistinct(keys: seq<string>, d: Dict)
    requires Distinct(keys)
    ensures Distinct(PendingKeys(keys, d))
  {
    if keys != [] {
      var init := keys[..|keys| - 1];
      PendingKeysDistinct(init, d);
      PendingKeysMembers(init, d);
      assert keys[|keys| - 1] !in init;
    }
  }

  /**
   * The batches, joined in order, are exactly the pending keys in key order,
   * each key once: every pending key is sent, and no resolved key is.
   */
  lemma BatchesPartitionPending(d: Dict, estimate: string -> nat)
    requires d.Valid()
    ensures Flatten(Batches(d, estimate)) == Pending(d)
    ensures Distinct(Pending(d))
    ensures forall k :: k in Pending(d) <==> d.IsPending(k)
  {
    var b := Scan(d.keys, d, estimate);
    ScanSound(d.keys, d, estimate);
    if |b.building| > 0 {
      FlattenSnoc(b.pushed, b.building);
    } else {
      assert Flatten(b.pushed) + b.building == Flatten(b.pushed);
    }
    PendingKeysMembers(d.keys, d);
    PendingKeysDistinct(d.keys, d);
  }

  /** Every key in every batch is pending, and no batch is empty. */
  lemma BatchesHoldPendingKeys(d: Dict, estimate: string -> nat)
    requires d.Valid()
    ensures forall i | 0 <= i < |Batches(d, estimate)| :: Batches(d, estimate)[i] != []
    ensures forall i, k | 0 <= i < |Batches(d, estimate)| && k in Batches(d, estimate)[i] :: d.IsPending(k)
  {
    var b := Scan(d.keys, d, estimate);
    var bs := Batches(d, estimate);
    ScanSound(d.keys, d, estimate);
    BatchesPartitionPending(d, estimate);
    forall i | 0 <= i < |bs| ensures bs[i] != [] {
      if i < |b.pushed| {
        assert bs[i] in b.pushed;
      }
    }
    forall i, k | 0 <= i < |bs| && k in bs[i] ensures d.IsPending(k) {
      FlattenMember(bs, i, k);
    }
  }

  /**
   * The token budget: in every batch the keys before the last one cost less
   * than 500 together, and every batch but the last costs at least 500.
   */
  lemma BatchesTokenBound(d: Dict, estimate: string -> nat)
    ensures forall i | 0 <= i < |Batches(d, estimate)| ::
      Batches(d, estimate)[i] != [] && TotalCost(AllButLast(Batches(d, estimate)[i]), estimate) < TOKEN_LIMIT
    ensures forall i | 0 <= i < |Batches(d, estimate)| - 1 :: TotalCost(Batches(d, estimate)[i], estimate) >= TOKEN_LIMIT
  {
    var b := Scan(d.keys, d, estimate);
    ScanSound(d.keys, d, estimate);
    var bs := Batches(d, estimate);
    forall i | 0 <= i < |bs| - 1 ensures TotalCost(bs[i], estimate) >= TOKEN_LIMIT {
      assert bs[i] in b.pushed;
    }
    forall i | 0 <= i < |bs| ensures bs[i] != [] && TotalCost(AllButLast(bs[i]), estimate) < TOKEN_LIMIT {
      if i < |b.pushed| {
        assert bs[i] in b.pushed;
      }
    }
  }

  /** `buildQueries` returns no batch exactly when no key is pending: the loop's stopping test. */
  lemma NoBatchesIffNoPending(d: Dict, estimate: string -> nat)
    requires d.Valid()
    ensures Batches(d, estimate) == [] <==> NoPending(d)
    ensures Queries(d, estimate) == [] <==> NoPending(d)
  {
    assert |Queries(d, estimate)| == |Batches(d, estimate)|;
    var bs := Batches(d, estimate);
    BatchesPartitionPending(d, estimate);
    BatchesHoldPendingKeys(d, estimate);
    if bs != [] {
      assert bs[0] != [];
      FlattenMember(bs, 0, bs[0][0]);
      assert d.IsPending(bs[0][0]);
    } else {
      assert Pending(d) == [];
      forall k | k in d.vals ensures d.vals[k] != PENDING {
        assert d.IsPending(k) ==> k in Pending(d);
      }
    }
  }
}
