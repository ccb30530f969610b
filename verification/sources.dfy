/**
 * Preparing and finishing the translation object of one (namespace, language)
 * pair: `formatTranslateStrings`, `addMissingSourceTranslations` and the merge
 * inside `mergeExistingTranslations`. The files themselves are read elsewhere;
 * here a file's content is `Some` object, or `None` when the file is missing
 * or does not parse.
 */
module Sources {
  import opened Wrappers
  import opened JsObjects

  /** The configured `translateStrings`, by the shape the two guards test. */
  datatype Source =
    | StringList(items: seq<string>)  // an array
    | StringObject(obj: Dict)         // a plain object, whose keys are the strings
    | OtherShape                      // anything else, `null` and `undefined` included

  /** `keys.forEach((key) => d[key] = "")`, the keys taken in order. */
  function PutPending(d: Dict, keys: seq<string>): Dict {
    if keys == [] then d else PutPending(d, keys[..|keys| - 1]).Put(keys[|keys| - 1], PENDING)
  }

  /**
   * Setting keys to `""` one by one keeps the object well formed, adds exactly
   * the keys not yet there (after the existing ones), makes every one of them
   * pending and leaves every other value alone.
   */
  lemma PutPendingSpec(d: Dict, keys: seq<string>)
    ensures var r := PutPending(d, keys);
      && (d.Valid() ==> r.Valid())
      && (forall k :: k in r.vals <==> k in d.vals || k in keys)
      && (forall k | k in keys :: k in r.vals && r.vals[k] == PENDING)
      && (forall k | k in d.vals && k !in keys :: k in r.vals && r.vals[k] == d.vals[k])
      && |d.keys| <= |r.keys| && r.keys[..|d.keys|] == d.keys
  {
    PutPendingValid(d, keys);
    PutPendingValues(d, keys);
    PutPendingPrefix(d, keys);
  }

  lemma {:induction false} PutPendingValid(d: Dict, keys: seq<string>)
    ensures d.Valid() ==> PutPending(d, keys).Valid()
  {
    if keys != [] {
      PutPendingValid(d, keys[..|keys| - 1]);
    }
  }

  /** What `PutPending(d, keys)` holds, as a relation between `d`, `keys` and the result `r`. */
  ghost predicate PendingOver(d: Dict, keys: seq<string>, r: Dict) {
    && (forall k :: k in r.vals <==> k in d.vals || k in keys)
    && (forall k | k in keys :: k in r.vals && r.vals[k] == PENDING)
    && (forall k | k in d.vals && k !in keys :: k in r.vals && r.vals[k] == d.vals[k])
  }

  lemma PendingOverStep(d: Dict, init: seq<string>, last: string, prev: Dict)
    requires PendingOver(d, init, prev)
    ensures PendingOver(d, init + [last], prev.Put(last, PENDING))
  {
    var keys, r := init + [last], prev.Put(last, PENDING);
    forall k
      ensures k in r.vals <==> k in d.vals || k in keys
      ensures k in keys ==> k in r.vals && r.vals[k] == PENDING
      ensures k in d.vals && k !in keys ==> k in r.vals && r.vals[k] == d.vals[k]
    {
      assert k in keys <==> k in init || k == last;
    }
  }

  lemma {:induction false} PutPendingValues(d: Dict, keys: seq<string>)
    ensures PendingOver(d, keys, PutPending(d, keys))
  {
    if keys != [] {
      var init, last := keys[..|keys| - 1], keys[|keys| - 1];
      assert keys == init + [last];
      assert PutPending(d, keys) == PutPending(d, init).Put(last, PENDING);
      PutPendingValues(d, init);
      PendingOverStep(d, init, last, PutPending(d, init));
    }
  }

  lemma {:induction false} PutPendingPrefix(d: Dict, keys: seq<string>)
    ensures var r := PutPending(d, keys);
      |d.keys| <= |r.keys| && r.keys[..|d.keys|] == d.keys
  {
    if keys != [] {
      var prev := PutPending(d, keys[..|keys| - 1]);
      PutPendingPrefix(d, keys[..|keys| - 1]);
      assert prev.Put(keys[|keys| - 1], PENDING).keys[..|prev.keys|] == prev.keys;
      assert prev.Put(keys[|keys| - 1], PENDING).keys[..|d.keys|] == prev.keys[..|d.keys|];
    }
  }

  /**
   * `formatTranslateStrings(translateStrings)`: every string becomes a pending
   * key; `None` is the `null` returned for any other shape. The object guard
   * tests `a.constructor === Object`, so an object with an own `constructor`
   * key (a JSON value, never the `Object` function) is refused too.
   */
  function FormatTranslateStrings(src: Source): (r: Option<Dict>)
    ensures r.None? <==> src.OtherShape? || (src.StringObject? && "constructor" in src.obj.vals)
    ensures r.Some? ==> forall k | k in r.value.vals :: r.value.vals[k] == PENDING
    ensures src.StringList? ==> r.Some? && r.value.Valid() && (forall k :: k in r.value.vals <==> k in src.items)
    ensures src.StringObject? && r.Some? ==> r.value.keys == src.obj.keys
    ensures src.StringObject? && src.obj.Valid() && r.Some? ==>
      r.value.Valid() && (forall k :: k in r.value.vals <==> k in src.obj.vals)
  {
    match src
    case StringList(items) =>
      PutPendingSpec(EMPTY, items);
      Some(PutPending(EMPTY, items))
    case StringObject(obj) =>
      if "constructor" in obj.vals then None
      else Some(Dict(obj.keys, map k | k in obj.keys :: PENDING))
    case OtherShape => None
  }

  // ---------------------------------------------------------------------------
  // addMissingSourceTranslations

  /** The keys of `keys` whose value in `output` is falsy (`!outputJSON[key]`), in order. */
  function FalsyKeys(keys: seq<string>, output: Dict): (r: seq<string>)
    ensures forall k :: k in r <==> k in keys && !output.HasTruthy(k)
  {
    if keys == [] then []
    else
      var last := keys[|keys| - 1];
      assert keys == keys[..|keys| - 1] + [last];
      FalsyKeys(keys[..|keys| - 1], output) + (if output.HasTruthy(last) then [] else [last])
  }

  /** The copy `{ ...translateStrings }`; spreading `null` gives `{}`. */
  function Spread(translateStrings: Option<Dict>): Dict {
    if translateStrings.Some? then translateStrings.value else EMPTY
  }

  /** What `addMissingSourceTranslations` returns. */
  function MissingAdded(translateStrings: Option<Dict>, sourceJSON: Option<Dict>, outputJSON: Option<Dict>): Dict {
    match (sourceJSON, outputJSON)
    case (Some(source), Some(output)) => PutPending(Spread(translateStrings), FalsyKeys(source.keys, output))
    case (Some(source), None) => PutPending(Spread(translateStrings), source.keys)
    case _ => Spread(translateStrings)
  }

  lemma PutPendingSnoc(d: Dict, keys: seq<string>, key: string)
    ensures PutPending(d, keys + [key]) == PutPending(d, keys).Put(key, PENDING)
  {
    assert (keys + [key])[..|keys|] == keys;
  }

  lemma FalsyKeysSnoc(keys: seq<string>, key: string, output: Dict)
    ensures FalsyKeys(keys + [key], output) == FalsyKeys(keys, output) + (if output.HasTruthy(key) then [] else [key])
  {
    assert (keys + [key])[..|keys|] == keys;
  }

  /** `addMissingSourceTranslations(translateStrings, sourceJSON, outputJSON)`: a new object. */
  method AddMissingSourceTranslations(translateStrings: Option<Dict>, sourceJSON: Option<Dict>, outputJSON: Option<Dict>)
    returns (merged: JsObject)
    ensures fresh(merged)
    ensures merged.Value() == MissingAdded(translateStrings, sourceJSON, outputJSON)
  {
    merged := new JsObject.Copy(Spread(translateStrings));
    if sourceJSON.Some? && outputJSON.Some? {
      PendFalsy(merged, sourceJSON.value.keys, outputJSON.value);
    } else if sourceJSON.Some? && outputJSON.None? {
      PendAll(merged, sourceJSON.value.keys);
    }
  }

  /** The loop of the first branch: `merged[key] = ""` for each key whose value in `output` is falsy. */
  method PendFalsy(merged: JsObject, keys: seq<string>, output: Dict)
    modifies merged
    ensures merged.Value() == PutPending(old(merged.Value()), FalsyKeys(keys, output))
  {
    ghost var base := merged.Value();
    for i := 0 to |keys|
      invariant merged.Value() == PutPending(base, FalsyKeys(keys[..i], output))
    {
      var key := keys[i];
      ghost var done := FalsyKeys(keys[..i], output);
      FalsyKeysSnoc(keys[..i], key, output);
      if !output.HasTruthy(key) {
        PutPendingSnoc(base, done, key);
        merged.Put(key, PENDING);
      } else {
        assert done + [] == done;
      }
      assert keys[..i + 1] == keys[..i] + [key];
    }
    assert keys[..|keys|] == keys;
  }

  /** The loop of the second branch: `merged[key] = ""` for every key. */
  method PendAll(merged: JsObject, keys: seq<string>)
    modifies merged
    ensures merged.Value() == PutPending(old(merged.Value()), keys)
  {
    ghost var base := merged.Value();
    for i := 0 to |keys|
      invariant merged.Value() == PutPending(base, keys[..i])
    {
      var key := keys[i];
      PutPendingSnoc(base, keys[..i], key);
      merged.Put(key, PENDING);
      assert keys[..i + 1] == keys[..i] + [key];
    }
    assert keys[..|keys|] == keys;
  }

  /**
   * The object `addMissingSourceTranslations` builds keeps every key of the
   * configured strings; with both files, every source key whose output value
   * is falsy becomes pending and no other key is added; with only the source
   * file, every source key becomes pending; otherwise it is the plain copy.
   */
  lemma MissingAddedSpec(translateStrings: Option<Dict>, sourceJSON: Option<Dict>, outputJSON: Option<Dict>)
    ensures var r, base := MissingAdded(translateStrings, sourceJSON, outputJSON), Spread(translateStrings);
      && (base.Valid() ==> r.Valid())
      && (forall k | k in base.vals :: k in r.vals)
      && (sourceJSON.Some? && outputJSON.Some? ==>
            && (forall k | k in sourceJSON.value.keys && !outputJSON.value.HasTruthy(k) :: r.IsPending(k))
            && (forall k | k in r.vals :: k in base.vals || (k in sourceJSON.value.keys && !outputJSON.value.HasTruthy(k)))
            && (forall k | k in base.vals && (k !in sourceJSON.value.keys || outputJSON.value.HasTruthy(k)) ::
                  k in r.vals && r.vals[k] == base.vals[k]))
      && (sourceJSON.Some? && outputJSON.None? ==>
            && (forall k | k in sourceJSON.value.keys :: r.IsPending(k))
            && (forall k | k in r.vals :: k in base.vals || k in sourceJSON.value.keys)
            && (forall k | k in base.vals && k !in sourceJSON.value.keys :: k in r.vals && r.vals[k] == base.vals[k]))
      && (sourceJSON.None? ==> r == base)
  {
    var base := Spread(translateStrings);
    match (sourceJSON, outputJSON)
    case (Some(source), Some(output)) => PutPendingSpec(base, FalsyKeys(source.keys, output));
    case (Some(source), None) => PutPendingSpec(base, source.keys);
    case _ =>
  }

  // ---------------------------------------------------------------------------
  // mergeExistingTranslations

  /** `a` is `b` with some elements left out: the elements of `a` appear in `b`, in the same order. */
  predicate Subsequence(a: seq<string>, b: seq<string>)
    decreases |b|
  {
    if a == [] then true
    else if b == [] then false
    else if a[0] == b[0] then Subsequence(a[1..], b[1..])
    else Subsequence(a, b[1..])
  }

  /** The keys of `keys` that `existing` lacks, in order. */
  function NewKeys(keys: seq<string>, existing: map<string, Json>): (r: seq<string>)
    ensures forall k :: k in r <==> k in keys && k !in existing
    ensures Subsequence(r, keys)
    ensures Distinct(keys) ==> Distinct(r)
  {
    if keys == [] then []
    else
      var rest := NewKeys(keys[1..], existing);
      assert keys == [keys[0]] + keys[1..];
      if keys[0] in existing then
        assert rest == [] || rest[0] != keys[0];
        rest
      else
        assert ([keys[0]] + rest)[1..] == rest;
        [keys[0]] + rest
  }

  /**
   * `{ ...existing, ...result }` when the output file holds an object, and
   * `result` itself otherwise: existing keys keep their places, new keys follow
   * in `result`'s order, and `result`'s values win.
   */
  function MergeExistingTranslations(result: Dict, existing: Option<Dict>): (r: Dict)
    ensures existing.None? ==> r == result
    ensures existing.Some? ==>
      && (forall k :: k in r.vals <==> k in existing.value.vals || k in result.vals)
      && (forall k | k in result.vals :: r.vals[k] == result.vals[k])
      && (forall k | k in existing.value.vals && k !in result.vals :: r.vals[k] == existing.value.vals[k])
      && |existing.value.keys| <= |r.keys| && r.keys[..|existing.value.keys|] == existing.value.keys
    ensures existing.Some? && existing.value.Valid() && result.Valid() ==> r.Valid()
  {
    match existing
    case None => result
    case Some(e) =>
      var added := NewKeys(result.keys, e.vals);
      var r := Dict(e.keys + added, e.vals + result.vals);
      assert r.keys[..|e.keys|] == e.keys;
      if e.Valid() && result.Valid() then
        DistinctAppend(e.keys, added);
        r
      else r
  }

  lemma DistinctAppend(a: seq<string>, b: seq<string>)
    requires Distinct(a) && Distinct(b)
    requires forall x | x in b :: x !in a
    ensures Distinct(a + b)
  {
    forall i, j | 0 <= i < j < |a + b| ensures (a + b)[i] != (a + b)[j] {
      if j >= |a| && i < |a| {
        assert (a + b)[j] in b;
      }
    }
  }

  /** An example: existing `{a: "1", b: "2"}` and new `{b: "3", c: "4"}` give `{a: "1", b: "3", c: "4"}`. */
  lemma MergeExample()
    ensures MergeExistingTranslations(
              Dict(["b", "c"], map["b" := JString("3"), "c" := JString("4")]),
              Some(Dict(["a", "b"], map["a" := JString("1"), "b" := JString("2")])))
         == Dict(["a", "b", "c"], map["a" := JString("1"), "b" := JString("3"), "c" := JString("4")])
  {
    var existing := map["a" := JString("1"), "b" := JString("2")];
    var result := map["b" := JString("3"), "c" := JString("4")];
    assert NewKeys(["c"], existing) == ["c"] by {
      assert ["c"][1..] == [];
    }
    assert NewKeys(["b", "c"], existing) == ["c"] by {
      assert ["b", "c"][1..] == ["c"];
    }
    assert ["a", "b"] + ["c"] == ["a", "b", "c"];
    assert existing + result == map["a" := JString("1"), "b" := JString("3"), "c" := JString("4")];
  }
}
