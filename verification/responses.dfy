/**
 * `generateAppliedResponse`: writing one parsed model response into the
 * translation object being built, in place.
 */
module Responses {
  import opened Wrappers
  import opened JsObjects
  import opened JsonText

  /** After the `forEach` has visited `visited`: a visited key takes the parsed value if it was still pending. */
  function ApplyKeys(d: Dict, parsed: Dict, visited: seq<string>): Dict {
    Dict(d.keys, map k | k in d.vals ::
      if d.vals[k] == PENDING && k in visited && k in parsed.vals then parsed.vals[k] else d.vals[k])
  }

  /** The whole `forEach` over `Object.keys(parsedResponse)`. */
  function ApplyParsed(d: Dict, parsed: Dict): Dict {
    ApplyKeys(d, parsed, parsed.keys)
  }

  /** The object after `generateAppliedResponse(response, d)`: unchanged when the response does not parse. */
  function Applied(d: Dict, response: string, parse: string -> Option<Dict>): Dict {
    match ParseResponse(response, parse)
    case None => d
    case Some(parsed) => ApplyParsed(d, parsed)
  }

  /** `after` has the keys of `before`, in the same order, and every resolved value of `before`. */
  ghost predicate KeepsResolved(before: Dict, after: Dict) {
    && after.keys == before.keys
    && (forall k :: k in after.vals <==> k in before.vals)
    && (forall k | k in before.vals && before.vals[k] != PENDING :: after.vals[k] == before.vals[k])
  }

  /** `generateAppliedResponse(response, output)`: changes `output` itself and returns it. */
  method GenerateAppliedResponse(response: string, output: JsObject, parse: string -> Option<Dict>)
    returns (applied: JsObject)
    requires ObjectParser(parse)
    modifies output
    ensures applied == output
    ensures output.Value() == Applied(old(output.Value()), response, parse)
  {
    applied := output;
    var parsedResponse := ParseResponse(response, parse);
    if parsedResponse.None? {
      return;
    }
    var parsed := parsedResponse.value;
    assert parsed.Valid();
    ghost var d0 := output.Value();
    for i := 0 to |parsed.keys|
      invariant output.Value() == ApplyKeys(d0, parsed, parsed.keys[..i])
    {
      var key := parsed.keys[i];
      ApplyKeysStep(d0, parsed, parsed.keys[..i], key);
      if key in output.vals && output.vals[key] == PENDING {
        output.Put(key, parsed.vals[key]);
      }
      assert parsed.keys[..i + 1] == parsed.keys[..i] + [key];
    }
    assert parsed.keys[..|parsed.keys|] == parsed.keys;
  }

  /** Visiting one more key of the response is one assignment, made only if the key is still pending. */
  lemma ApplyKeysStep(d: Dict, parsed: Dict, visited: seq<string>, key: string)
    requires key in parsed.vals
    ensures var cur := ApplyKeys(d, parsed, visited);
      ApplyKeys(d, parsed, visited + [key]) ==
        if key in cur.vals && cur.vals[key] == PENDING then cur.Put(key, parsed.vals[key]) else cur
  {
    var cur := ApplyKeys(d, parsed, visited);
    var next := ApplyKeys(d, parsed, visited + [key]);
    if key in cur.vals && cur.vals[key] == PENDING {
      assert next.vals == cur.Put(key, parsed.vals[key]).vals;
    } else {
      assert next.vals == cur.vals;
    }
  }

  // ---------------------------------------------------------------------------
  // Properties

  /** Applying a response adds no key, moves no key, and overwrites no resolved value. */
  lemma AppliedKeepsResolved(d: Dict, response: string, parse: string -> Option<Dict>)
    ensures KeepsResolved(d, Applied(d, response, parse))
    ensures d.Valid() ==> Applied(d, response, parse).Valid()
    ensures ParseResponse(response, parse).None? ==> Applied(d, response, parse) == d
  {
  }

  /** Exactly the keys that are pending in the output and present in the parsed response change. */
  lemma AppliedChangesExactly(d: Dict, response: string, parse: string -> Option<Dict>, k: string)
    requires ObjectParser(parse)
    requires k in d.vals
    ensures Applied(d, response, parse).vals[k] != d.vals[k] ==>
      d.IsPending(k) && ParseResponse(response, parse).Some? && k in ParseResponse(response, parse).value.vals
    ensures d.IsPending(k) && ParseResponse(response, parse).Some? && k in ParseResponse(response, parse).value.vals ==>
      Applied(d, response, parse).vals[k] == ParseResponse(response, parse).value.vals[k]
  {
  }

  /** Applying the same response twice gives what applying it once gives. */
  lemma AppliedIdempotent(d: Dict, response: string, parse: string -> Option<Dict>)
    ensures Applied(Applied(d, response, parse), response, parse) == Applied(d, response, parse)
  {
    match ParseResponse(response, parse)
    case None =>
    case Some(parsed) =>
      var once := ApplyParsed(d, parsed);
      var twice := ApplyParsed(once, parsed);
      assert twice.vals == once.vals;
  }

  lemma KeepsResolvedTransitive(a: Dict, b: Dict, c: Dict)
    requires KeepsResolved(a, b) && KeepsResolved(b, c)
    ensures KeepsResolved(a, c)
  {
  }
}
