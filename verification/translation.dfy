/**
 * `translate`: the loop that batches the pending keys, sends each batch to the
 * completion provider, checks and applies the answers, and starts over until
 * nothing is pending; and the pipeline of one (namespace, language) pair around
 * it. The provider is a parameter: its answer to the n-th call with a given
 * prompt, or `None` when `sendQuery` caught an error and returned `undefined`.
 */
module Translation {
  import opened Wrappers
  import opened JsObjects
  import opened JsonText
  import opened Placeholders
  import opened Batching
  import opened Responses
  import opened Sources

  // ---------------------------------------------------------------------------
  // generatePrompt

  const PROMPT_HEAD: string :=
    "This JSON is used in a platform implementing i18n, return it with the empty value strings filled in with the translation of the keys into "
  const PROMPT_RULES: string :=
    ". Values in {{}} are used for interpolation, so they should be placed correctly but anything inside {{}} should be not be translated. JSON ONLY. NO DISCUSSION. DON'T ALTER THE KEYS. ALWAYS FILL IN THE EMPTY STRINGS WITH A TRANSLATION:  "

  /** The content of the single user message `generatePrompt(query, language)` builds. */
  function GeneratePrompt(query: string, language: string): (prompt: string)
    ensures Frames(prompt, PROMPT_HEAD, language, PROMPT_RULES, query)
  {
    JoinFour(PROMPT_HEAD, language, PROMPT_RULES, query);
    PROMPT_HEAD + language + PROMPT_RULES + query + " "
  }

  /**
   * `p` is `head`, then `language`, then `rules`, then `query`, then one
   * trailing space: each part sits where the previous one ends.
   */
  predicate Frames(p: string, head: string, language: string, rules: string, query: string) {
    var at := |head| + |language| + |rules|;
    && |p| == at + |query| + 1
    && p[..|head|] == head
    && p[|head|..|head| + |language|] == language
    && p[|head| + |language|..at] == rules
    && p[at..at + |query|] == query
    && p[|p| - 1] == ' '
  }

  /** Where each of four joined texts, and the trailing space, sits in the result. */
  lemma JoinFour(a: string, b: string, c: string, d: string)
    ensures Frames(a + b + c + d + " ", a, b, c, d)
  {
  }

  /** The query and the language can be read back from a prompt: different requests give different prompts. */
  lemma PromptInjective(q1: string, q2: string, language: string)
    requires GeneratePrompt(q1, language) == GeneratePrompt(q2, language)
    ensures q1 == q2
  {
    var at := |PROMPT_HEAD| + |language| + |PROMPT_RULES|;
    var p := GeneratePrompt(q1, language);
    assert q1 == p[at..at + |q1|];
  }

  // ---------------------------------------------------------------------------
  // One pass: the `for ... of queries` loop

  /**
   * `sendQuery(query, language)` as call number `n`: the provider's answer to
   * the prompt built for the query.
   */
  function Ask(provider: (nat, string) -> Option<string>, language: string): (nat, string) -> Option<string> {
    (n: nat, query: string) => provider(n, GeneratePrompt(query, language))
  }

  /** What a pass leaves: the object, whether a call failed, and the number of calls made so far. */
  datatype PassResult = PassResult(d: Dict, crashed: bool, calls: nat)

  /**
   * One pass over `queries`, the first call being call number `calls`: each
   * query is sent with `ask`, an answer that passes `isValidInterpolations` is
   * applied, and a failed call (`undefined`, on which the check throws) ends
   * the pass.
   */
  function Pass(d: Dict, queries: seq<string>, parse: string -> Option<Dict>,
                ask: (nat, string) -> Option<string>, calls: nat): PassResult
    decreases |queries|
  {
    if queries == [] then PassResult(d, false, calls)
    else
      match ask(calls, queries[0])
      case None => PassResult(d, true, calls + 1)
      case Some(answer) => Pass(PassStep(d, queries[0], answer, parse), queries[1..], parse, ask, calls + 1)
  }

  /** What one answer does to `output`: applied when it passes the placeholder check, ignored otherwise. */
  function PassStep(d: Dict, query: string, answer: string, parse: string -> Option<Dict>): Dict {
    if IsValidInterpolationsAsWritten(query, answer) then Applied(d, answer, parse) else d
  }

  /** A pass adds no key, moves no key, overwrites no resolved value, and keeps the object well formed. */
  lemma {:induction false} PassKeepsResolved(d: Dict, queries: seq<string>, parse: string -> Option<Dict>,
                                            ask: (nat, string) -> Option<string>, calls: nat)
    requires ObjectParser(parse)
    ensures var p := Pass(d, queries, parse, ask, calls);
      && KeepsResolved(d, p.d)
      && (d.Valid() ==> p.d.Valid())
    decreases |queries|
  {
    if queries != [] {
      match ask(calls, queries[0])
      case None =>
      case Some(answer) =>
        var next := PassStep(d, queries[0], answer, parse);
        AppliedKeepsResolved(d, answer, parse);
        PassKeepsResolved(next, queries[1..], parse, ask, calls + 1);
        KeepsResolvedTransitive(d, next, Pass(next, queries[1..], parse, ask, calls + 1).d);
    }
  }

  /** Some call of a pass over `queries`, numbered from `calls`, gets no answer. */
  predicate SomeCallFails(queries: seq<string>, ask: (nat, string) -> Option<string>, calls: nat) {
    exists i | 0 <= i < |queries| :: ask(calls + i, queries[i]).None?
  }

  /**
   * A pass fails exactly when one of its calls gets no answer; otherwise it
   * makes one call per query, the i-th query being call number `calls + i`.
   */
  lemma {:induction false} PassCrashedIff(d: Dict, queries: seq<string>, parse: string -> Option<Dict>,
                                         ask: (nat, string) -> Option<string>, calls: nat)
    ensures var p := Pass(d, queries, parse, ask, calls);
      && (p.crashed <==> SomeCallFails(queries, ask, calls))
      && (!p.crashed ==> p.calls == calls + |queries|)
    decreases |queries|
  {
    if queries != [] {
      if ask(calls, queries[0]).None? {
        assert ask(calls + 0, queries[0]).None?;
      } else {
        PassCrashedAfter(d, queries, parse, ask, calls);
      }
    }
  }

  /** The step of `PassCrashedIff` after a first call that was answered. */
  lemma {:induction false} PassCrashedAfter(d: Dict, queries: seq<string>, parse: string -> Option<Dict>,
                                           ask: (nat, string) -> Option<string>, calls: nat)
    requires queries != [] && ask(calls, queries[0]).Some?
    ensures var p := Pass(d, queries, parse, ask, calls);
      && (p.crashed <==> SomeCallFails(queries, ask, calls))
      && (!p.crashed ==> p.calls == calls + |queries|)
    decreases |queries|, 0
  {
    var answer := ask(calls, queries[0]).value;
    PassUnfold(d, queries, parse, ask, calls);
    PassCrashedIff(PassStep(d, queries[0], answer, parse), queries[1..], parse, ask, calls + 1);
    FailedCallShift(queries, ask, calls);
  }

  /** `Pass` after an answered first call is the pass over the rest, from the state that answer leaves. */
  lemma PassUnfold(d: Dict, queries: seq<string>, parse: string -> Option<Dict>,
                   ask: (nat, string) -> Option<string>, calls: nat)
    requires queries != [] && ask(calls, queries[0]).Some?
    ensures Pass(d, queries, parse, ask, calls)
         == Pass(PassStep(d, queries[0], ask(calls, queries[0]).value, parse), queries[1..], parse, ask, calls + 1)
  {
  }

  /** After an answered first call, a call of the rest fails exactly when a call of the whole fails. */
  lemma FailedCallShift(queries: seq<string>, ask: (nat, string) -> Option<string>, calls: nat)
    requires queries != [] && ask(calls, queries[0]).Some?
    ensures SomeCallFails(queries[1..], ask, calls + 1) <==> SomeCallFails(queries, ask, calls)
  {
    var rest := queries[1..];
    if SomeCallFails(rest, ask, calls + 1) {
      var i :| 0 <= i < |rest| && ask(calls + 1 + i, rest[i]).None?;
      assert ask(calls + (i + 1), queries[i + 1]).None?;
    } else {
      forall i | 0 <= i < |queries| ensures ask(calls + i, queries[i]).Some? {
        if i > 0 {
          assert queries[i] == rest[i - 1];
          assert !ask(calls + 1 + (i - 1), rest[i - 1]).None?;
        }
      }
    }
  }

  /**
   * The `for ... of queries` loop of one pass: send each query, and apply each
   * answer that passes the placeholder check to `output`. Stops at the first
   * failed call (`crashed`); `calls` counts the calls made so far.
   */
  method SendQueries(queries: seq<string>, language: string, parse: string -> Option<Dict>,
                     provider: (nat, string) -> Option<string>, calls0: nat, output: JsObject)
    returns (crashed: bool, calls: nat)
    requires output.Valid() && ObjectParser(parse)
    modifies output
    ensures output.Valid()
    ensures var p := Pass(old(output.Value()), queries, parse, Ask(provider, language), calls0);
      output.Value() == p.d && crashed == p.crashed && calls == p.calls
  {
    ghost var d0 := output.Value();
    ghost var ask := Ask(provider, language);
    PassKeepsResolved(d0, queries, parse, ask, calls0);
    calls := calls0;
    for q := 0 to |queries|
      invariant Pass(output.Value(), queries[q..], parse, ask, calls) == Pass(d0, queries, parse, ask, calls0)
    {
      assert queries[q..][0] == queries[q] && queries[q..][1..] == queries[q + 1..];
      var response := provider(calls, GeneratePrompt(queries[q], language));
      assert response == ask(calls, queries[q]);
      calls := calls + 1;
      if response.None? {
        return true, calls;
      }
      if IsValidInterpolationsAsWritten(queries[q], response.value) {
        var applied := GenerateAppliedResponse(response.value, output, parse);
      }
    }
    assert queries[|queries|..] == [];
    crashed := false;
  }

  // ---------------------------------------------------------------------------
  // translate

  /**
   * How a run of `translate` ends: it returned (nothing pending), the provider
   * failed (`str.match` of `undefined` throws and the run is lost), or the
   * model's bound on the number of passes ran out.
   */
  datatype Status = Finished | Crashed | Exhausted

  /**
   * The `while` loop of `translate`, at most `fuel` passes: build the queries
   * of what is still pending, stop when there are none, otherwise run a pass
   * and start over.
   */
  function Run(d: Dict, estimate: string -> nat, parse: string -> Option<Dict>,
               ask: (nat, string) -> Option<string>, calls: nat, fuel: nat): (Status, Dict)
    decreases fuel
  {
    var queries := Queries(d, estimate);
    if queries == [] then (Finished, d)
    else if fuel == 0 then (Exhausted, d)
    else
      var p := Pass(d, queries, parse, ask, calls);
      if p.crashed then (Crashed, p.d)
      else Run(p.d, estimate, parse, ask, p.calls, fuel - 1)
  }

  /**
   * However a run ends, every key is still there in its place and every value
   * that was not `""` is unchanged; a finished run leaves no `""` value.
   */
  lemma {:induction false} RunSpec(d: Dict, estimate: string -> nat, parse: string -> Option<Dict>,
                                  ask: (nat, string) -> Option<string>, calls: nat, fuel: nat)
    requires d.Valid() && ObjectParser(parse)
    ensures var (status, r) := Run(d, estimate, parse, ask, calls, fuel);
      && r.Valid()
      && KeepsResolved(d, r)
      && (status == Finished ==> NoPending(r))
    decreases fuel
  {
    var queries := Queries(d, estimate);
    NoBatchesIffNoPending(d, estimate);
    if queries != [] && fuel > 0 {
      var p := Pass(d, queries, parse, ask, calls);
      var remaining: nat :| fuel == remaining + 1;
      PassKeepsResolved(d, queries, parse, ask, calls);
      RunAfterPass(d, estimate, parse, ask, calls, fuel, remaining, p.d, p.crashed, p.calls);
      if !p.crashed {
        RunSpec(p.d, estimate, parse, ask, p.calls, remaining);
        KeepsResolvedTransitive(d, p.d, Run(p.d, estimate, parse, ask, p.calls, remaining).1);
      }
    }
  }

  /** An object with nothing pending is returned at once, unchanged, whatever the provider would say. */
  lemma NothingPendingRun(d: Dict, estimate: string -> nat, parse: string -> Option<Dict>,
                          ask: (nat, string) -> Option<string>, calls: nat, fuel: nat)
    requires d.Valid() && NoPending(d)
    ensures Run(d, estimate, parse, ask, calls, fuel) == (Finished, d)
  {
    NoBatchesIffNoPending(d, estimate);
  }

  /**
   * A run whose pending keys fit one batch, answered at the first call with a
   * text that passes the check and parses to an object giving every pending
   * key a non-empty value, finishes after one pass with those values.
   */
  lemma OneBatchRun(d: Dict, estimate: string -> nat, parse: string -> Option<Dict>,
                    ask: (nat, string) -> Option<string>, calls: nat, answer: string)
    requires d.Valid() && ObjectParser(parse)
    requires |Queries(d, estimate)| == 1
    requires ask(calls, Queries(d, estimate)[0]) == Some(answer)
    requires IsValidInterpolationsAsWritten(Queries(d, estimate)[0], answer)
    requires ParseResponse(answer, parse).Some?
    requires forall k | d.IsPending(k) ::
      k in ParseResponse(answer, parse).value.vals && ParseResponse(answer, parse).value.vals[k] != PENDING
    ensures var (status, r) := Run(d, estimate, parse, ask, calls, 1);
      && status == Finished
      && r.keys == d.keys
      && (forall k | d.IsPending(k) :: k in r.vals && r.vals[k] == ParseResponse(answer, parse).value.vals[k])
      && (forall k | k in d.vals && !d.IsPending(k) :: k in r.vals && r.vals[k] == d.vals[k])
  {
    var queries := Queries(d, estimate);
    var after := Applied(d, answer, parse);
    PassOne(d, queries, parse, ask, calls, answer);
    AppliedFillsAll(d, answer, parse);
    NoBatchesIffNoPending(after, estimate);
    assert Run(after, estimate, parse, ask, calls + 1, 0) == (Finished, after);
  }

  /** A pass over one query whose answer passes the check applies that answer. */
  lemma PassOne(d: Dict, queries: seq<string>, parse: string -> Option<Dict>,
                ask: (nat, string) -> Option<string>, calls: nat, answer: string)
    requires |queries| == 1 && ask(calls, queries[0]) == Some(answer)
    requires IsValidInterpolationsAsWritten(queries[0], answer)
    ensures Pass(d, queries, parse, ask, calls) == PassResult(Applied(d, answer, parse), false, calls + 1)
  {
    assert queries[1..] == [];
  }

  /** An answer that gives every pending key a non-empty value leaves nothing pending. */
  lemma AppliedFillsAll(d: Dict, answer: string, parse: string -> Option<Dict>)
    requires d.Valid() && ObjectParser(parse)
    requires ParseResponse(answer, parse).Some?
    requires forall k | d.IsPending(k) ::
      k in ParseResponse(answer, parse).value.vals && ParseResponse(answer, parse).value.vals[k] != PENDING
    ensures var after := Applied(d, answer, parse);
      && after.Valid()
      && NoPending(after)
      && (forall k | d.IsPending(k) :: after.vals[k] == ParseResponse(answer, parse).value.vals[k])
      && (forall k | k in d.vals && !d.IsPending(k) :: after.vals[k] == d.vals[k])
  {
    var after := Applied(d, answer, parse);
    AppliedKeepsResolved(d, answer, parse);
    forall k | k in d.vals
      ensures after.vals[k] != PENDING
      ensures d.IsPending(k) ==> after.vals[k] == ParseResponse(answer, parse).value.vals[k]
    {
      AppliedChangesExactly(d, answer, parse, k);
    }
  }

  /**
   * `translate(toTranslate, language)`: works on a copy, so `toTranslate` is
   * left alone, and ends as `Run` says; passes are counted against `fuel`. On
   * return every key of the input is still there, in the same order, every
   * value that was not `""` is unchanged, and a finished run has no `""` value
   * left.
   */
  method Translate(toTranslate: JsObject, language: string, estimate: string -> nat,
                   parse: string -> Option<Dict>, provider: (nat, string) -> Option<string>, fuel: nat)
    returns (status: Status, output: JsObject)
    requires toTranslate.Valid()
    requires ObjectParser(parse)
    ensures unchanged(toTranslate)
    ensures fresh(output) && output.Valid()
    ensures (status, output.Value()) == Run(toTranslate.Value(), estimate, parse, Ask(provider, language), 0, fuel)
    ensures KeepsResolved(toTranslate.Value(), output.Value())
    ensures status == Finished ==> NoPending(output.Value())
    ensures NoPending(toTranslate.Value()) ==> status == Finished && output.Value() == toTranslate.Value()
  {
    ghost var d0 := toTranslate.Value();
    ghost var ask := Ask(provider, language);
    RunSpec(d0, estimate, parse, ask, 0, fuel);
    if NoPending(d0) {
      NothingPendingRun(d0, estimate, parse, ask, 0, fuel);
    }
    output := new JsObject.Copy(toTranslate.Value());
    var remaining := fuel;
    var calls: nat := 0;
    while true
      invariant fresh(output) && output.Valid()
      invariant Run(output.Value(), estimate, parse, ask, calls, remaining) == Run(d0, estimate, parse, ask, 0, fuel)
      decreases remaining
    {
      var outcome;
      outcome, calls, remaining := Turn(output, language, estimate, parse, provider, calls, remaining);
      if outcome.Some? {
        return outcome.value, output;
      }
    }
  }

  /**
   * One turn of the `while` loop of `translate`: build the queries, return
   * when there are none (or no pass is left), otherwise run a pass; a failed
   * call ends the run. `outcome` is the run's status when the turn ends the
   * run, and `None` when it leaves a state from which the rest of the run is
   * the same.
   */
  method Turn(output: JsObject, language: string, estimate: string -> nat,
              parse: string -> Option<Dict>, provider: (nat, string) -> Option<string>, calls0: nat, fuel: nat)
    returns (outcome: Option<Status>, calls: nat, remaining: nat)
    requires output.Valid() && ObjectParser(parse)
    modifies output
    ensures output.Valid()
    ensures outcome.Some? ==> (outcome.value, output.Value()) == Run(old(output.Value()), estimate, parse, Ask(provider, language), calls0, fuel)
    ensures outcome.None? ==> (remaining < fuel &&
      Run(output.Value(), estimate, parse, Ask(provider, language), calls, remaining)
        == Run(old(output.Value()), estimate, parse, Ask(provider, language), calls0, fuel))
  {
    calls, remaining := calls0, fuel;
    var queries := BuildQueries(output.Value(), estimate);
    if |queries| == 0 {
      return Some(Finished), calls, remaining;
    }
    if fuel == 0 {
      return Some(Exhausted), calls, remaining;
    }
    remaining := fuel - 1;
    var crashed;
    crashed, calls := TakePass(output, queries, language, estimate, parse, provider, calls0, fuel, remaining);
    outcome := if crashed then Some(Crashed) else None;
  }

  /**
   * The `for` loop of one turn, seen from the run: after the pass over the
   * queries of the current state, the rest of the run is the run from the
   * state the pass leaves with one pass fewer, or the pass's failure.
   */
  method TakePass(output: JsObject, queries: seq<string>, language: string, estimate: string -> nat,
                  parse: string -> Option<Dict>, provider: (nat, string) -> Option<string>,
                  calls0: nat, fuel: nat, remaining: nat)
    returns (crashed: bool, calls: nat)
    requires output.Valid() && ObjectParser(parse)
    requires queries == Queries(output.Value(), estimate) && queries != [] && fuel == remaining + 1
    modifies output
    ensures output.Valid()
    ensures crashed ==> (Run(old(output.Value()), estimate, parse, Ask(provider, language), calls0, fuel)
      == (Crashed, output.Value()))
    ensures !crashed ==> (Run(old(output.Value()), estimate, parse, Ask(provider, language), calls0, fuel)
      == Run(output.Value(), estimate, parse, Ask(provider, language), calls, remaining))
  {
    ghost var before := output.Value();
    crashed, calls := SendQueries(queries, language, parse, provider, calls0, output);
    RunAfterPass(before, estimate, parse, Ask(provider, language), calls0, fuel, remaining, output.Value(), crashed, calls);
  }

  /** The run from a state equals the run from the state its next pass leaves, or that pass's failure. */
  lemma RunAfterPass(d: Dict, estimate: string -> nat, parse: string -> Option<Dict>,
                     ask: (nat, string) -> Option<string>, calls0: nat, fuel: nat, remaining: nat,
                     after: Dict, crashed: bool, calls: nat)
    requires Queries(d, estimate) != [] && fuel == remaining + 1
    requires Pass(d, Queries(d, estimate), parse, ask, calls0) == PassResult(after, crashed, calls)
    ensures crashed ==> Run(d, estimate, parse, ask, calls0, fuel) == (Crashed, after)
    ensures !crashed ==> Run(d, estimate, parse, ask, calls0, fuel) == Run(after, estimate, parse, ask, calls, remaining)
  {
    assert Run(d, estimate, parse, ask, calls0, fuel) == Run(d, estimate, parse, ask, calls0, remaining + 1);
  }

  // ---------------------------------------------------------------------------
  // One (namespace, language) pair, from the configured strings to the file content

  /** The object `translate` is given: the configured strings plus the source keys missing from the output file. */
  function Prepared(translateStrings: Source, sourceJSON: Option<Dict>, outputJSON: Option<Dict>): Dict {
    MissingAdded(FormatTranslateStrings(translateStrings), sourceJSON, outputJSON)
  }

  /** Every configured string is still a key, and still pending, in the object handed to `translate`. */
  lemma PreparedKeepsConfigured(translateStrings: Source, sourceJSON: Option<Dict>, outputJSON: Option<Dict>)
    ensures var formatted := FormatTranslateStrings(translateStrings);
      formatted.Some? ==>
        forall k | k in formatted.value.vals :: Prepared(translateStrings, sourceJSON, outputJSON).IsPending(k)
  {
    var formatted := FormatTranslateStrings(translateStrings);
    MissingAddedSpec(formatted, sourceJSON, outputJSON);
    if formatted.Some? {
      var base, r := formatted.value, Prepared(translateStrings, sourceJSON, outputJSON);
      assert Spread(formatted) == base;
      forall k | k in base.vals ensures r.IsPending(k) {
        assert base.vals[k] == PENDING;
        if sourceJSON.Some? && outputJSON.Some? && k in sourceJSON.value.keys && !outputJSON.value.HasTruthy(k) {
        } else if sourceJSON.Some? && outputJSON.None? && k in sourceJSON.value.keys {
        }
      }
    }
  }

  /**
   * Every value handed to `translate` is `""`: each configured string is
   * translated again on every run, whatever the output file already holds.
   */
  lemma PreparedAllPending(translateStrings: Source, sourceJSON: Option<Dict>, outputJSON: Option<Dict>)
    ensures var r := Prepared(translateStrings, sourceJSON, outputJSON);
      forall k | k in r.vals :: r.vals[k] == PENDING
  {
    var formatted := FormatTranslateStrings(translateStrings);
    var base, r := Spread(formatted), Prepared(translateStrings, sourceJSON, outputJSON);
    MissingAddedSpec(formatted, sourceJSON, outputJSON);
    assert forall k | k in base.vals :: base.vals[k] == PENDING;
    forall k | k in r.vals ensures r.vals[k] == PENDING {
      if sourceJSON.Some? && outputJSON.Some? && k in sourceJSON.value.keys && !outputJSON.value.HasTruthy(k) {
        assert r.IsPending(k);
      } else if sourceJSON.Some? && outputJSON.None? && k in sourceJSON.value.keys {
        assert r.IsPending(k);
      }
    }
  }

  /**
   * The body of the per-language callback of `init`: format, add what the
   * source file has and the output file lacks, translate, and merge with the
   * output file. The result is what is written to the output file, or `None`
   * when the run did not finish. The output file's content is read once and
   * serves both `addMissingSourceTranslations` and `mergeExistingTranslations`.
   */
  method TranslateFile(translateStrings: Source, sourceJSON: Option<Dict>, outputJSON: Option<Dict>,
                       language: string, estimate: string -> nat,
                       parse: string -> Option<Dict>, provider: (nat, string) -> Option<string>, fuel: nat)
    returns (written: Option<Dict>)
    requires translateStrings.StringObject? ==> translateStrings.obj.Valid()
    requires outputJSON.Some? ==> outputJSON.value.Valid()
    requires ObjectParser(parse)
    ensures var prepared := Prepared(translateStrings, sourceJSON, outputJSON);
      var (status, result) := Run(prepared, estimate, parse, Ask(provider, language), 0, fuel);
      && (written.Some? <==> status == Finished)
      && (written.Some? ==> written.value == MergeExistingTranslations(result, outputJSON))
      && (NoPending(prepared) ==> written == Some(MergeExistingTranslations(prepared, outputJSON)))
      && (written.Some? ==>
            && written.value.Valid()
            && (forall k | k in prepared.vals ::
                  && k in written.value.vals && written.value.vals[k] != PENDING
                  && k in result.vals && written.value.vals[k] == result.vals[k])
            && (forall k | k in written.value.vals :: k in prepared.vals || (outputJSON.Some? && k in outputJSON.value.vals))
            && (outputJSON.Some? ==> forall k | k in outputJSON.value.vals :: k in written.value.vals)
            && (outputJSON.Some? ==>
                  forall k | k in outputJSON.value.vals && k !in prepared.vals ::
                    written.value.vals[k] == outputJSON.value.vals[k]))
  {
    var formatted := FormatTranslateStrings(translateStrings);
    var merged := AddMissingSourceTranslations(formatted, sourceJSON, outputJSON);
    MissingAddedSpec(formatted, sourceJSON, outputJSON);
    var status, result := Translate(merged, language, estimate, parse, provider, fuel);
    if status != Finished {
      return None;
    }
    MergedSpec(merged.Value(), result.Value(), outputJSON);
    written := Some(MergeExistingTranslations(result.Value(), outputJSON));
  }

  /** What merging a finished translation with the output file keeps and adds. */
  lemma MergedSpec(prepared: Dict, result: Dict, outputJSON: Option<Dict>)
    requires KeepsResolved(prepared, result) && NoPending(result) && result.Valid()
    requires outputJSON.Some? ==> outputJSON.value.Valid()
    ensures var w := MergeExistingTranslations(result, outputJSON);
      && w.Valid()
      && (forall k | k in prepared.vals :: k in w.vals && w.vals[k] != PENDING)
      && (forall k | k in prepared.vals :: k in result.vals && w.vals[k] == result.vals[k])
      && (forall k | k in prepared.vals && prepared.vals[k] != PENDING :: w.vals[k] == prepared.vals[k])
      && (forall k | k in w.vals :: k in prepared.vals || (outputJSON.Some? && k in outputJSON.value.vals))
      && (outputJSON.Some? ==> forall k | k in outputJSON.value.vals :: k in w.vals)
      && (outputJSON.Some? ==>
            forall k | k in outputJSON.value.vals && k !in prepared.vals :: w.vals[k] == outputJSON.value.vals[k])
  {
  }


  // ---------------------------------------------------------------------------
  // What the check compares

  /**
   * The placeholder check reads the whole response, keys included, and the
   * model echoes the keys: for a key with one placeholder, an answer whose
   * translation has no placeholder at all still passes the check (and is then
   * applied), because the echoed key supplies the placeholder.
   */
  lemma EchoedKeyMasksDroppedPlaceholder(a: string, n: string, b: string, translation: string)
    requires Plain(a) && Plain(b) && Plain(translation)
    requires '{' !in a && '{' !in b && '{' !in translation
    requires n != [] && Plain(n) && '{' !in n && '}' !in n
    ensures var key := a + "{{" + n + "}}" + b;
      && Interpolations(translation) == {}
      && IsValidInterpolations(QueryText([key]), "{" + Quote(key) + ":" + Quote(translation) + "}")
      && IsValidInterpolationsAsWritten(QueryText([key]), "{" + Quote(key) + ":" + Quote(translation) + "}")
  {
    var key := a + "{{" + n + "}}" + b;
    PlainKey(a, n, b);
    EscapePlain(key);
    EscapePlain(translation);
    OneKeyText(key);
    EchoedKey(a, n, b, "");
    EchoedKey(a, n, b, translation);
    NoOpenBraceNoPlaceholder(translation);
    IntendedPassesAsWritten(QueryText([key]), "{" + Quote(key) + ":" + Quote(translation) + "}");
  }

  /** A key made of plain text around one placeholder is plain text. */
  lemma PlainKey(a: string, n: string, b: string)
    requires Plain(a) && Plain(n) && Plain(b)
    ensures Plain(a + "{{" + n + "}}" + b)
  {
    var key := a + "{{" + n + "}}" + b;
    forall i | 0 <= i < |key| ensures key[i] != '"' && key[i] != '\\' && key[i] as int >= 0x20 {
      if i < |a| {
        assert key[i] == a[i];
      } else if i < |a| + 2 || |a| + 2 + |n| <= i < |a| + 4 + |n| {
        assert key[i] == '{' || key[i] == '}';
      } else if i < |a| + 2 + |n| {
        assert key[i] == n[i - |a| - 2];
      } else {
        assert key[i] == b[i - |a| - 4 - |n|];
      }
    }
  }

  /** The one-member object text `{"a{{n}}b":"v"}` holds exactly the placeholder of its key. */
  lemma EchoedKey(a: string, n: string, b: string, v: string)
    requires '{' !in a && '{' !in b && '{' !in v
    requires n != [] && '{' !in n && '}' !in n
    ensures Interpolations("{" + ("\"" + (a + "{{" + n + "}}" + b) + "\"") + ":" + ("\"" + v + "\"") + "}") == {n}
  {
    var p := "{{" + n + "}}";
    var rest := b + "\"" + ":" + ("\"" + v + "\"") + "}";
    assert "{" + ("\"" + (a + "{{" + n + "}}" + b) + "\"") + ":" + ("\"" + v + "\"") + "}"
        == "{" + (("\"" + a) + (p + rest));
    KeyAndValue("\"" + a, n, rest);
  }

  /** `{`, then text without `{`, one placeholder, and text without `{`: the placeholder is the only name. */
  lemma KeyAndValue(a: string, n: string, rest: string)
    requires a != [] && '{' !in a && '{' !in rest
    requires n != [] && '{' !in n && '}' !in n
    ensures Interpolations("{" + (a + (("{{" + n + "}}") + rest))) == {n}
  {
    var p := "{{" + n + "}}";
    var s := a + (p + rest);
    assert s[0] == a[0];
    LoneOpenBrace(s);
    PlainPrefix(a, p + rest);
    PlaceholderThen(n, rest);
    PlainPrefix(rest, "");
    assert rest + "" == rest;
    assert MatchNames("") == [];
    assert MatchNames("{" + s) == [n];
  }
}
