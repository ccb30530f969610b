/**
 * The interpolation-placeholder check: the names matched by the global regular
 * expression `{{([^}]+)}}` in a text, and the comparison of the names in a
 * query with those in the model's raw response.
 */
module Placeholders {
  import opened Wrappers
  import opened JsObjects

  // ---------------------------------------------------------------------------
  // Matching `{{([^}]+)}}` globally

  /** The first position at or after `i` that holds `}`, or `|s|` when there is none. */
  function CloseAt(s: string, i: nat): (j: nat)
    requires i <= |s|
    ensures i <= j <= |s|
    ensures j < |s| ==> s[j] == '}'
    ensures forall m :: i <= m < j ==> s[m] != '}'
    decreases |s| - i
  {
    if i == |s| || s[i] == '}' then i else CloseAt(s, i + 1)
  }

  /** `s[..e]` is `{{`, then at least one character other than `}`, then `}}`. */
  predicate MatchesTo(s: string, e: nat) {
    && 5 <= e <= |s|
    && s[0] == '{' && s[1] == '{'
    && (forall m | 2 <= m < e - 2 :: s[m] != '}')
    && s[e - 2] == '}' && s[e - 1] == '}'
  }

  /**
   * Where a match at the start of `s` ends: `{{`, then the longest run of at
   * least one character other than `}`, then `}}`. Backtracking cannot help,
   * since a shorter run would leave a character other than `}` where `}` is
   * needed, so there is at most one such end.
   */
  function MatchEnd(s: string): (r: Option<nat>)
    ensures r.Some? ==> MatchesTo(s, r.value)
    ensures forall e: nat | MatchesTo(s, e) :: r == Some(e)
  {
    if |s| >= 2 && s[0] == '{' && s[1] == '{' then
      var j := CloseAt(s, 2);
      if 2 < j && j + 1 < |s| && s[j + 1] == '}' then Some(j + 2) else None
    else None
  }

  /** No `{` of `r` is followed by another `{`. */
  predicate NoOpenPair(r: string) {
    forall i | 0 <= i < |r| - 1 :: !(r[i] == '{' && r[i + 1] == '{')
  }

  /**
   * `match.replace(/{{|}}/g, "")` for a match `{{x}}`: the captured text `x`
   * holds no `}`, so what is removed is the outer braces and every `{{` of `x`
   * found scanning from the left.
   */
  function StripOpenPairs(x: string): (r: string)
    ensures |r| <= |x|
    ensures forall c | c in r :: c in x
    ensures NoOpenPair(r)
    ensures x != [] && x[0] != '{' ==> r != [] && r[0] == x[0]
    ensures '{' !in x ==> r == x
  {
    if |x| >= 2 && x[0] == '{' && x[1] == '{' then StripOpenPairs(x[2..])
    else if x == [] then []
    else [x[0]] + StripOpenPairs(x[1..])
  }

  /**
   * The names of `str.match(/{{([^}]+)}}/g)`, in order: the search resumes
   * after each match, or one character further on where no match starts.
   */
  function MatchNames(s: string): (r: seq<string>)
    ensures |r| * 5 <= |s|
    ensures forall n | n in r :: '}' !in n
    ensures '{' !in s ==> r == []
    decreases |s|
  {
    if s == [] then []
    else
      match MatchEnd(s)
      case Some(e) => [StripOpenPairs(s[2..e - 2])] + MatchNames(s[e..])
      case None => MatchNames(s[1..])
  }

  /** The text before the first `{{` is kept, the pair is removed, and stripping goes on after it. */
  lemma StripFirstPair(a: string, b: string)
    requires '{' !in a
    ensures StripOpenPairs(a + ("{{" + b)) == a + StripOpenPairs(b)
  {
    var y := "{{" + b;
    assert StripOpenPairs(y) == StripOpenPairs(b) by {
      assert y[0] == '{' && y[1] == '{' && y[2..] == b;
    }
    StripPlainPrefix(a, y);
  }

  /** Text without `{` in front passes through unchanged. */
  lemma {:induction false} StripPlainPrefix(a: string, z: string)
    requires '{' !in a
    ensures StripOpenPairs(a + z) == a + StripOpenPairs(z)
  {
    if a == [] {
      assert a + z == z;
    } else {
      var c, t := a[0], a[1..];
      assert a == [c] + t;
      assert '{' !in t;
      StripPlainPrefix(t, z);
      calc {
        StripOpenPairs(a + z);
        { assert a + z == [c] + (t + z); }
        StripOpenPairs([c] + (t + z));
        { StripStep(c, t + z); }
        [c] + StripOpenPairs(t + z);
        [c] + (t + StripOpenPairs(z));
        { assert [c] + (t + StripOpenPairs(z)) == ([c] + t) + StripOpenPairs(z); }
        a + StripOpenPairs(z);
      }
    }
  }

  /** A first character other than `{` is kept. */
  lemma StripStep(c: char, w: string)
    requires c != '{'
    ensures StripOpenPairs([c] + w) == [c] + StripOpenPairs(w)
  {
    assert ([c] + w)[0] == c && ([c] + w)[1..] == w;
  }

  /** `n` is the name of a match of `{{([^}]+)}}` that starts somewhere in `s`. */
  ghost predicate NameOfMatch(s: string, n: string) {
    exists i: nat, e: nat :: i + e <= |s| && MatchesTo(s[i..], e) && n == StripOpenPairs(s[i + 2..i + e - 2])
  }

  /** Every name `MatchNames` returns is the name of a real match in the text. */
  lemma {:induction false} MatchNamesSound(s: string)
    ensures forall n | n in MatchNames(s) :: NameOfMatch(s, n)
    decreases |s|
  {
    if s != [] {
      match MatchEnd(s)
      case Some(e) =>
        MatchNamesSound(s[e..]);
        forall n | n in MatchNames(s) ensures NameOfMatch(s, n) {
          if n == StripOpenPairs(s[2..e - 2]) {
            assert s[0..] == s;
            assert 0 + e <= |s| && MatchesTo(s[0..], e) && n == StripOpenPairs(s[0 + 2..0 + e - 2]);
          } else {
            assert n in MatchNames(s[e..]);
            ShiftMatch(s, e, n);
          }
        }
      case None =>
        MatchNamesSound(s[1..]);
        forall n | n in MatchNames(s) ensures NameOfMatch(s, n) {
          ShiftMatch(s, 1, n);
        }
    }
  }

  /** A match found in a suffix of `s` is a match in `s`. */
  lemma ShiftMatch(s: string, k: nat, n: string)
    requires k <= |s| && NameOfMatch(s[k..], n)
    ensures NameOfMatch(s, n)
  {
    var t := s[k..];
    var i: nat, e: nat :| i + e <= |t| && MatchesTo(t[i..], e) && n == StripOpenPairs(t[i + 2..i + e - 2]);
    assert t[i..] == s[k + i..];
    assert t[i + 2..i + e - 2] == s[k + i + 2..k + i + e - 2];
    assert (k + i) + e <= |s| && MatchesTo(s[k + i..], e) && n == StripOpenPairs(s[(k + i) + 2..(k + i) + e - 2]);
  }

  /** `getInterpolations(s)`: the own keys of the object it builds. */
  function Interpolations(s: string): (r: set<string>)
    ensures forall n :: n in r <==> n in MatchNames(s)
  {
    set n | n in MatchNames(s)
  }

  // ---------------------------------------------------------------------------
  // The check

  /**
   * `isValidInterpolations(query, response)` as written: every expected name
   * must look truthy in the response's object, where a missing name that
   * `Object.prototype` provides looks truthy too; then the numbers of names
   * must agree.
   */
  predicate IsValidInterpolationsAsWritten(query: string, response: string)
    ensures IsValidInterpolations(query, response) ==> IsValidInterpolationsAsWritten(query, response)
    ensures IsValidInterpolationsAsWritten(query, response) ==> Interpolations(query) - PROTOTYPE_NAMES <= Interpolations(response)
  {
    var expected, found := Interpolations(query), Interpolations(response);
    && (forall k | k in expected :: k in found || k in PROTOTYPE_NAMES)
    && |expected| == |found|
  }

  /** The check as intended: the query and the response hold the same placeholder names. */
  predicate IsValidInterpolations(query: string, response: string)
    ensures IsValidInterpolations(query, response) ==> (forall n :: n in MatchNames(query) <==> n in MatchNames(response))
    ensures IsValidInterpolations(query, response) ==> |Interpolations(query)| == |Interpolations(response)|
  {
    Interpolations(query) == Interpolations(response)
  }

  /** The check as written lets through every response the intended check accepts. */
  lemma IntendedPassesAsWritten(query: string, response: string)
    requires IsValidInterpolations(query, response)
    ensures IsValidInterpolationsAsWritten(query, response)
  {
  }

  /** Away from the names `Object.prototype` provides, the check as written is set equality. */
  lemma AsWrittenIsSetEquality(query: string, response: string)
    requires Interpolations(query) !! PROTOTYPE_NAMES
    ensures IsValidInterpolationsAsWritten(query, response) <==> IsValidInterpolations(query, response)
  {
    var expected, found := Interpolations(query), Interpolations(response);
    if IsValidInterpolationsAsWritten(query, response) {
      assert expected <= found;
      assert |found| == |expected| + |found - expected| by {
        assert found == expected + (found - expected);
      }
      assert found - expected == {};
      assert found == expected;
    }
  }

  /**
   * The check as written accepts a response that replaced `{{constructor}}`
   * by `{{name}}`: `responseInterpolations["constructor"]` is the inherited
   * constructor function, and both sides hold one name.
   */
  lemma InheritedNameFoolsCheck()
    ensures IsValidInterpolationsAsWritten("{{constructor}}", "{{name}}")
    ensures !IsValidInterpolations("{{constructor}}", "{{name}}")
  {
    var q, r := "{{" + "constructor" + "}}", "{{" + "name" + "}}";
    assert q == "{{constructor}}" && r == "{{name}}";
    SinglePlaceholder("constructor");
    SinglePlaceholder("name");
    var expected, found := Interpolations(q), Interpolations(r);
    assert expected == {"constructor"} && found == {"name"};
    assert "constructor" in PROTOTYPE_NAMES;
    assert |expected| == 1 == |found|;
    assert "constructor" !in found;
  }

  // ---------------------------------------------------------------------------
  // How matching composes

  /** Text without `{` in front of `s` adds no placeholder. */
  lemma {:induction false} PlainPrefix(a: string, s: string)
    requires '{' !in a
    ensures MatchNames(a + s) == MatchNames(s)
  {
    if a == [] {
      assert a + s == s;
    } else {
      var t := a + s;
      assert t[0] == a[0];
      assert MatchEnd(t) == None;
      assert MatchNames(t) == MatchNames(t[1..]);
      assert t[1..] == a[1..] + s;
      PlainPrefix(a[1..], s);
    }
  }

  /** A text without `{` holds no placeholder. */
  lemma NoOpenBraceNoPlaceholder(s: string)
    requires '{' !in s
    ensures Interpolations(s) == {}
  {
    PlainPrefix(s, "");
    assert s + "" == s;
    assert MatchNames("") == [];
  }

  /** A single `{` followed by something other than `{` starts no match. */
  lemma LoneOpenBrace(s: string)
    requires s != [] && s[0] != '{'
    ensures MatchNames("{" + s) == MatchNames(s)
  {
    var t := "{" + s;
    assert t[1] == s[0];
    assert MatchEnd(t) == None;
    assert t[1..] == s;
  }

  /** `{{n}}` for a name without braces is one match, named `n`, and the search resumes after it. */
  lemma PlaceholderThen(n: string, s: string)
    requires n != [] && '{' !in n && '}' !in n
    ensures MatchNames("{{" + n + "}}" + s) == [n] + MatchNames(s)
  {
    var t := "{{" + n + "}}" + s;
    assert MatchEnd(t) == Some(|n| + 4) by {
      assert t[2 + |n|] == '}' && t[3 + |n|] == '}';
      assert forall m :: 2 <= m < 2 + |n| ==> t[m] == n[m - 2];
      assert CloseAt(t, 2) == 2 + |n|;
    }
    assert t[2..|n| + 2] == n && t[|n| + 4..] == s;
    assert StripOpenPairs(n) == n;
  }

  lemma SinglePlaceholder(n: string)
    requires n != [] && '{' !in n && '}' !in n
    ensures Interpolations("{{" + n + "}}") == {n}
  {
    PlaceholderThen(n, "");
    assert "{{" + n + "}}" + "" == "{{" + n + "}}";
    assert MatchNames("") == [];
  }
}
