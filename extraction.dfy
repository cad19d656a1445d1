/**
 * The response side of clerk's `extract_and_validate_json`: the search
 * `re.search(r'```json\n(.*?)\n```', response, re.DOTALL)` as a plain string
 * search, then the parse (a parameter standing for `json.loads`) and the
 * validation gate.
 */
module Extraction {
  import opened Wrappers
  import opened Schema

  const Opener: string := "```json\n"
  const Closer: string := "\n```"

  predicate OccursAt(s: string, pat: string, i: int)
  {
    0 <= i && i + |pat| <= |s| && s[i..i + |pat|] == pat
  }

  /** First occurrence of `pat` at or after `from`. */
  function FindFrom(s: string, pat: string, from: nat): (r: Option<nat>)
    ensures r.Some? ==> from <= r.value && OccursAt(s, pat, r.value)
    ensures forall k :: from <= k && (r.None? || k < r.value) ==> !OccursAt(s, pat, k)
    decreases |s| - from
  {
    if from + |pat| > |s| then None
    else if s[from..from + |pat|] == pat then Some(from)
    else FindFrom(s, pat, from + 1)
  }

  /** A match of the pattern: the opening fence at `i`, the closing one at `j`. */
  predicate MatchAt(s: string, i: int, j: int)
  {
    OccursAt(s, Opener, i) && i + |Opener| <= j && OccursAt(s, Closer, j)
  }

  /** The match `re.search` reports: leftmost start, then the shortest (lazy) body. */
  ghost predicate FirstMatch(s: string, i: int, j: int)
  {
    && MatchAt(s, i, j)
    && (forall i', j' :: MatchAt(s, i', j') ==> i <= i')
    && (forall j' :: MatchAt(s, i, j') ==> j <= j')
  }

  /**
   * `json_match.group(1)`, or none when there is no match. The search agrees
   * with the regular expression: no block exactly when no opening fence is
   * followed by a closing one, and otherwise the block is the body of the
   * leftmost, shortest match, so it never contains the closing fence.
   */
  function ExtractBlock(response: string): (r: Option<string>)
    ensures r.None? <==> forall i, j :: !MatchAt(response, i, j)
    ensures r.Some? ==>
      exists i, j :: FirstMatch(response, i, j) && r.value == response[i + |Opener|..j]
    ensures r.Some? ==> forall k :: !OccursAt(r.value, Closer, k)
  {
    match FindFrom(response, Opener, 0)
    case None =>
      NoOpenerNoMatch(response);
      None
    case Some(i) =>
      match FindFrom(response, Closer, i + |Opener|)
      case None =>
        NoCloserNoMatch(response, i);
        None
      case Some(j) =>
        FoundIsFirstMatch(response, i, j, response[i + |Opener|..j]);
        Some(response[i + |Opener|..j])
  }

  lemma NoOpenerNoMatch(s: string)
    requires FindFrom(s, Opener, 0).None?
    ensures forall i, j :: !MatchAt(s, i, j)
  {
  }

  lemma NoCloserNoMatch(s: string, i: nat)
    requires FindFrom(s, Opener, 0) == Some(i)
    requires FindFrom(s, Closer, i + |Opener|).None?
    ensures forall i', j' :: !MatchAt(s, i', j')
  {
    forall i', j' ensures !MatchAt(s, i', j') {
    }
  }

  /** The first opener and the first closer after it form the match `re.search` reports. */
  lemma FoundIsFirstMatch(s: string, i: nat, j: nat, b: string)
    requires FindFrom(s, Opener, 0) == Some(i)
    requires FindFrom(s, Closer, i + |Opener|) == Some(j)
    requires i + |Opener| <= j && b == s[i + |Opener|..j]
    ensures FirstMatch(s, i, j)
    ensures forall k :: !OccursAt(b, Closer, k)
  {
    assert MatchAt(s, i, j);
    forall i', j' | MatchAt(s, i', j') ensures i <= i' {
    }
    var a := i + |Opener|;
    forall k | 0 <= k && k + |Closer| <= |b| ensures !OccursAt(b, Closer, k) {
      SliceOfSlice(s, a, j, k, |Closer|);
      assert !OccursAt(s, Closer, a + k);
    }
  }

  lemma SliceOfSlice(s: string, lo: int, hi: int, k: int, n: int)
    requires 0 <= lo <= hi <= |s| && 0 <= k && 0 <= n && k + n <= hi - lo
    ensures s[lo..hi][k..k + n] == s[lo + k..lo + k + n]
  {
    var x, y := s[lo..hi][k..k + n], s[lo + k..lo + k + n];
    forall t | 0 <= t < n ensures x[t] == y[t] {
    }
  }

  /**
   * Round trip: a block that does not contain the closing fence, wrapped in
   * the fences at the start of a response, is extracted unchanged whatever follows.
   */
  lemma {:induction false} FenceRoundTrip(b: string, rest: string)
    requires forall k :: !OccursAt(b, Closer, k)
    ensures ExtractBlock(Opener + b + Closer + rest) == Some(b)
  {
    var s := Opener + b + Closer + rest;
    var e := |Opener| + |b|;
    assert s[..|Opener|] == Opener;
    assert OccursAt(s, Opener, 0);
    assert FindFrom(s, Opener, 0) == Some(0);
    assert s[e..e + |Closer|] == Closer;
    assert OccursAt(s, Closer, e);
    forall k | |Opener| <= k < e ensures !OccursAt(s, Closer, k) {
      if k + |Closer| <= e {
        assert s[k..k + |Closer|] == b[k - |Opener|..k - |Opener| + |Closer|];
        assert !OccursAt(b, Closer, k - |Opener|);
      } else {
        // a fence starting inside `b` would run into the real one, whose
        // newline would then have to be a backtick
        assert s[e] == '\n' && Closer[e - k] == '`';
        assert k + |Closer| <= |s| ==> s[k..k + |Closer|][e - k] == s[e];
      }
    }
    assert FindFrom(s, Closer, |Opener|) == Some(e);
    assert s[|Opener|..e] == b;
  }

  /** What happens to one response. */
  datatype Outcome =
    | Accepted(record: Json)     // valid: persisted and returned
    | NoBlock                    // no fenced block in the response
    | NotJson(error: string)     // the block does not parse
    | Rejected(message: string)  // parsed, but fails validation with this message
  {
    /** The function's return value: the record, or None. */
    function Returned(): Option<Json>
    {
      if Accepted? then Some(record) else None
    }
  }

  /**
   * `extract_and_validate_json`, with `parse` standing for `json.loads` and
   * `isIsoDate` for `datetime.fromisoformat` succeeding.
   */
  function ExtractAndValidate(response: string, parse: string -> Result<Json, string>,
                              isIsoDate: string -> bool): (e: Outcome)
    ensures e.NoBlock? <==> ExtractBlock(response).None?
    ensures e.Accepted? <==>
      && ExtractBlock(response).Some?
      && parse(ExtractBlock(response).value).Success?
      && IsRecord(parse(ExtractBlock(response).value).value, isIsoDate)
    ensures e.Accepted? ==> e.record == parse(ExtractBlock(response).value).value
    ensures e.NotJson? <==> ExtractBlock(response).Some? && parse(ExtractBlock(response).value).Failure?
    ensures e.NotJson? ==> e.error == parse(ExtractBlock(response).value).error
    ensures e.Rejected? ==> e.message == Validate(parse(ExtractBlock(response).value).value, isIsoDate).message
    ensures e.Rejected? ==> e.message != ValidMessage
  {
    match ExtractBlock(response)
    case None => NoBlock
    case Some(block) =>
      match parse(block)
      case Failure(err) => NotJson(err)
      case Success(j) =>
        var v := Validate(j, isIsoDate);
        if v.valid then Accepted(j) else Rejected(v.message)
  }

  /**
   * A well-formed record in a fenced block at the head of the reply is
   * accepted as parsed, whatever text follows the block.
   */
  lemma FencedRecordAccepted(b: string, rest: string, j: Json,
                             parse: string -> Result<Json, string>, isIsoDate: string -> bool)
    requires forall k :: !OccursAt(b, Closer, k)
    requires parse(b) == Success(j) && IsRecord(j, isIsoDate)
    ensures ExtractAndValidate(Opener + b + Closer + rest, parse, isIsoDate) == Accepted(j)
  {
    FenceRoundTrip(b, rest);
  }
}
