/**
 * Locating the JSON array in the extraction assistant's reply (app.py:59-60):
 * `re.search(r"\[.*\]", text, re.DOTALL)`, then `json.loads` of the match,
 * or the empty list when there is no match.
 */
module JsonSpan {
  import opened Wrappers
  import opened Sequences

  /** The pattern `\[.*\]` (with `.` matching every character) matches `text[p..q + 1]`. */
  ghost predicate MatchesAt(text: string, p: int, q: int) {
    0 <= p < q < |text| && text[p] == '[' && text[q] == ']'
  }

  /**
   * The match `re.search` reports: of all matches, the one starting leftmost,
   * and of those the longest, since `.*` is greedy.
   */
  ghost predicate IsLeftmostGreedy(text: string, p: int, q: int) {
    && MatchesAt(text, p, q)
    && forall p', q' :: MatchesAt(text, p', q') ==> p < p' || (p == p' && q' <= q)
  }

  /** At most one match is the leftmost-greedy one. */
  lemma LeftmostGreedyUnique(text: string, p: int, q: int, p': int, q': int)
    requires IsLeftmostGreedy(text, p, q) && IsLeftmostGreedy(text, p', q')
    ensures p == p' && q == q'
  {
  }

  /** Bounds of the matched span: the first `[` and the last `]`, when that `]` comes later. */
  function LocateSpan(text: string): (r: Option<(nat, nat)>)
    ensures r.None? <==> forall p, q :: !MatchesAt(text, p, q)
    ensures r.Some? ==> IsLeftmostGreedy(text, r.value.0, r.value.1)
  {
    match (IndexOf(text, '['), LastIndexOf(text, ']'))
    case (Some(p), Some(q)) =>
      if p < q then
        assert MatchesAt(text, p, q);
        Some((p, q))
      else
        None
    case _ => None
  }

  /** `text[p..p + |span|]` is `span`, with no `[` before it and no `]` after it. */
  ghost predicate IsSpanAt(text: string, span: string, p: int) {
    && 0 <= p && p + |span| <= |text|
    && text[p..p + |span|] == span
    && (forall k :: 0 <= k < p ==> text[k] != '[')
    && (forall k :: p + |span| <= k < |text| ==> text[k] != ']')
  }

  /** `match.group(0)`, or nothing when the pattern does not match. */
  function FindArraySpan(text: string): (r: Option<string>)
    ensures r.None? <==> forall p, q :: !MatchesAt(text, p, q)
    ensures r.Some? ==> |r.value| >= 2 && r.value[0] == '[' && r.value[|r.value| - 1] == ']'
    ensures r.Some? ==> exists p :: IsSpanAt(text, r.value, p)
  {
    match LocateSpan(text)
    case None => None
    case Some((p, q)) =>
      var span := text[p..q + 1];
      assert IsSpanAt(text, span, p);
      Some(span)
  }

  /** A reply with no `[` at all, such as plain prose, has no span. */
  lemma NoBracketNoSpan(text: string)
    requires '[' !in text
    ensures FindArraySpan(text) == None
  {
  }

  /**
   * The tail of `extract_with_ai`. `parse` stands for `json.loads`; it answers
   * `None` where `json.loads` would raise, and then so does this function.
   */
  function ExtractRecords<R>(reply: string, parse: string -> Option<seq<R>>): (r: Option<seq<R>>)
    ensures (forall p, q :: !MatchesAt(reply, p, q)) ==> r == Some([])
    ensures forall p, q :: IsLeftmostGreedy(reply, p, q) ==> 0 <= p < q < |reply| && r == parse(reply[p..q + 1])
  {
    match FindArraySpan(reply)
    case Some(span) => parse(span)
    case None => Some([])
  }
}
