/**
 * Search highlighting in the article list: a title is cut into spans, the
 * occurrences of the query in the lower-cased title highlighted and the
 * text between them in the base style.
 */
module ArticleList {
  import opened Wrappers
  import Text

  /** A piece of the title and whether it is drawn highlighted. */
  datatype Span = Span(text: string, highlighted: bool)

  /**
   * `str::match_indices`: the occurrences of `p` in `s` at or after `from`,
   * left to right, each search resuming after the previous match; an empty
   * pattern matches at every position up to and including the end.
   */
  function MatchesFrom(s: string, p: string, from: nat): (r: seq<nat>)
    ensures forall k :: 0 <= k < |r| ==> from <= r[k] && r[k] + |p| <= |s|
    decreases |s| + 1 - from
  {
    if from > |s| then []
    else if p == [] then [from] + MatchesFrom(s, p, from + 1)
    else match Text.FindFrom(s, p, from)
      case None => []
      case Some(i) => [i] + MatchesFrom(s, p, i + |p|)
  }

  /**
   * A non-empty list of matches is its first match, an occurrence, followed
   * by the matches from `next`, which lies past that occurrence's end.
   */
  lemma MatchesUnfold(s: string, p: string, from: nat) returns (next: nat)
    requires MatchesFrom(s, p, from) != []
    ensures from < next <= |s| + 1
    ensures MatchesFrom(s, p, from)[0] + |p| <= next
    ensures p != [] ==> next == MatchesFrom(s, p, from)[0] + |p|
    ensures Text.OccursAt(s, p, MatchesFrom(s, p, from)[0])
    ensures MatchesFrom(s, p, from) == [MatchesFrom(s, p, from)[0]] + MatchesFrom(s, p, next)
  {
    var r := MatchesFrom(s, p, from);
    if p == [] {
      next := from + 1;
      assert s[from..from] == p;
    } else {
      next := r[0] + |p|;
    }
  }

  /** Every match is an occurrence of the pattern. */
  lemma {:induction false} MatchesOccur(s: string, p: string, from: nat)
    ensures forall k :: 0 <= k < |MatchesFrom(s, p, from)| ==> Text.OccursAt(s, p, MatchesFrom(s, p, from)[k])
    decreases |s| + 1 - from
  {
    var r := MatchesFrom(s, p, from);
    if r != [] {
      var next := MatchesUnfold(s, p, from);
      MatchesOccur(s, p, next);
      var rest := MatchesFrom(s, p, next);
      forall k | 0 < k < |r| ensures Text.OccursAt(s, p, r[k]) {
        assert r[k] == rest[k - 1];
      }
    }
  }

  /** Each match starts after the previous one ends: the matches never overlap. */
  lemma {:induction false} MatchesDisjoint(s: string, p: string, from: nat)
    ensures var r := MatchesFrom(s, p, from);
      forall i, j :: 0 <= i < j < |r| ==> r[i] + |p| <= r[j]
    decreases |s| + 1 - from
  {
    var r := MatchesFrom(s, p, from);
    if r != [] {
      var next := MatchesUnfold(s, p, from);
      MatchesDisjoint(s, p, next);
      ConsSpaced(r[0], MatchesFrom(s, p, next), |p|, next);
    }
  }

  /** Putting a start in front of spaced starts that all lie at or after its end keeps them spaced. */
  lemma ConsSpaced(x: nat, rest: seq<nat>, width: nat, next: nat)
    requires x + width <= next
    requires forall k :: 0 <= k < |rest| ==> next <= rest[k]
    requires forall i, j :: 0 <= i < j < |rest| ==> rest[i] + width <= rest[j]
    ensures var r := [x] + rest; forall i, j :: 0 <= i < j < |r| ==> r[i] + width <= r[j]
  {
    var r := [x] + rest;
    forall i, j | 0 <= i < j < |r|
      ensures r[i] + width <= r[j]
    {
      assert r[j] == rest[j - 1];
      if i > 0 {
        assert r[i] == rest[i - 1];
      }
    }
  }

  /** For a non-empty pattern, no occurrence starts at or after `from` before the first match. */
  lemma NothingBeforeFirstMatch(s: string, p: string, from: nat)
    requires p != []
    ensures forall j :: from <= j && (MatchesFrom(s, p, from) == [] || j < MatchesFrom(s, p, from)[0]) ==>
      !Text.OccursAt(s, p, j)
  {
    if from <= |s| {
      match Text.FindFrom(s, p, from)
      case None =>
      case Some(i) =>
        assert MatchesFrom(s, p, from)[0] == i;
    }
  }

  /** For a non-empty pattern, no occurrence starts between one match's end and the next match. */
  lemma {:induction false} NothingBetweenMatches(s: string, p: string, from: nat)
    requires p != []
    ensures var r := MatchesFrom(s, p, from);
      forall k, j :: 0 <= k < |r| - 1 && r[k] + |p| <= j < r[k + 1] ==> !Text.OccursAt(s, p, j)
    decreases |s| + 1 - from
  {
    var r := MatchesFrom(s, p, from);
    if r != [] {
      var next := MatchesUnfold(s, p, from);
      NothingBetweenMatches(s, p, next);
      NothingBeforeFirstMatch(s, p, next);
      var rest := MatchesFrom(s, p, next);
      forall k, j | 0 <= k < |r| - 1 && r[k] + |p| <= j < r[k + 1]
        ensures !Text.OccursAt(s, p, j)
      {
        assert r[k + 1] == rest[k];
        if k > 0 {
          assert r[k] == rest[k - 1];
        }
      }
    }
  }

  /** For a non-empty pattern, no occurrence starts after the last match's end. */
  lemma {:induction false} NothingAfterLastMatch(s: string, p: string, from: nat)
    requires p != []
    ensures var r := MatchesFrom(s, p, from);
      r != [] ==> forall j :: r[|r| - 1] + |p| <= j ==> !Text.OccursAt(s, p, j)
    decreases |s| + 1 - from
  {
    var r := MatchesFrom(s, p, from);
    if r != [] {
      var next := MatchesUnfold(s, p, from);
      var rest := MatchesFrom(s, p, next);
      if rest == [] {
        NothingBeforeFirstMatch(s, p, next);
      } else {
        NothingAfterLastMatch(s, p, next);
        assert r[|r| - 1] == rest[|rest| - 1];
      }
    }
  }

  /**
   * The matches are the leftmost ones: for a non-empty pattern no
   * occurrence starts before the first match, between one match's end and
   * the next match, or after the last match's end.
   */
  lemma MatchesAreLeftmost(s: string, p: string, from: nat)
    requires p != []
    ensures var r := MatchesFrom(s, p, from);
      && (forall j :: from <= j && (r == [] || j < r[0]) ==> !Text.OccursAt(s, p, j))
      && (forall k, j :: 0 <= k < |r| - 1 && r[k] + |p| <= j < r[k + 1] ==> !Text.OccursAt(s, p, j))
      && (r != [] ==> forall j :: r[|r| - 1] + |p| <= j ==> !Text.OccursAt(s, p, j))
  {
    NothingBeforeFirstMatch(s, p, from);
    NothingBetweenMatches(s, p, from);
    NothingAfterLastMatch(s, p, from);
  }

  /** An empty pattern matches at every position from `from` to the end. */
  lemma {:induction false} EmptyPatternMatchesEverywhere(s: string, from: nat)
    requires from <= |s| + 1
    ensures var r := MatchesFrom(s, [], from);
      |r| == |s| + 1 - from && forall k :: 0 <= k < |r| ==> r[k] == from + k
    decreases |s| + 1 - from
  {
    if from <= |s| {
      EmptyPatternMatchesEverywhere(s, from + 1);
    }
  }

  /** The matches can be cut out of the original text in order, since lower-casing keeps the length. */
  lemma MatchesInOrder(text: string, query: string)
    ensures InOrder(MatchesFrom(Text.Lower(text), query, 0), |query|, |text|)
  {
    MatchesDisjoint(Text.Lower(text), query, 0);
  }

  /** Matches that can be cut out of a text of length `len` in order. */
  predicate InOrder(ms: seq<nat>, qlen: nat, len: nat)
  {
    && (forall k :: 0 <= k < |ms| ==> ms[k] + qlen <= len)
    && (forall i, j :: 0 <= i < j < |ms| ==> ms[i] + qlen <= ms[j])
  }

  lemma InOrderPrefix(ms: seq<nat>, qlen: nat, len: nat, n: nat)
    requires InOrder(ms, qlen, len) && n <= |ms|
    ensures InOrder(ms[..n], qlen, len)
  {
  }

  /** The spans so far and where the last match ended. */
  datatype SpanState = SpanState(spans: seq<Span>, lastEnd: nat)

  /** One match: the text since the previous match (if any) in the base style, then the match highlighted. */
  function AddMatch(st: SpanState, text: string, qlen: nat, start: nat): (r: SpanState)
    requires st.lastEnd <= start && start + qlen <= |text|
    ensures r.lastEnd == start + qlen
  {
    var before := if start > st.lastEnd then [Span(text[st.lastEnd..start], false)] else [];
    SpanState(st.spans + before + [Span(text[start..start + qlen], true)], start + qlen)
  }

  /** The spans for the given matches, in order. */
  function SpanFold(text: string, qlen: nat, ms: seq<nat>): (st: SpanState)
    requires InOrder(ms, qlen, |text|)
    ensures st.lastEnd == if ms == [] then 0 else ms[|ms| - 1] + qlen
    ensures st.lastEnd <= |text|
  {
    if ms == [] then SpanState([], 0)
    else
      InOrderPrefix(ms, qlen, |text|, |ms| - 1);
      AddMatch(SpanFold(text, qlen, ms[..|ms| - 1]), text, qlen, ms[|ms| - 1])
  }

  /** The rest of the text in the base style, and the whole text when there were no spans. */
  function FinishSpans(st: SpanState, text: string): seq<Span>
    requires st.lastEnd <= |text|
  {
    var spans := st.spans + (if st.lastEnd < |text| then [Span(text[st.lastEnd..], false)] else []);
    if spans == [] then [Span(text, false)] else spans
  }

  /** `highlight_matches` as a specification. */
  function Highlighted(text: string, query: string): seq<Span>
  {
    MatchesInOrder(text, query);
    var ms := MatchesFrom(Text.Lower(text), query, 0);
    FinishSpans(SpanFold(text, |query|, ms), text)
  }

  /** Folding one more match is adding it to the fold of the ones before. */
  lemma SpanFoldStep(text: string, qlen: nat, ms: seq<nat>, i: nat)
    requires InOrder(ms, qlen, |text|) && i < |ms|
    ensures InOrder(ms[..i], qlen, |text|) && InOrder(ms[..i + 1], qlen, |text|)
    ensures SpanFold(text, qlen, ms[..i]).lastEnd <= ms[i]
    ensures SpanFold(text, qlen, ms[..i + 1]) == AddMatch(SpanFold(text, qlen, ms[..i]), text, qlen, ms[i])
  {
    InOrderPrefix(ms, qlen, |text|, i);
    InOrderPrefix(ms, qlen, |text|, i + 1);
    assert ms[..i + 1][..i] == ms[..i];
  }

  /** `highlight_matches`. */
  method HighlightMatches(text: string, query: string) returns (spans: seq<Span>)
    ensures spans == Highlighted(text, query)
  {
    var textLower := Text.Lower(text);
    var matches := MatchesFrom(textLower, query, 0);
    MatchesInOrder(text, query);
    var lastEnd;
    spans, lastEnd := CollectSpans(text, |query|, matches);
    if lastEnd < |text| {
      spans := spans + [Span(text[lastEnd..], false)];
    }
    if spans == [] {
      spans := spans + [Span(text, false)];
    }
  }

  /** The loop of `highlight_matches` over the matches, in order. */
  method CollectSpans(text: string, qlen: nat, matches: seq<nat>) returns (spans: seq<Span>, lastEnd: nat)
    requires InOrder(matches, qlen, |text|)
    ensures SpanState(spans, lastEnd) == SpanFold(text, qlen, matches)
  {
    spans, lastEnd := [], 0;
    for i := 0 to |matches|
      invariant SpanState(spans, lastEnd) == SpanFold(text, qlen, matches[..i])
    {
      SpanFoldStep(text, qlen, matches, i);
      spans, lastEnd := PushMatch(spans, lastEnd, text, qlen, matches[i]);
    }
    assert matches[..|matches|] == matches;
  }

  /** One round of that loop: the gap before the match, if any, then the match. */
  method PushMatch(spans: seq<Span>, lastEnd: nat, text: string, qlen: nat, start: nat)
    returns (spans': seq<Span>, end: nat)
    requires lastEnd <= start && start + qlen <= |text|
    ensures SpanState(spans', end) == AddMatch(SpanState(spans, lastEnd), text, qlen, start)
  {
    spans' := spans;
    if start > lastEnd {
      spans' := spans' + [Span(text[lastEnd..start], false)];
    } else {
      assert spans' == spans + [];
    }
    end := start + qlen;
    spans' := spans' + [Span(text[start..end], true)];
  }

  /** The texts of the spans, joined. */
  function Joined(spans: seq<Span>): string
  {
    if spans == [] then [] else Joined(spans[..|spans| - 1]) + spans[|spans| - 1].text
  }

  /** The texts of the highlighted spans, in order. */
  function Marked(spans: seq<Span>): seq<string>
  {
    if spans == [] then []
    else Marked(spans[..|spans| - 1]) + (if spans[|spans| - 1].highlighted then [spans[|spans| - 1].text] else [])
  }

  lemma {:induction false} JoinedAppend(a: seq<Span>, b: seq<Span>)
    ensures Joined(a + b) == Joined(a) + Joined(b)
    ensures Marked(a + b) == Marked(a) + Marked(b)
    decreases |b|
  {
    if b == [] {
      assert a + b == a;
    } else {
      assert (a + b)[..|a + b| - 1] == a + b[..|b| - 1];
      JoinedAppend(a, b[..|b| - 1]);
    }
  }

  lemma OneSpan(sp: Span)
    ensures Joined([sp]) == sp.text
    ensures Marked([sp]) == if sp.highlighted then [sp.text] else []
  {
    assert [sp][..0] == [];
  }

  /** The text cut out at each match. */
  function MatchTexts(text: string, qlen: nat, ms: seq<nat>): seq<string>
    requires forall k :: 0 <= k < |ms| ==> ms[k] + qlen <= |text|
  {
    seq(|ms|, k requires 0 <= k < |ms| => text[ms[k]..ms[k] + qlen])
  }

  /** Adding a match extends the spelled-out text to the match's end. */
  lemma AddMatchJoins(st: SpanState, text: string, qlen: nat, start: nat)
    requires st.lastEnd <= start && start + qlen <= |text|
    requires Joined(st.spans) == text[..st.lastEnd]
    ensures Joined(AddMatch(st, text, qlen, start).spans) == text[..start + qlen]
    ensures AddMatch(st, text, qlen, start).spans != []
  {
    var before := if start > st.lastEnd then [Span(text[st.lastEnd..start], false)] else [];
    var hit := Span(text[start..start + qlen], true);
    assert Joined(st.spans + before) == text[..start] by {
      if before == [] {
        assert st.spans + before == st.spans;
      } else {
        JoinedSnoc(st.spans, before[0]);
        assert text[..st.lastEnd] + text[st.lastEnd..start] == text[..start];
      }
    }
    JoinedSnoc(st.spans + before, hit);
    assert text[..start] + text[start..start + qlen] == text[..start + qlen];
  }

  /** Appending one span appends its text. */
  lemma JoinedSnoc(a: seq<Span>, sp: Span)
    ensures Joined(a + [sp]) == Joined(a) + sp.text
  {
    assert (a + [sp])[..|a|] == a;
  }

  /** Adding a match adds exactly its text to the highlighted ones. */
  lemma AddMatchMarks(st: SpanState, text: string, qlen: nat, start: nat)
    requires st.lastEnd <= start && start + qlen <= |text|
    ensures Marked(AddMatch(st, text, qlen, start).spans) == Marked(st.spans) + [text[start..start + qlen]]
  {
    var before := if start > st.lastEnd then [Span(text[st.lastEnd..start], false)] else [];
    var hit := Span(text[start..start + qlen], true);
    assert Marked(st.spans + before) == Marked(st.spans) by {
      if before == [] {
        assert st.spans + before == st.spans;
      } else {
        JoinedAppend(st.spans, before);
        OneSpan(before[0]);
      }
    }
    JoinedAppend(st.spans + before, [hit]);
    OneSpan(hit);
  }

  /** The spans so far spell out the text up to the last match. */
  lemma {:induction false} SpanFoldJoins(text: string, qlen: nat, ms: seq<nat>)
    requires InOrder(ms, qlen, |text|)
    ensures Joined(SpanFold(text, qlen, ms).spans) == text[..SpanFold(text, qlen, ms).lastEnd]
    ensures ms != [] ==> SpanFold(text, qlen, ms).spans != []
  {
    if ms != [] {
      InOrderPrefix(ms, qlen, |text|, |ms| - 1);
      SpanFoldJoins(text, qlen, ms[..|ms| - 1]);
      AddMatchJoins(SpanFold(text, qlen, ms[..|ms| - 1]), text, qlen, ms[|ms| - 1]);
    }
  }

  /** The highlighted spans so far are the matches so far. */
  lemma {:induction false} SpanFoldMarks(text: string, qlen: nat, ms: seq<nat>)
    requires InOrder(ms, qlen, |text|)
    ensures Marked(SpanFold(text, qlen, ms).spans) == MatchTexts(text, qlen, ms)
  {
    if ms != [] {
      var prev := ms[..|ms| - 1];
      var start := ms[|ms| - 1];
      InOrderPrefix(ms, qlen, |text|, |ms| - 1);
      assert MatchTexts(text, qlen, ms) == MatchTexts(text, qlen, prev) + [text[start..start + qlen]];
      SpanFoldMarks(text, qlen, prev);
      AddMatchMarks(SpanFold(text, qlen, prev), text, qlen, start);
    }
  }

  /** Finishing spans that spell out the text up to `lastEnd` spells out the whole text. */
  lemma FinishJoins(st: SpanState, text: string)
    requires st.lastEnd <= |text| && Joined(st.spans) == text[..st.lastEnd]
    ensures Joined(FinishSpans(st, text)) == text
  {
    if st.lastEnd < |text| {
      var rest := Span(text[st.lastEnd..], false);
      JoinedAppend(st.spans, [rest]);
      OneSpan(rest);
      assert text[..st.lastEnd] + text[st.lastEnd..] == text;
    } else {
      assert text[..st.lastEnd] == text;
      assert st.spans + [] == st.spans;
      if st.spans == [] {
        OneSpan(Span(text, false));
      }
    }
  }

  /** Finishing adds no highlighted span. */
  lemma FinishMarks(st: SpanState, text: string)
    requires st.lastEnd <= |text|
    ensures Marked(FinishSpans(st, text)) == Marked(st.spans)
  {
    if st.lastEnd < |text| {
      var rest := Span(text[st.lastEnd..], false);
      JoinedAppend(st.spans, [rest]);
      OneSpan(rest);
    } else {
      assert st.spans + [] == st.spans;
      if st.spans == [] {
        OneSpan(Span(text, false));
      }
    }
  }

  /** Joined, the spans give back the whole title. */
  lemma HighlightJoins(text: string, query: string)
    ensures Joined(Highlighted(text, query)) == text
  {
    var ms := MatchesFrom(Text.Lower(text), query, 0);
    MatchesInOrder(text, query);
    SpanFoldJoins(text, |query|, ms);
    FinishJoins(SpanFold(text, |query|, ms), text);
  }

  /** The highlighted spans are exactly the successive non-overlapping matches. */
  lemma HighlightMarks(text: string, query: string)
    ensures var ms := MatchesFrom(Text.Lower(text), query, 0);
      Marked(Highlighted(text, query)) == MatchTexts(text, |query|, ms)
  {
    var ms := MatchesFrom(Text.Lower(text), query, 0);
    MatchesInOrder(text, query);
    SpanFoldMarks(text, |query|, ms);
    FinishMarks(SpanFold(text, |query|, ms), text);
  }

  /** Lower-casing a slice is slicing the lower-cased text. */
  lemma LowerSlice(text: string, i: nat, j: nat)
    requires i <= j <= |text|
    ensures Text.Lower(text[i..j]) == Text.Lower(text)[i..j]
  {
  }

  /** Each highlighted text lower-cases to the query. */
  lemma MatchesLowerToQuery(text: string, query: string)
    ensures var ms := MatchesFrom(Text.Lower(text), query, 0);
      forall k :: 0 <= k < |ms| ==> Text.Lower(MatchTexts(text, |query|, ms)[k]) == query
  {
    var lower := Text.Lower(text);
    var ms := MatchesFrom(lower, query, 0);
    MatchesOccur(lower, query, 0);
    forall k | 0 <= k < |ms|
      ensures Text.Lower(MatchTexts(text, |query|, ms)[k]) == query
    {
      assert Text.OccursAt(lower, query, ms[k]);
      assert MatchTexts(text, |query|, ms)[k] == text[ms[k]..ms[k] + |query|];
      LowerSlice(text, ms[k], ms[k] + |query|);
    }
  }

  /** Without a match the title is one span in the base style. */
  lemma NoMatchOneSpan(text: string, query: string)
    requires query != [] && !Text.Contains(Text.Lower(text), query)
    ensures Highlighted(text, query) == [Span(text, false)]
  {
    var ms := MatchesFrom(Text.Lower(text), query, 0);
    if ms != [] {
      assert false;
    }
  }
}
