/**
 * Rich article content: the small HTML helpers that turn an article body into
 * display elements, the collapsing of blank lines, the plain-text fallback,
 * the list of image urls, and the per-article image cache.
 */
module RichContent {
  import opened Wrappers
  import Text

  /** A display element; `Paragraph` is the source's `ContentElement::Text`. */
  datatype ContentElement =
    | Paragraph(text: string)
    | Heading(level: nat, text: string)
    | Image(url: string, alt: Option<string>)
    | Separator
    | Quote(text: string)
    | Code(text: string)
    | ListItem(text: string)
    | EmptyLine

  // ---------------------------------------------------------------- collapse_empty_lines

  /**
   * The state of the collapsing loop after it has seen `s`: the elements
   * pushed so far and whether the last push was a blank line.
   */
  function PushState(s: seq<ContentElement>): (st: (seq<ContentElement>, bool))
  {
    if s == [] then ([], false)
    else
      var prev := PushState(s[..|s| - 1]);
      var e := s[|s| - 1];
      if e.EmptyLine? then
        if !prev.1 && prev.0 != [] then (prev.0 + [EmptyLine], true) else prev
      else (prev.0 + [e], false)
  }

  lemma PushSnoc(s: seq<ContentElement>, e: ContentElement)
    ensures PushState(s + [e]) ==
      var prev := PushState(s);
      if e.EmptyLine? then
        if !prev.1 && prev.0 != [] then (prev.0 + [EmptyLine], true) else prev
      else (prev.0 + [e], false)
  {
    assert (s + [e])[..|s|] == s;
  }

  /** Drops one trailing blank line. */
  function DropTrailingBlank(r: seq<ContentElement>): seq<ContentElement>
  {
    if r != [] && r[|r| - 1].EmptyLine? then r[..|r| - 1] else r
  }

  /** `collapse_empty_lines` as a value. */
  function Collapse(s: seq<ContentElement>): seq<ContentElement>
  {
    DropTrailingBlank(PushState(s).0)
  }

  /** The non-blank elements, in order. */
  function Content(s: seq<ContentElement>): (c: seq<ContentElement>)
    ensures forall k :: 0 <= k < |c| ==> !c[k].EmptyLine?
  {
    if s == [] then []
    else if s[|s| - 1].EmptyLine? then Content(s[..|s| - 1])
    else Content(s[..|s| - 1]) + [s[|s| - 1]]
  }

  /** No two blank lines in a row. */
  predicate NoBlankRuns(r: seq<ContentElement>)
  {
    forall i :: 0 <= i < |r| - 1 ==> !(r[i].EmptyLine? && r[i + 1].EmptyLine?)
  }

  /** Neither the first nor the last element is a blank line. */
  predicate NoBlankEnds(r: seq<ContentElement>)
  {
    r != [] ==> !r[0].EmptyLine? && !r[|r| - 1].EmptyLine?
  }

  lemma ContentSnocBlank(r: seq<ContentElement>)
    ensures Content(r + [EmptyLine]) == Content(r)
  {
    assert (r + [EmptyLine])[..|r|] == r;
  }

  lemma ContentSnoc(r: seq<ContentElement>, e: ContentElement)
    requires !e.EmptyLine?
    ensures Content(r + [e]) == Content(r) + [e]
  {
    assert (r + [e])[..|r|] == r;
  }

  /** Never starts with a blank line, never has two in a row, and the flag says whether the last push was one. */
  predicate PushShaped(st: (seq<ContentElement>, bool))
  {
    && NoBlankRuns(st.0)
    && (st.0 != [] ==> !st.0[0].EmptyLine?)
    && (st.1 <==> st.0 != [] && st.0[|st.0| - 1].EmptyLine?)
  }

  /** One push keeps the shape and adds the element to the content unless it is a blank line. */
  lemma PushStepShape(prev: (seq<ContentElement>, bool), e: ContentElement)
    requires PushShaped(prev)
    ensures var next := if e.EmptyLine? then (if !prev.1 && prev.0 != [] then (prev.0 + [EmptyLine], true) else prev)
                        else (prev.0 + [e], false);
      && PushShaped(next)
      && Content(next.0) == Content(prev.0) + (if e.EmptyLine? then [] else [e])
  {
    if e.EmptyLine? {
      if !prev.1 && prev.0 != [] {
        ContentSnocBlank(prev.0);
      }
    } else {
      ContentSnoc(prev.0, e);
    }
  }

  /**
   * What the loop has pushed keeps every non-blank element in order, never
   * starts with a blank line and never has two in a row; the flag says
   * exactly whether the last push was a blank line.
   */
  lemma {:induction false} PushStateShape(s: seq<ContentElement>)
    ensures Content(PushState(s).0) == Content(s)
    ensures NoBlankRuns(PushState(s).0)
    ensures PushState(s).0 != [] ==> !PushState(s).0[0].EmptyLine?
    ensures PushState(s).1 <==> PushState(s).0 != [] && PushState(s).0[|PushState(s).0| - 1].EmptyLine?
  {
    if s != [] {
      var init := s[..|s| - 1];
      PushStateShape(init);
      PushStepShape(PushState(init), s[|s| - 1]);
    }
  }

  /** `collapse_empty_lines` keeps the non-blank elements in order and leaves no blank run and no blank at either end. */
  lemma CollapseSpec(s: seq<ContentElement>)
    ensures Content(Collapse(s)) == Content(s)
    ensures NoBlankRuns(Collapse(s))
    ensures NoBlankEnds(Collapse(s))
    ensures Collapse(s) == Normalized(s)
  {
    CollapseNormalized(s);
    PushStateShape(s);
    var p := PushState(s).0;
    if p != [] && p[|p| - 1].EmptyLine? {
      assert p == p[..|p| - 1] + [EmptyLine];
      ContentSnocBlank(p[..|p| - 1]);
    }
  }

  /**
   * The documented result, read from the front: leading blank lines go,
   * and a non-blank element is followed by exactly one blank line when
   * blank lines follow it and something non-blank comes after them.
   */
  function Normalized(s: seq<ContentElement>): (r: seq<ContentElement>)
    ensures r != [] ==> !r[0].EmptyLine? && !r[|r| - 1].EmptyLine?
    decreases |s|
  {
    if s == [] then []
    else if s[0].EmptyLine? then Normalized(s[1..])
    else
      var rest := Normalized(s[1..]);
      [s[0]] + (if |s| > 1 && s[1].EmptyLine? && rest != [] then [EmptyLine] else []) + rest
  }

  /**
   * What the loop pushes for the elements still to come, read from the
   * front; `canBreak` says whether a blank line may be pushed next (the
   * result so far is non-empty and does not end in one).
   */
  function PushedFrom(canBreak: bool, t: seq<ContentElement>): seq<ContentElement>
    decreases |t|
  {
    if t == [] then []
    else if t[0].EmptyLine? then (if canBreak then [EmptyLine] else []) + PushedFrom(false, t[1..])
    else [t[0]] + PushedFrom(true, t[1..])
  }

  /** The loop's result after `s + t` is its result after `s` followed by what `t` pushes from there. */
  lemma {:induction false} PushAppend(s: seq<ContentElement>, t: seq<ContentElement>)
    ensures PushState(s + t).0 == PushState(s).0 + PushedFrom(!PushState(s).1 && PushState(s).0 != [], t)
    decreases |t|
  {
    if t == [] {
      assert s + t == s;
    } else {
      var e := t[0];
      assert s + t == (s + [e]) + t[1..];
      PushSnoc(s, e);
      PushAppend(s + [e], t[1..]);
    }
  }

  lemma DropTrailingBlankCons(x: ContentElement, w: seq<ContentElement>)
    requires w != []
    ensures DropTrailingBlank([x] + w) == [x] + DropTrailingBlank(w)
  {
    if w[|w| - 1].EmptyLine? {
      assert ([x] + w)[..|w|] == [x] + w[..|w| - 1];
    }
  }

  lemma DropTrailingBlankKeepsHead(w: seq<ContentElement>)
    requires w != [] && !w[0].EmptyLine?
    ensures DropTrailingBlank(w) != [] && DropTrailingBlank(w)[0] == w[0]
  {
  }

  /** The blank line kept in front of `t` after a non-blank element: one, when `t` starts with blanks and keeps something. */
  function Gap(t: seq<ContentElement>): seq<ContentElement>
  {
    if t != [] && t[0].EmptyLine? && Normalized(t) != [] then [EmptyLine] else []
  }

  /** The three facts `PushedFromNormalized` proves of `t`. */
  predicate PushedAgrees(t: seq<ContentElement>)
  {
    && DropTrailingBlank(PushedFrom(false, t)) == Normalized(t)
    && (PushedFrom(false, t) != [] ==> !PushedFrom(false, t)[0].EmptyLine?)
    && DropTrailingBlank(PushedFrom(true, t)) == Gap(t) + Normalized(t)
  }

  lemma PushedAgreesBlank(t: seq<ContentElement>)
    requires t != [] && t[0].EmptyLine? && PushedAgrees(t[1..])
    ensures PushedAgrees(t)
  {
    var w := PushedFrom(false, t[1..]);
    assert PushedFrom(false, t) == w;
    assert PushedFrom(true, t) == [EmptyLine] + w;
    assert Normalized(t) == Normalized(t[1..]);
    if w != [] {
      DropTrailingBlankKeepsHead(w);
      DropTrailingBlankCons(EmptyLine, w);
    }
  }

  lemma PushedFromElement(t: seq<ContentElement>)
    requires t != [] && !t[0].EmptyLine?
    ensures PushedFrom(false, t) == [t[0]] + PushedFrom(true, t[1..])
    ensures PushedFrom(true, t) == [t[0]] + PushedFrom(true, t[1..])
  {
  }

  lemma NormalizedElement(t: seq<ContentElement>)
    requires t != [] && !t[0].EmptyLine?
    ensures Normalized(t) == [t[0]] + (Gap(t[1..]) + Normalized(t[1..]))
  {
    var u := t[1..];
    var rest := Normalized(u);
    var gap: seq<ContentElement> := if |t| > 1 && t[1].EmptyLine? && rest != [] then [EmptyLine] else [];
    assert Normalized(t) == [t[0]] + gap + rest;
    assert Gap(u) == gap by {
      assert (|t| > 1 && t[1].EmptyLine?) == (u != [] && u[0].EmptyLine?);
    }
    assert [t[0]] + gap + rest == [t[0]] + (gap + rest);
  }

  lemma PushedAgreesElement(t: seq<ContentElement>)
    requires t != [] && !t[0].EmptyLine? && PushedAgrees(t[1..])
    ensures PushedAgrees(t)
  {
    var u := t[1..];
    var v := PushedFrom(true, u);
    var kept := Gap(u) + Normalized(u);
    assert DropTrailingBlank(v) == kept;
    PushedFromElement(t);
    NormalizedElement(t);
    if v == [] {
      assert DropTrailingBlank([t[0]] + v) == [t[0]] + kept;
    } else {
      DropTrailingBlankCons(t[0], v);
    }
    assert Gap(t) == [];
  }

  /**
   * From a fresh start the pushed elements, less a trailing blank, are the
   * documented result and never start with a blank; right after a
   * non-blank element one blank comes first exactly when blank lines follow
   * and something is kept after them.
   */
  lemma {:induction false} PushedFromNormalized(t: seq<ContentElement>)
    ensures PushedAgrees(t)
    decreases |t|
  {
    if t == [] {
    } else {
      PushedFromNormalized(t[1..]);
      if t[0].EmptyLine? {
        PushedAgreesBlank(t);
      } else {
        PushedAgreesElement(t);
      }
    }
  }

  /** `collapse_empty_lines` gives exactly the documented result. */
  lemma CollapseNormalized(s: seq<ContentElement>)
    ensures Collapse(s) == Normalized(s)
  {
    var empty: seq<ContentElement> := [];
    assert PushState(empty) == ([], false);
    PushAppend(empty, s);
    assert empty + s == s;
    assert PushState(s).0 == PushedFrom(false, s);
    PushedFromNormalized(s);
    assert DropTrailingBlank(PushedFrom(false, s)) == Normalized(s);
  }

  /** `n` blank lines. */
  function Blanks(n: nat): (r: seq<ContentElement>)
    ensures |r| == n && forall i :: 0 <= i < n ==> r[i] == EmptyLine
  {
    seq(n, _ => EmptyLine)
  }

  lemma {:induction false} NormalizedSkipsBlanks(n: nat, b: seq<ContentElement>)
    ensures Normalized(Blanks(n) + b) == Normalized(b)
  {
    if n > 0 {
      assert (Blanks(n) + b)[1..] == Blanks(n - 1) + b;
      NormalizedSkipsBlanks(n - 1, b);
    } else {
      assert Blanks(n) + b == b;
    }
  }

  /** Any run of blank lines between a non-blank element and a non-blank rest becomes exactly one. */
  lemma CollapseRun(x: ContentElement, n: nat, b: seq<ContentElement>)
    requires !x.EmptyLine? && n >= 1
    requires b != [] && !b[0].EmptyLine?
    ensures Collapse([x] + Blanks(n) + b) == [x, EmptyLine] + Collapse(b)
  {
    var s := [x] + Blanks(n) + b;
    var rest := Normalized(s[1..]);
    assert s[1..] == Blanks(n) + b;
    NormalizedSkipsBlanks(n, b);
    assert rest == Normalized(b);
    assert Normalized(b) != [] by {
      assert Normalized(b) == [b[0]] + Normalized(b)[1..];
    }
    assert s[0] == x && |s| > 1 && s[1].EmptyLine?;
    assert Normalized(s) == [x] + [EmptyLine] + rest;
    CollapseNormalized(s);
    CollapseNormalized(b);
  }

  /** The run of blank lines in one small example: blanks at the ends go, the run between x and y becomes one. */
  lemma CollapseSeparates(x: ContentElement, y: ContentElement)
    requires !x.EmptyLine? && !y.EmptyLine?
    ensures Collapse([EmptyLine, x, EmptyLine, EmptyLine, y, EmptyLine]) == [x, EmptyLine, y]
    ensures Collapse([x, y]) == [x, y]
  {
    var s1 := [EmptyLine];
    var s2 := s1 + [x];
    var s3 := s2 + [EmptyLine];
    var s4 := s3 + [EmptyLine];
    var s5 := s4 + [y];
    var s6 := s5 + [EmptyLine];
    PushSnoc([], EmptyLine);
    assert [] + [EmptyLine] == s1;
    PushSnoc(s1, x);
    PushSnoc(s2, EmptyLine);
    PushSnoc(s3, EmptyLine);
    PushSnoc(s4, y);
    PushSnoc(s5, EmptyLine);
    assert s6 == [EmptyLine, x, EmptyLine, EmptyLine, y, EmptyLine];
    PushSnoc([], x);
    PushSnoc([x], y);
    assert [] + [x] == [x] && [x] + [y] == [x, y];
  }

  /** `collapse_empty_lines`: one pass that pushes a blank only after a non-blank element, then drops a trailing blank. */
  method CollapseEmptyLines(elements: seq<ContentElement>) returns (result: seq<ContentElement>)
    ensures result == Collapse(elements) && result == Normalized(elements)
    ensures Content(result) == Content(elements) && NoBlankRuns(result) && NoBlankEnds(result)
  {
    result := [];
    var lastWasEmpty := false;
    for i := 0 to |elements|
      invariant (result, lastWasEmpty) == PushState(elements[..i])
    {
      assert elements[..i + 1][..i] == elements[..i];
      var elem := elements[i];
      if elem.EmptyLine? {
        if !lastWasEmpty && result != [] {
          result := result + [EmptyLine];
          lastWasEmpty := true;
        }
      } else {
        result := result + [elem];
        lastWasEmpty := false;
      }
    }
    assert elements[..|elements|] == elements;
    if result != [] && result[|result| - 1].EmptyLine? {
      result := result[..|result| - 1];
    }
    CollapseSpec(elements);
    CollapseNormalized(elements);
  }

  // ---------------------------------------------------------------- strip_html_tags

  /**
   * The state of the stripping loop after it has read `s` starting from
   * `st`: the characters kept and whether it is inside a tag. '<' opens a
   * tag, '>' closes one, and neither is ever kept.
   */
  function StripFrom(st: (string, bool), s: string): (r: (string, bool))
  {
    if s == [] then st
    else
      var prev := StripFrom(st, s[..|s| - 1]);
      var c := s[|s| - 1];
      if c == '<' then (prev.0, true)
      else if c == '>' then (prev.0, false)
      else if prev.1 then prev
      else (prev.0 + [c], false)
  }

  /** The tag-free text before entity decoding. */
  function StripTags(s: string): string
  {
    StripFrom(([], false), s).0
  }

  /** No angle bracket survives stripping. */
  lemma {:induction false} StripNoBrackets(s: string)
    ensures '<' !in StripTags(s) && '>' !in StripTags(s)
  {
    StripFromNoBrackets(s);
  }

  lemma {:induction false} StripFromNoBrackets(s: string)
    ensures '<' !in StripFrom(([], false), s).0 && '>' !in StripFrom(([], false), s).0
  {
    if s != [] {
      StripFromNoBrackets(s[..|s| - 1]);
    }
  }

  /** Text with no angle brackets is kept as it is. */
  lemma {:induction false} StripPlain(s: string)
    requires '<' !in s && '>' !in s
    ensures StripFrom(([], false), s) == (s, false)
  {
    OutsideTag([], s);
    assert [] + s == s;
  }

  /** Stripping runs left to right: a suffix continues from the state the prefix left. */
  lemma {:induction false} StripAppend(st: (string, bool), a: string, b: string)
    ensures StripFrom(st, a + b) == StripFrom(StripFrom(st, a), b)
  {
    if b != [] {
      assert (a + b)[..|a + b| - 1] == a + b[..|b| - 1];
      StripAppend(st, a, b[..|b| - 1]);
    } else {
      assert a + b == a;
    }
  }

  /** Everything from a '<' through the next '>' is dropped, and text on both sides is kept. */
  lemma StripDropsTag(before: string, inside: string, after: string)
    requires '<' !in before && '>' !in before && '>' !in inside
    requires '<' !in after && '>' !in after
    ensures StripTags(before + "<" + inside + ">" + after) == before + after
  {
    var st := ([], false);
    StripPlain(before);
    assert StripFrom((before, false), "<") == (before, true);
    StripAppend(st, before, "<");
    InsideTag(before, inside);
    StripAppend(st, before + "<", inside);
    assert StripFrom((before, true), ">") == (before, false);
    StripAppend(st, before + "<" + inside, ">");
    OutsideTag(before, after);
    StripAppend(st, before + "<" + inside + ">", after);
  }

  lemma {:induction false} InsideTag(kept: string, inside: string)
    requires '>' !in inside
    ensures StripFrom((kept, true), inside) == (kept, true)
  {
    if inside != [] {
      InsideTag(kept, inside[..|inside| - 1]);
    }
  }

  lemma {:induction false} OutsideTag(kept: string, after: string)
    requires '<' !in after && '>' !in after
    ensures StripFrom((kept, false), after) == (kept + after, false)
  {
    if after != [] {
      var init := after[..|after| - 1];
      var c := after[|after| - 1];
      assert c in after;
      assert forall x :: x in init ==> x in after;
      OutsideTag(kept, init);
      assert StripFrom((kept, false), init) == (kept + init, false);
      assert after[..|after| - 1] == init;
      assert StripFrom((kept, false), after) == (kept + init + [c], false);
      assert kept + after == kept + init + [c];
    } else {
      assert kept + after == kept;
    }
  }

  /** `strip_html_tags`: drop tags character by character, then decode entities. */
  method StripHtmlTags(html: string) returns (r: string)
    ensures r == DecodeHtmlEntities(StripTags(html))
  {
    var kept: string := [];
    var inTag := false;
    for i := 0 to |html|
      invariant (kept, inTag) == StripFrom(([], false), html[..i])
    {
      assert html[..i + 1][..i] == html[..i];
      var c := html[i];
      if c == '<' {
        inTag := true;
      } else if c == '>' {
        inTag := false;
      } else if !inTag {
        kept := kept + [c];
      }
    }
    assert html[..|html|] == html;
    r := DecodeHtmlEntities(kept);
  }

  // ---------------------------------------------------------------- decode_html_entities

  /** `str::replace`: every non-overlapping occurrence of `from`, left to right, becomes `to`. */
  function Replace(s: string, from: string, to: string): (r: string)
    requires from != []
    ensures |to| <= |from| ==> |r| <= |s|
    decreases |s|
  {
    if |s| < |from| then s
    else if s[..|from|] == from then to + Replace(s[|from|..], from, to)
    else [s[0]] + Replace(s[1..], from, to)
  }

  /** A string that cannot hold `from` (it lacks its first character) is not changed. */
  lemma {:induction false} ReplaceAbsent(s: string, from: string, to: string)
    requires from != [] && from[0] !in s
    ensures Replace(s, from, to) == s
    decreases |s|
  {
    if |s| >= |from| {
      assert s[..|from|][0] == s[0];
      ReplaceAbsent(s[1..], from, to);
    }
  }

  /** The entity table, in the order the replacements are applied. */
  const ENTITIES: seq<(string, string)> := [
    ("&amp;", "&"), ("&lt;", "<"), ("&gt;", ">"), ("&quot;", "\""),
    ("&apos;", "'"), ("&#39;", "'"), ("&nbsp;", " "), ("&#x27;", "'"),
    ("&#x2F;", "/"), ("&mdash;", "\U{2014}"), ("&ndash;", "\U{2013}"), ("&hellip;", "\U{2026}"),
    ("&rsquo;", "'"), ("&lsquo;", "'"), ("&rdquo;", "\""), ("&ldquo;", "\"")]

  /** Entity names all start with '&'. */
  predicate EntityNames(pairs: seq<(string, string)>)
  {
    forall k :: 0 <= k < |pairs| ==> pairs[k].0 != [] && pairs[k].0[0] == '&'
  }

  /** The replacements of `pairs` applied one after the other. */
  function ReplaceEach(s: string, pairs: seq<(string, string)>): (r: string)
    requires EntityNames(pairs)
    ensures Shrinking(pairs) ==> |r| <= |s|
    decreases pairs
  {
    if pairs == [] then s
    else ReplaceEach(Replace(s, pairs[0].0, pairs[0].1), pairs[1..])
  }

  /** No replacement is longer than the entity it replaces. */
  predicate Shrinking(pairs: seq<(string, string)>)
  {
    forall k :: 0 <= k < |pairs| ==> |pairs[k].1| <= |pairs[k].0|
  }

  lemma EntitiesShrink()
    ensures Shrinking(ENTITIES)
  {
    forall k | 0 <= k < |ENTITIES| ensures |ENTITIES[k].1| <= |ENTITIES[k].0| {
      assert |ENTITIES[k].1| == 1;
      assert |ENTITIES[k].0| >= 4;
    }
  }

  /** `decode_html_entities`: sixteen replacements in sequence, `&amp;` first. */
  function DecodeHtmlEntities(s: string): (r: string)
    ensures |r| <= |s|
  {
    assert EntityNames(ENTITIES);
    EntitiesShrink();
    ReplaceEach(s, ENTITIES)
  }

  lemma {:induction false} ReplaceEachNoAmp(s: string, pairs: seq<(string, string)>)
    requires EntityNames(pairs) && '&' !in s
    ensures ReplaceEach(s, pairs) == s
  {
    if pairs != [] {
      ReplaceAbsent(s, pairs[0].0, pairs[0].1);
      ReplaceEachNoAmp(s, pairs[1..]);
    }
  }

  /** Text without an ampersand is not changed by decoding. */
  lemma DecodeWithoutAmpersand(s: string)
    requires '&' !in s
    ensures DecodeHtmlEntities(s) == s
  {
    assert EntityNames(ENTITIES);
    ReplaceEachNoAmp(s, ENTITIES);
  }

  /** Because `&amp;` is replaced first, a doubly escaped "&amp;lt;" ends up as "<". */
  lemma AmpersandFirst()
    ensures DecodeHtmlEntities("&amp;lt;") == "<"
  {
    assert EntityNames(ENTITIES);
    assert "&amp;lt;"[..5] == "&amp;";
    assert "&amp;lt;"[5..] == "lt;";
    ReplaceAbsent("lt;", "&amp;", "&");
    assert Replace("&amp;lt;", "&amp;", "&") == "&lt;";
    assert "&lt;"[..4] == "&lt;";
    assert Replace("&lt;", "&lt;", "<") == "<";
    ReplaceEachNoAmp("<", ENTITIES[2..]);
  }

  // ---------------------------------------------------------------- extract_attr

  /**
   * The text after the first case-insensitive occurrence of `pattern` up to
   * the next `quote`, or None when either is missing.
   */
  function AttrValue(tag: string, pattern: string, quote: char): (r: Option<string>)
    ensures r.Some? ==> quote !in r.value
    ensures !Text.Contains(Text.Lower(tag), Text.Lower(pattern)) ==> r.None?
  {
    match Text.Find(Text.Lower(tag), Text.Lower(pattern))
    case None => None
    case Some(start) =>
      var rest := tag[start + |pattern|..];
      match Text.Find(rest, [quote])
      case None => None
      case Some(end) =>
        Text.CharAbsentBefore(rest, quote, end);
        Some(rest[..end])
  }

  /** `extract_attr`: `attr="…"` is tried first, then `attr='…'`. */
  function ExtractAttr(tag: string, attr: string): (r: Option<string>)
    ensures r.Some? ==> AttrValue(tag, attr + "=\"", '"') == r || AttrValue(tag, attr + "='", '\'') == r
  {
    match AttrValue(tag, attr + "=\"", '"')
    case Some(v) => Some(v)
    case None => AttrValue(tag, attr + "='", '\'')
  }

  /** No occurrence of `attr=` can start inside `prefix` when neither holds an '='. */
  lemma NoEarlierOccurrence(prefix: string, attr: string, pattern: string, tail: string, j: nat)
    requires |pattern| > |attr| && pattern[..|attr|] == attr && pattern[|attr|] == '='
    requires '=' !in prefix && '=' !in attr && j < |prefix|
    ensures !Text.OccursAt(Text.Lower(prefix + pattern + tail), Text.Lower(pattern), j)
  {
    var s := prefix + pattern + tail;
    var p := j + |attr|;
    if p < |prefix| {
      assert s[p] == prefix[p] && prefix[p] in prefix;
    } else {
      assert s[p] == attr[p - |prefix|] && attr[p - |prefix|] in attr;
    }
    assert Text.Lower(s)[p] != '=';
    if j + |pattern| <= |s| {
      assert Text.Lower(s)[j..j + |pattern|][|attr|] != Text.Lower(pattern)[|attr|];
    }
  }

  /** The pattern is first found right after `prefix`. */
  lemma FindAfterPrefix(prefix: string, attr: string, pattern: string, tail: string)
    requires |pattern| > |attr| && pattern[..|attr|] == attr && pattern[|attr|] == '='
    requires '=' !in prefix && '=' !in attr
    ensures Text.Find(Text.Lower(prefix + pattern + tail), Text.Lower(pattern)) == Some(|prefix|)
  {
    var tag := prefix + pattern + tail;
    forall j | 0 <= j < |prefix|
      ensures !Text.OccursAt(Text.Lower(tag), Text.Lower(pattern), j)
    {
      NoEarlierOccurrence(prefix, attr, pattern, tail, j);
    }
    forall i | 0 <= i < |pattern|
      ensures Text.Lower(tag)[|prefix|..|prefix| + |pattern|][i] == Text.Lower(pattern)[i]
    {
      assert tag[|prefix| + i] == pattern[i];
    }
    assert Text.Lower(tag)[|prefix|..|prefix| + |pattern|] == Text.Lower(pattern);
    assert Text.OccursAt(Text.Lower(tag), Text.Lower(pattern), |prefix|);
  }

  /** The closing quote is first found right after `v`. */
  lemma FindQuote(v: string, quote: char, suffix: string)
    requires quote !in v
    ensures Text.Find(v + [quote] + suffix, [quote]) == Some(|v|)
  {
    var rest := v + [quote] + suffix;
    assert rest[|v|..|v| + 1] == [quote];
    assert Text.OccursAt(rest, [quote], |v|);
    forall j | 0 <= j < |v| ensures !Text.OccursAt(rest, [quote], j) {
      assert rest[j..j + 1] == [v[j]];
      assert v[j] in v;
    }
  }

  lemma QuotedValue(prefix: string, attr: string, pattern: string, quote: char, v: string, suffix: string)
    requires pattern == attr + "=" + [quote]
    requires '=' !in prefix && '=' !in attr && quote !in v
    ensures AttrValue(prefix + pattern + v + [quote] + suffix, pattern, quote) == Some(v)
  {
    var tail := v + [quote] + suffix;
    var tag := prefix + pattern + tail;
    assert tag == prefix + pattern + v + [quote] + suffix;
    assert pattern[..|attr|] == attr;
    FindAfterPrefix(prefix, attr, pattern, tail);
    assert tag[|prefix| + |pattern|..] == tail;
    FindQuote(v, quote, suffix);
    assert tail[..|v|] == v;
  }

  /** A double-quoted value is found between `attr="` and the next '"'. */
  lemma ExtractDoubleQuoted(prefix: string, attr: string, v: string, suffix: string)
    requires '=' !in prefix && '=' !in attr && '"' !in v
    ensures ExtractAttr(prefix + attr + "=\"" + v + "\"" + suffix, attr) == Some(v)
  {
    var pattern := attr + "=\"";
    var tag := prefix + attr + "=\"" + v + "\"" + suffix;
    assert tag == prefix + pattern + v + ['"'] + suffix;
    QuotedValue(prefix, attr, pattern, '"', v, suffix);
    assert AttrValue(tag, pattern, '"') == Some(v);
  }

  /** Without a double-quoted form, a single-quoted value is found between `attr='` and the next '\''. */
  lemma ExtractSingleQuoted(prefix: string, attr: string, v: string, suffix: string)
    requires '=' !in prefix && '=' !in attr && '\'' !in v
    requires AttrValue(prefix + attr + "='" + v + "'" + suffix, attr + "=\"", '"').None?
    ensures ExtractAttr(prefix + attr + "='" + v + "'" + suffix, attr) == Some(v)
  {
    var pattern := attr + "='";
    var tag := prefix + attr + "='" + v + "'" + suffix;
    assert tag == prefix + pattern + v + ['\''] + suffix;
    QuotedValue(prefix, attr, pattern, '\'', v, suffix);
    assert AttrValue(tag, pattern, '\'') == Some(v);
  }

  // ---------------------------------------------------------------- remove_tags

  /** The text searched for as an opening tag: the characters `<tag[^>]*>` taken literally. */
  function OpenPattern(tag: string): string
  {
    "<" + tag + "[^>]*>"
  }

  function ClosePattern(tag: string): string
  {
    "</" + tag + ">"
  }

  /**
   * One removal: from the first (case-insensitive) opening pattern through
   * the first closing tag after it; None when either is missing.
   */
  function RemoveOnce(s: string, tag: string): (r: Option<string>)
    ensures r.Some? ==> |r.value| < |s|
    ensures !Text.Contains(Text.Lower(s), Text.Lower(OpenPattern(tag))) ==> r.None?
  {
    match Text.Find(Text.Lower(s), Text.Lower(OpenPattern(tag)))
    case None => None
    case Some(start) =>
      match Text.Find(Text.Lower(s[start..]), Text.Lower(ClosePattern(tag)))
      case None => None
      case Some(endStart) => Some(s[..start] + s[start + endStart + |ClosePattern(tag)|..])
  }

  /** Removals for one tag until none applies. */
  function RemoveTag(s: string, tag: string): string
    decreases |s|
  {
    match RemoveOnce(s, tag)
    case None => s
    case Some(t) => RemoveTag(t, tag)
  }

  /** Removals for each tag in turn. */
  function RemoveTagsSpec(s: string, tags: seq<string>): string
    decreases tags
  {
    if tags == [] then s else RemoveTagsSpec(RemoveTag(s, tags[0]), tags[1..])
  }

  /** `remove_tags`: for each tag, cut from the opening pattern through the closing tag while both are found. */
  method RemoveTags(html: string, tags: seq<string>) returns (result: string)
    ensures result == RemoveTagsSpec(html, tags)
  {
    result := html;
    var k := 0;
    while k < |tags|
      invariant 0 <= k <= |tags|
      invariant RemoveTagsSpec(result, tags[k..]) == RemoveTagsSpec(html, tags)
    {
      var tag := tags[k];
      ghost var before := result;
      while true
        invariant RemoveTag(result, tag) == RemoveTag(before, tag)
        decreases |result|
      {
        var step := RemoveOnce(result, tag);
        if step.None? {
          break;
        }
        result := step.value;
      }
      assert tags[k..][1..] == tags[k + 1..];
      k := k + 1;
    }
  }

  /** A bracket-free character cannot turn into '[' by lowercasing. */
  lemma {:induction false} RemoveTagNoBracket(s: string, tag: string)
    requires '[' !in s
    ensures RemoveTag(s, tag) == s
  {
    var p := OpenPattern(tag);
    var i := |tag| + 1;
    assert p[i] == '[';
    forall j | 0 <= j <= |s| ensures !Text.OccursAt(Text.Lower(s), Text.Lower(p), j) {
      if j + |p| <= |s| {
        assert s[j + i] in s;
        assert Text.Lower(s)[j..j + |p|][i] != Text.Lower(p)[i];
      }
    }
  }

  /**
   * The opening pattern is matched literally, not as a regular expression, so
   * ordinary markup (anything without a '[') comes back unchanged.
   */
  lemma {:induction false} OrdinaryHtmlUnchanged(s: string, tags: seq<string>)
    requires '[' !in s
    ensures RemoveTagsSpec(s, tags) == s
  {
    if tags != [] {
      RemoveTagNoBracket(s, tags[0]);
      OrdinaryHtmlUnchanged(s, tags[1..]);
    }
  }

  /** The tags `from_html` strips before parsing. */
  const STRIPPED_TAGS: seq<string> := ["script", "style", "noscript"]

  /** As written, a script block in ordinary markup survives the removal of script, style and noscript. */
  lemma ScriptBlockKept()
    ensures RemoveTagsSpec("a<script>x</script>b", STRIPPED_TAGS) == "a<script>x</script>b"
  {
    var s := "a<script>x</script>b";
    forall i | 0 <= i < |s| ensures s[i] != '[' {
    }
    OrdinaryHtmlUnchanged(s, STRIPPED_TAGS);
  }

  /**
   * The removal `<tag[^>]*>` evidently means: the first (case-insensitive)
   * "<tag" that some '>' follows, through the first closing tag after it.
   */
  function IntendedRemoveOnce(s: string, tag: string): (r: Option<string>)
    ensures r.Some? ==> |r.value| < |s|
    ensures !Text.Contains(Text.Lower(s), Text.Lower("<" + tag)) ==> r.None?
  {
    match Text.Find(Text.Lower(s), Text.Lower("<" + tag))
    case None => None
    case Some(start) =>
      if '>' !in s[start + |tag| + 1..] then None
      else
        match Text.Find(Text.Lower(s[start..]), Text.Lower(ClosePattern(tag)))
        case None => None
        case Some(endStart) => Some(s[..start] + s[start + endStart + |ClosePattern(tag)|..])
  }

  function IntendedRemoveTag(s: string, tag: string): string
    decreases |s|
  {
    match IntendedRemoveOnce(s, tag)
    case None => s
    case Some(t) => IntendedRemoveTag(t, tag)
  }

  function IntendedRemoveTags(s: string, tags: seq<string>): string
    decreases tags
  {
    if tags == [] then s else IntendedRemoveTags(IntendedRemoveTag(s, tags[0]), tags[1..])
  }

  /** A tag name: lower-case ASCII letters. */
  predicate TagName(tag: string)
  {
    tag != [] && forall i :: 0 <= i < |tag| ==> 'a' <= tag[i] <= 'z'
  }

  /** An element with its opening tag (holding `attrs`), its text and its closing tag. */
  function Block(tag: string, attrs: string, body: string): string
  {
    "<" + tag + attrs + ">" + body + ClosePattern(tag)
  }

  /** A pattern cannot occur where one of its characters meets a different one. */
  lemma MismatchAt(s: string, p: string, j: nat, i: nat)
    requires i < |p| && j + i < |s| && Text.LowerChar(s[j + i]) != Text.LowerChar(p[i])
    ensures !Text.OccursAt(Text.Lower(s), Text.Lower(p), j)
  {
    if j + |p| <= |s| {
      assert Text.Lower(s)[j..j + |p|][i] == Text.LowerChar(s[j + i]);
    }
  }

  /** The pattern occurs in `s` at `j` when `s` holds it there. */
  lemma MatchAt(s: string, p: string, j: nat)
    requires j + |p| <= |s| && s[j..j + |p|] == p
    ensures Text.OccursAt(Text.Lower(s), Text.Lower(p), j)
  {
    forall i | 0 <= i < |p| ensures Text.Lower(s)[j..j + |p|][i] == Text.Lower(p)[i] {
      assert s[j + i] == p[i];
    }
  }

  /** Without a '<' before it, the opening "<tag" is found where the element starts. */
  lemma FindOpening(before: string, tag: string, rest: string)
    requires '<' !in before && Text.StartsWith(rest, "<" + tag)
    ensures Text.Find(Text.Lower(before + rest), Text.Lower("<" + tag)) == Some(|before|)
  {
    var s := before + rest;
    var p := "<" + tag;
    forall j | 0 <= j < |before| ensures !Text.OccursAt(Text.Lower(s), Text.Lower(p), j) {
      assert s[j] == before[j] && before[j] in before;
      MismatchAt(s, p, j, 0);
    }
    assert s[|before|..|before| + |p|] == rest[..|p|];
    MatchAt(s, p, |before|);
    FirstOccurrence(Text.Lower(s), Text.Lower(p), |before|);
  }

  /** Between the element's '<' and its closing tag no character is a '<'. */
  lemma BlockInterior(tag: string, attrs: string, body: string, after: string, j: nat)
    requires TagName(tag) && '<' !in attrs && '<' !in body
    requires 1 <= j < |tag| + |attrs| + 1 + |body| + 1
    ensures (Block(tag, attrs, body) + after)[j] != '<'
  {
    var t := Block(tag, attrs, body) + after;
    if j <= |tag| {
      assert t[j] == tag[j - 1];
    } else if j <= |tag| + |attrs| {
      assert t[j] == attrs[j - 1 - |tag|] && attrs[j - 1 - |tag|] in attrs;
    } else if j == |tag| + |attrs| + 1 {
      assert t[j] == '>';
    } else {
      assert t[j] == body[j - 2 - |tag| - |attrs|] && body[j - 2 - |tag| - |attrs|] in body;
    }
  }

  /** The element opens with "<tag", its opening tag ends with '>', and the closing tag sits right after its text. */
  lemma BlockClose(tag: string, attrs: string, body: string, after: string)
    ensures var t := Block(tag, attrs, body) + after;
      var k := |tag| + |attrs| + 1 + |body| + 1;
      && Text.StartsWith(t, "<" + tag)
      && t[|tag| + 1 + |attrs|] == '>'
      && k + |ClosePattern(tag)| <= |t| && t[k..k + |ClosePattern(tag)|] == ClosePattern(tag)
      && t[1] == (if tag == [] then attrs + ">" + body + ClosePattern(tag) else tag)[0]
  {
  }

  /** The element's closing tag sits right after its text. */
  lemma ClosingAt(tag: string, attrs: string, body: string, after: string)
    ensures var t := Block(tag, attrs, body) + after;
      var k := |tag| + |attrs| + 1 + |body| + 1;
      k + |ClosePattern(tag)| <= |t| && t[k..k + |ClosePattern(tag)|] == ClosePattern(tag)
  {
    BlockClose(tag, attrs, body, after);
  }

  /** `str::find` answers an occurrence with none before it. */
  lemma FirstOccurrence(s: string, p: string, k: nat)
    requires Text.OccursAt(s, p, k)
    requires forall j :: 0 <= j < k ==> !Text.OccursAt(s, p, j)
    ensures Text.Find(s, p) == Some(k)
  {
    assert Text.Contains(s, p);
  }

  /** No closing tag starts before the element's own. */
  lemma NoEarlyClose(tag: string, attrs: string, body: string, after: string)
    requires TagName(tag) && '<' !in attrs && '<' !in body
    ensures forall j :: 0 <= j < |tag| + |attrs| + 1 + |body| + 1 ==>
      !Text.OccursAt(Text.Lower(Block(tag, attrs, body) + after), Text.Lower(ClosePattern(tag)), j)
  {
    NoCloseAtStart(tag, attrs, body, after);
    forall j | 1 <= j < |tag| + |attrs| + 1 + |body| + 1
      ensures !Text.OccursAt(Text.Lower(Block(tag, attrs, body) + after), Text.Lower(ClosePattern(tag)), j)
    {
      NoCloseInside(tag, attrs, body, after, j);
    }
  }

  /** The element's own '<' opens no closing tag: a tag name never starts with '/'. */
  lemma NoCloseAtStart(tag: string, attrs: string, body: string, after: string)
    requires TagName(tag)
    ensures !Text.OccursAt(Text.Lower(Block(tag, attrs, body) + after), Text.Lower(ClosePattern(tag)), 0)
  {
    var t := Block(tag, attrs, body) + after;
    var p := ClosePattern(tag);
    BlockClose(tag, attrs, body, after);
    assert p[1] == '/';
    MismatchAt(t, p, 0, 1);
  }

  /** Inside the element no closing tag can start, since no '<' is there. */
  lemma NoCloseInside(tag: string, attrs: string, body: string, after: string, j: nat)
    requires TagName(tag) && '<' !in attrs && '<' !in body
    requires 1 <= j < |tag| + |attrs| + 1 + |body| + 1
    ensures !Text.OccursAt(Text.Lower(Block(tag, attrs, body) + after), Text.Lower(ClosePattern(tag)), j)
  {
    BlockInterior(tag, attrs, body, after, j);
    assert ClosePattern(tag)[0] == '<';
    MismatchAt(Block(tag, attrs, body) + after, ClosePattern(tag), j, 0);
  }

  /** Inside an element whose attributes and text hold no '<', the first closing tag is its own. */
  lemma FindClosing(tag: string, attrs: string, body: string, after: string)
    requires TagName(tag) && '<' !in attrs && '<' !in body
    ensures Text.Find(Text.Lower(Block(tag, attrs, body) + after), Text.Lower(ClosePattern(tag)))
      == Some(|tag| + |attrs| + 1 + |body| + 1)
  {
    var t := Block(tag, attrs, body) + after;
    var k := |tag| + |attrs| + 1 + |body| + 1;
    ClosingAt(tag, attrs, body, after);
    MatchAt(t, ClosePattern(tag), k);
    NoEarlyClose(tag, attrs, body, after);
    FirstOccurrence(Text.Lower(t), Text.Lower(ClosePattern(tag)), k);
  }

  /** Cutting a concatenation of three pieces at the ends of the first two. */
  lemma Pieces(x: string, y: string, z: string)
    ensures (x + y + z)[..|x|] == x && (x + y + z)[|x|..] == y + z && (x + y + z)[|x| + |y|..] == z
  {
  }

  /** The intended removal cuts out exactly the first element of the tag. */
  lemma IntendedRemovesBlock(before: string, tag: string, attrs: string, body: string, after: string)
    requires TagName(tag) && '<' !in before && '<' !in attrs && '>' !in attrs && '<' !in body
    ensures IntendedRemoveOnce(before + Block(tag, attrs, body) + after, tag) == Some(before + after)
  {
    var b := Block(tag, attrs, body);
    var s := before + b + after;
    var start := |before|;
    assert |b| == |tag| + |attrs| + 1 + |body| + 1 + |ClosePattern(tag)|;
    Pieces(before, b, after);
    BlockClose(tag, attrs, body, after);
    assert s == before + (b + after);
    FindOpening(before, tag, b + after);
    assert s[start + |tag| + 1..][|attrs|] == '>';
    FindClosing(tag, attrs, body, after);
  }

  /** Text without a '<' holds no element to remove. */
  lemma IntendedKeepsPlain(s: string, tag: string)
    requires '<' !in s
    ensures IntendedRemoveTag(s, tag) == s
  {
    forall j | 0 <= j <= |s| ensures !Text.OccursAt(Text.Lower(s), Text.Lower("<" + tag), j) {
      if j < |s| {
        assert s[j] in s;
        MismatchAt(s, "<" + tag, j, 0);
      }
    }
  }

  /** A single element in plain text is removed with its contents, whatever its attributes. */
  lemma IntendedRemovesElement(before: string, tag: string, attrs: string, body: string, after: string)
    requires TagName(tag) && '<' !in before && '<' !in attrs && '>' !in attrs && '<' !in body && '<' !in after
    ensures IntendedRemoveTag(before + Block(tag, attrs, body) + after, tag) == before + after
  {
    IntendedRemovesBlock(before, tag, attrs, body, after);
    assert '<' !in before + after;
    IntendedKeepsPlain(before + after, tag);
  }

  /** With the intended pattern the script block is removed. */
  lemma ScriptBlockRemoved()
    ensures IntendedRemoveTags("a<script>x</script>b", STRIPPED_TAGS) == "ab"
  {
    ScriptBlockShape();
    IntendedRemovesElement("a", "script", "", "x", "b");
    IntendedKeepsPlain("ab", "style");
    IntendedKeepsPlain("ab", "noscript");
    StrippedTagsInTurn("a<script>x</script>b");
  }

  /** The example is a script element between two letters. */
  lemma ScriptBlockShape()
    ensures TagName("script")
    ensures "a<script>x</script>b" == "a" + Block("script", "", "x") + "b"
  {
    var t := "script";
    assert forall i :: 0 <= i < |t| ==> 'a' <= t[i] <= 'z';
  }

  /** The intended removal takes the script, style and noscript elements in turn. */
  lemma StrippedTagsInTurn(s: string)
    ensures IntendedRemoveTags(s, STRIPPED_TAGS)
      == IntendedRemoveTag(IntendedRemoveTag(IntendedRemoveTag(s, "script"), "style"), "noscript")
  {
    assert STRIPPED_TAGS[1..] == ["style", "noscript"];
    assert ["style", "noscript"][1..] == ["noscript"];
  }

  // ---------------------------------------------------------------- from_text and image urls

  /** A line of the plain-text fallback: blank lines become `EmptyLine`. */
  function LineElement(line: string): (e: ContentElement)
    ensures e.EmptyLine? <==> Text.Trim(line) == []
    ensures e.Paragraph? ==> e.text == line
  {
    if Text.Trim(line) == [] then EmptyLine else Paragraph(line)
  }

  /** `RichContent::from_text`: one element per line, and no image urls. */
  function FromText(text: string): (r: seq<ContentElement>)
    ensures |r| == |Text.Lines(text)|
    ensures forall k :: 0 <= k < |r| ==> (r[k].EmptyLine? || r[k].Paragraph?)
    ensures forall k :: 0 <= k < |r| ==> (r[k].EmptyLine? <==> Text.Trim(Text.Lines(text)[k]) == [])
    ensures forall k :: 0 <= k < |r| && r[k].Paragraph? ==> r[k].text == Text.Lines(text)[k]
  {
    seq(|Text.Lines(text)|, k requires 0 <= k < |Text.Lines(text)| => LineElement(Text.Lines(text)[k]))
  }

  /** The image-url list holds no empty url and no url twice. */
  predicate DistinctUrls(urls: seq<string>)
  {
    (forall k :: 0 <= k < |urls| ==> urls[k] != []) &&
    (forall j, k :: 0 <= j < k < |urls| ==> urls[j] != urls[k])
  }

  /** Recording an image's `src`: appended only when non-empty and not yet listed. */
  function RecordImageUrl(urls: seq<string>, src: string): (r: seq<string>)
    ensures DistinctUrls(urls) ==> DistinctUrls(r)
    ensures forall u :: u in r <==> u in urls || (u == src && src != [])
    ensures |urls| <= |r| && r[..|urls|] == urls
  {
    if src != [] && src !in urls then urls + [src] else urls
  }

  // ---------------------------------------------------------------- ArticleImageCache

  /** A decoded image, held by reference. */
  type ImageHandle = nat

  datatype ImageState = Loading | Loaded(image: ImageHandle) | Failed(error: string)

  const LOADING_STATUS: string := "[Loading...]"

  /** The in-memory image states of one article, keyed by url. */
  class ArticleImageCache {
    var images: map<string, ImageState>

    constructor()
      ensures images == map[]
    {
      images := map[];
    }

    /** `is_ready`: the image has loaded; a ready image is never also loading. */
    function IsReady(url: string): (b: bool)
      reads this
      ensures b ==> url in images && !IsLoading(url)
    {
      url in images && images[url].Loaded?
    }

    /** `is_loading`: a load was started and has not ended; only a known url can be loading. */
    function IsLoading(url: string): (b: bool)
      reads this
      ensures b ==> url in images && !images[url].Failed?
    {
      url in images && images[url].Loading?
    }

    /** `start_loading`: only a url with no state yet becomes Loading. */
    method StartLoading(url: string)
      modifies this
      ensures images == if url in old(images) then old(images) else old(images)[url := Loading]
      ensures !(IsReady(url) && IsLoading(url))
      ensures old(IsReady(url)) ==> IsReady(url)
    {
      if url !in images {
        images := images[url := Loading];
      }
    }

    method SetLoaded(url: string, image: ImageHandle)
      modifies this
      ensures images == old(images)[url := Loaded(image)]
      ensures IsReady(url) && !IsLoading(url)
    {
      images := images[url := Loaded(image)];
    }

    method SetFailed(url: string, error: string)
      modifies this
      ensures images == old(images)[url := Failed(error)]
      ensures !IsReady(url) && !IsLoading(url)
    {
      images := images[url := Failed(error)];
    }

    /**
     * `try_load_from_disk`: `fromDisk` is what the disk cache yields for the
     * url (None without a disk cache or without a readable file).
     */
    method TryLoadFromDisk(url: string, fromDisk: Option<ImageHandle>) returns (loaded: bool)
      modifies this
      ensures loaded <==> fromDisk.Some?
      ensures loaded ==> images == old(images)[url := Loaded(fromDisk.value)]
      ensures !loaded ==> images == old(images)
    {
      if fromDisk.Some? {
        images := images[url := Loaded(fromDisk.value)];
        return true;
      }
      return false;
    }

    method Clear()
      modifies this
      ensures images == map[]
    {
      images := map[];
    }

    /** `get_status`: a message for a loading or failed image, None otherwise. */
    function Status(url: string): (r: Option<string>)
      reads this
      ensures r == Some(LOADING_STATUS) <==> IsLoading(url)
      ensures r.None? <==> url !in images || images[url].Loaded?
      ensures url in images && images[url].Failed? ==> r == Some("[Failed: " + images[url].error + " ]")
    {
      if url !in images then None
      else match images[url]
        case Loading => Some(LOADING_STATUS)
        case Failed(err) =>
          assert ("[Failed: " + err + " ]")[1] == 'F' && LOADING_STATUS[1] == 'L';
          Some("[Failed: " + err + " ]")
        case Loaded(_) => None
    }
  }
}
