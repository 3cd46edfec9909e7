/**
 * Rust string primitives the model relies on. A Rust `&str` is a sequence of
 * Unicode scalar values stored as UTF-8; here it is a `string` (a sequence of
 * `char`), and the byte length that `str::len` reports is `ByteLen`.
 */
module Text {
  import opened Wrappers

  /** Number of bytes of the UTF-8 encoding of `c` (`char::len_utf8`). */
  function Utf8Len(c: char): (n: nat)
    ensures 1 <= n <= 4
    ensures n == 1 <==> c as int < 0x80
  {
    if c as int < 0x80 then 1
    else if c as int < 0x800 then 2
    else if c as int < 0x10000 then 3
    else 4
  }

  /** `str::len`: the UTF-8 byte length. */
  function ByteLen(s: string): nat
  {
    if s == [] then 0 else ByteLen(s[..|s| - 1]) + Utf8Len(s[|s| - 1])
  }

  lemma {:induction false} ByteLenAppend(a: string, b: string)
    ensures ByteLen(a + b) == ByteLen(a) + ByteLen(b)
    decreases |b|
  {
    if b == [] {
      assert a + b == a;
    } else {
      var b' := b[..|b| - 1];
      assert (a + b)[..|a + b| - 1] == a + b';
      ByteLenAppend(a, b');
    }
  }

  /** Every character takes at least one byte, and at most four. */
  lemma {:induction false} ByteLenBounds(s: string)
    ensures |s| <= ByteLen(s) <= 4 * |s|
  {
    if s != [] {
      ByteLenBounds(s[..|s| - 1]);
    }
  }

  predicate IsAscii(s: string)
  {
    forall i :: 0 <= i < |s| ==> s[i] as int < 0x80
  }

  /** For ASCII text the byte length is the character count. */
  lemma {:induction false} ByteLenAscii(s: string)
    requires IsAscii(s)
    ensures ByteLen(s) == |s|
  {
    if s != [] {
      ByteLenAscii(s[..|s| - 1]);
    }
  }

  /** A string is one byte long exactly when it is a single ASCII character. */
  lemma ByteLenOne(s: string)
    ensures ByteLen(s) == 1 <==> |s| == 1 && s[0] as int < 0x80
  {
    ByteLenBounds(s);
    if |s| == 1 {
      assert s[..0] == [];
    }
  }

  /** `char::is_whitespace`: the Unicode White_Space property. */
  predicate IsWhitespace(c: char)
  {
    var n := c as int;
    (0x09 <= n <= 0x0D) || n == 0x20 || n == 0x85 || n == 0xA0 || n == 0x1680
    || (0x2000 <= n <= 0x200A) || n == 0x2028 || n == 0x2029 || n == 0x202F
    || n == 0x205F || n == 0x3000
  }

  /** `str::trim_start`. */
  function TrimStart(s: string): (r: string)
    ensures |r| <= |s| && r == s[|s| - |r|..]
    ensures r != [] ==> !IsWhitespace(r[0])
    ensures forall i :: 0 <= i < |s| - |r| ==> IsWhitespace(s[i])
  {
    if s != [] && IsWhitespace(s[0]) then TrimStart(s[1..]) else s
  }

  /** `str::trim_end`. */
  function TrimEnd(s: string): (r: string)
    ensures |r| <= |s| && r == s[..|r|]
    ensures r != [] ==> !IsWhitespace(r[|r| - 1])
    ensures forall i :: |r| <= i < |s| ==> IsWhitespace(s[i])
  {
    if s != [] && IsWhitespace(s[|s| - 1]) then TrimEnd(s[..|s| - 1]) else s
  }

  /** `str::trim`: both ends stripped of whitespace. */
  function Trim(s: string): (r: string)
    ensures |r| <= |s|
    ensures r != [] ==> !IsWhitespace(r[0]) && !IsWhitespace(r[|r| - 1])
  {
    TrimEnd(TrimStart(s))
  }

  /** Neither starts nor ends with whitespace. */
  predicate Trimmed(s: string)
  {
    s != [] ==> !IsWhitespace(s[0]) && !IsWhitespace(s[|s| - 1])
  }

  /** A string is its own trim exactly when it neither starts nor ends with whitespace. */
  lemma TrimUnchanged(s: string)
    ensures Trim(s) == s <==> Trimmed(s)
  {
    if Trimmed(s) && s != [] {
      assert TrimStart(s) == s;
    }
  }

  /** `char::to_ascii_lowercase`. */
  function LowerChar(c: char): char
  {
    if 'A' <= c <= 'Z' then (c as int + 32) as char else c
  }

  /** ASCII lowercasing of a whole string (`str::to_ascii_lowercase`). */
  function Lower(s: string): (r: string)
    ensures |r| == |s|
    ensures forall i :: 0 <= i < |s| ==> r[i] == LowerChar(s[i])
  {
    seq(|s|, i requires 0 <= i < |s| => LowerChar(s[i]))
  }

  /** Lowercasing twice is lowercasing once. */
  lemma LowerIdempotent(s: string)
    ensures Lower(Lower(s)) == Lower(s)
  {
  }

  predicate StartsWith(s: string, p: string)
  {
    |p| <= |s| && s[..|p|] == p
  }

  predicate EndsWith(s: string, p: string)
  {
    |p| <= |s| && s[|s| - |p|..] == p
  }

  /** `p` occurs in `s` starting at index `i`. */
  predicate OccursAt(s: string, p: string, i: int)
  {
    0 <= i && i + |p| <= |s| && s[i..i + |p|] == p
  }

  /** `str::contains` with a string pattern. */
  predicate Contains(s: string, p: string)
  {
    exists i :: 0 <= i <= |s| && OccursAt(s, p, i)
  }

  /** The first occurrence of `p` in `s` at or after `from`. */
  function FindFrom(s: string, p: string, from: nat): (r: Option<nat>)
    ensures r.Some? ==> from <= r.value && OccursAt(s, p, r.value)
    ensures r.Some? ==> forall j :: from <= j < r.value ==> !OccursAt(s, p, j)
    ensures r.None? ==> forall j :: from <= j ==> !OccursAt(s, p, j)
    decreases |s| - from
  {
    if from + |p| > |s| then None
    else if s[from..from + |p|] == p then Some(from)
    else FindFrom(s, p, from + 1)
  }

  /** `str::find` with a string pattern, as a character index. */
  function Find(s: string, p: string): (r: Option<nat>)
    ensures r.Some? <==> Contains(s, p)
    ensures r.Some? ==> OccursAt(s, p, r.value) && forall j :: 0 <= j < r.value ==> !OccursAt(s, p, j)
  {
    FindFrom(s, p, 0)
  }

  /** Drops one trailing carriage return. */
  function StripCr(line: string): string
  {
    if line != [] && line[|line| - 1] == '\r' then line[..|line| - 1] else line
  }

  /** Before the first occurrence of a one-character pattern, that character does not appear. */
  lemma CharAbsentBefore(s: string, c: char, i: nat)
    requires i <= |s|
    requires forall j :: 0 <= j < i ==> !OccursAt(s, [c], j)
    ensures c !in s[..i]
  {
    forall j | 0 <= j < i ensures s[j] != c {
      assert !OccursAt(s, [c], j);
      assert s[j..j + 1] == [s[j]];
    }
  }

  /**
   * `str::lines`: split at each '\n', dropping a '\r' just before it; a final
   * line ending does not start another (empty) line, and "" has no lines.
   */
  function Lines(s: string): (r: seq<string>)
    ensures s == [] <==> r == []
    ensures forall k :: 0 <= k < |r| ==> '\n' !in r[k]
    decreases |s|
  {
    if s == [] then []
    else match Find(s, "\n")
      case None =>
        CharAbsentBefore(s, '\n', |s|);
        assert s[..|s|] == s;
        [s]
      case Some(i) =>
        CharAbsentBefore(s, '\n', i);
        [StripCr(s[..i])] + Lines(s[i + 1..])
  }

  /** `str::split` at a single character: always at least one piece. */
  function Split(s: string, sep: char): (r: seq<string>)
    ensures |r| >= 1
    ensures forall k :: 0 <= k < |r| ==> sep !in r[k]
    decreases |s|
  {
    match Find(s, [sep])
    case None =>
      CharAbsentBefore(s, sep, |s|);
      assert s[..|s|] == s;
      [s]
    case Some(i) =>
      CharAbsentBefore(s, sep, i);
      [s[..i]] + Split(s[i + 1..], sep)
  }

  /** Joining the pieces of `Split` with the separator gives the string back. */
  function Join(parts: seq<string>, sep: char): string
    requires |parts| >= 1
  {
    if |parts| == 1 then parts[0] else parts[0] + [sep] + Join(parts[1..], sep)
  }

  lemma {:induction false} SplitJoin(s: string, sep: char)
    ensures Join(Split(s, sep), sep) == s
    decreases |s|
  {
    match Find(s, [sep])
    case None =>
    case Some(i) =>
      assert s[i..i + 1] == [sep];
      var parts := Split(s, sep);
      assert parts == [s[..i]] + Split(s[i + 1..], sep);
      assert parts[0] == s[..i] && parts[1..] == Split(s[i + 1..], sep);
      SplitJoin(s[i + 1..], sep);
      assert Join(parts, sep) == s[..i] + [sep] + s[i + 1..];
      assert s == s[..i] + [sep] + s[i + 1..];
  }

  /** Splitting pieces that do not contain the separator, once joined, gives the pieces back. */
  lemma {:induction false} JoinSplit(parts: seq<string>, sep: char)
    requires |parts| >= 1
    requires forall k :: 0 <= k < |parts| ==> sep !in parts[k]
    ensures Split(Join(parts, sep), sep) == parts
    decreases |parts|
  {
    var s := Join(parts, sep);
    if |parts| == 1 {
      forall j | 0 <= j ensures !OccursAt(s, [sep], j) {
        if j + 1 <= |s| {
          assert s[j..j + 1] == [s[j]];
          assert s[j] in parts[0];
        }
      }
    } else {
      var head := parts[0];
      var rest := Join(parts[1..], sep);
      assert s == head + [sep] + rest;
      assert OccursAt(s, [sep], |head|) by {
        assert s[|head|..|head| + 1] == [sep];
      }
      forall j | 0 <= j < |head| ensures !OccursAt(s, [sep], j) {
        assert s[j] == head[j];
        assert s[j..j + 1] == [s[j]];
      }
      match Find(s, [sep])
      case Some(i) =>
        assert i == |head|;
        assert s[..i] == head;
        assert s[i + 1..] == rest;
        JoinSplit(parts[1..], sep);
        assert [head] + parts[1..] == parts;
    }
  }

  /** Concatenation of a sequence of strings. */
  function Concat(parts: seq<string>): string
  {
    if parts == [] then [] else parts[0] + Concat(parts[1..])
  }

  lemma {:induction false} ConcatAppend(a: seq<string>, b: seq<string>)
    ensures Concat(a + b) == Concat(a) + Concat(b)
  {
    if a == [] {
      assert a + b == b;
    } else {
      assert (a + b)[1..] == a[1..] + b;
      ConcatAppend(a[1..], b);
    }
  }
}
