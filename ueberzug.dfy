/**
 * The string escaping the ueberzug image backend applies before putting a
 * url or path into the JSON commands it sends: quote, backslash and the
 * control characters are escaped as section 7 of RFC 8259 allows, and every
 * other character is copied.
 */
module Ueberzug {
  import opened Wrappers

  /** Rust's `char::is_control`: the C0 controls, DEL and the C1 controls. */
  predicate IsControl(c: char)
  {
    c as int < 0x20 || 0x7F <= c as int < 0xA0
  }

  /** Characters that are not copied as they are. */
  predicate NeedsEscape(c: char)
  {
    c == '"' || c == '\\' || IsControl(c)
  }

  function HexDigit(d: nat): (c: char)
    requires d < 16
    ensures '0' <= c <= '9' || 'a' <= c <= 'f'
  {
    if d < 10 then ('0' as int + d) as char else ('a' as int + d - 10) as char
  }

  /** `format!("{:04x}", n)` for a code below 2^16. */
  function Hex4(n: nat): (r: string)
    requires n < 0x10000
    ensures |r| == 4
  {
    [HexDigit(n / 0x1000), HexDigit(n / 0x100 % 16), HexDigit(n / 16 % 16), HexDigit(n % 16)]
  }

  /** How one character is written. */
  function EscapeChar(c: char): (r: string)
    ensures NeedsEscape(c) <==> r != [c]
    ensures forall i :: 0 <= i < |r| ==> !IsControl(r[i])
  {
    if c == '"' then "\\\""
    else if c == '\\' then "\\\\"
    else if c == '\n' then "\\n"
    else if c == '\r' then "\\r"
    else if c == '\t' then "\\t"
    else if IsControl(c) then "\\u" + Hex4(c as int)
    else [c]
  }

  /** `escape_json_string` as a specification: the characters escaped one by one, in order. */
  function Escaped(s: string): (r: string)
    ensures |r| >= |s|
    ensures forall i :: 0 <= i < |r| ==> !IsControl(r[i])
  {
    if s == [] then [] else EscapeChar(s[0]) + Escaped(s[1..])
  }

  lemma {:induction false} EscapedAppend(s: string, c: char)
    ensures Escaped(s + [c]) == Escaped(s) + EscapeChar(c)
    decreases |s|
  {
    if s == [] {
      assert [c][1..] == [];
    } else {
      assert (s + [c])[1..] == s[1..] + [c];
      EscapedAppend(s[1..], c);
    }
  }

  /** `escape_json_string`. */
  method EscapeJsonString(s: string) returns (result: string)
    ensures result == Escaped(s)
  {
    result := [];
    for i := 0 to |s|
      invariant result == Escaped(s[..i])
    {
      var c := s[i];
      if c == '"' {
        result := result + "\\\"";
      } else if c == '\\' {
        result := result + "\\\\";
      } else if c == '\n' {
        result := result + "\\n";
      } else if c == '\r' {
        result := result + "\\r";
      } else if c == '\t' {
        result := result + "\\t";
      } else if IsControl(c) {
        result := result + "\\u" + Hex4(c as int);
      } else {
        result := result + [c];
      }
      assert s[..i + 1] == s[..i] + [c];
      EscapedAppend(s[..i], c);
    }
    assert s[..|s|] == s;
  }

  /** A string with nothing to escape comes back unchanged. */
  lemma {:induction false} PlainUnchanged(s: string)
    requires forall i :: 0 <= i < |s| ==> !NeedsEscape(s[i])
    ensures Escaped(s) == s
  {
    if s != [] {
      PlainUnchanged(s[1..]);
    }
  }

  /** Anything with a character to escape comes back longer. */
  lemma {:induction false} SpecialGrows(s: string, k: nat)
    requires k < |s| && NeedsEscape(s[k])
    ensures |Escaped(s)| > |s|
  {
    if k > 0 {
      SpecialGrows(s[1..], k - 1);
    }
  }

  /** The value of a hexadecimal digit in either case. */
  function HexValue(c: char): (v: Option<nat>)
    ensures v.Some? ==> v.value < 16
  {
    if '0' <= c <= '9' then Some(c as int - '0' as int)
    else if 'a' <= c <= 'f' then Some(c as int - 'a' as int + 10)
    else if 'A' <= c <= 'F' then Some(c as int - 'A' as int + 10)
    else None
  }

  /** Four hexadecimal digits as a code unit. */
  function ParseHex4(h: string): (v: Option<nat>)
    requires |h| == 4
    ensures v.Some? ==> v.value < 0x10000
  {
    match (HexValue(h[0]), HexValue(h[1]), HexValue(h[2]), HexValue(h[3]))
    case (Some(a), Some(b), Some(c), Some(d)) => Some(a * 0x1000 + b * 0x100 + c * 16 + d)
    case _ => None
  }

  lemma HexDigitValue(d: nat)
    requires d < 16
    ensures HexValue(HexDigit(d)) == Some(d)
  {
  }

  /** The four hexadecimal digits of `n` weighed by their places give `n` back. */
  lemma Hex4Places(n: nat)
    requires n < 0x10000
    ensures n / 0x1000 * 0x1000 + n / 0x100 % 16 * 0x100 + n / 16 % 16 * 16 + n % 16 == n
  {
    var n1 := n / 16;
    var n2 := n1 / 16;
    var n3 := n2 / 16;
    assert n == n1 * 16 + n % 16;
    assert n1 == n2 * 16 + n1 % 16;
    assert n2 == n3 * 16 + n2 % 16;
    assert n2 == n / 0x100;
    assert n3 == n / 0x1000;
  }

  lemma ParseHex4Inverse(n: nat)
    requires n < 0x10000
    ensures ParseHex4(Hex4(n)) == Some(n)
  {
    var h := Hex4(n);
    HexDigitValue(n / 0x1000);
    HexDigitValue(n / 0x100 % 16);
    HexDigitValue(n / 16 % 16);
    HexDigitValue(n % 16);
    assert HexValue(h[0]) == Some(n / 0x1000) && HexValue(h[1]) == Some(n / 0x100 % 16);
    assert HexValue(h[2]) == Some(n / 16 % 16) && HexValue(h[3]) == Some(n % 16);
    Hex4Places(n);
  }

  function Prepend(c: char, rest: Option<string>): Option<string>
  {
    match rest
    case Some(t) => Some([c] + t)
    case None => None
  }

  /**
   * The body of a JSON string read back, following section 7 of RFC 8259:
   * a raw quote or a raw character below U+0020 is an error, and so is an
   * unknown escape. A `\u` escape of a surrogate (which needs a pair) is
   * refused rather than combined.
   */
  function Unescape(r: string): Option<string>
    decreases |r|
  {
    if r == [] then Some([])
    else if r[0] == '\\' then
      if |r| < 2 then None
      else if r[1] == '"' then Prepend('"', Unescape(r[2..]))
      else if r[1] == '\\' then Prepend('\\', Unescape(r[2..]))
      else if r[1] == '/' then Prepend('/', Unescape(r[2..]))
      else if r[1] == 'b' then Prepend(8 as char, Unescape(r[2..]))
      else if r[1] == 'f' then Prepend(12 as char, Unescape(r[2..]))
      else if r[1] == 'n' then Prepend('\n', Unescape(r[2..]))
      else if r[1] == 'r' then Prepend('\r', Unescape(r[2..]))
      else if r[1] == 't' then Prepend('\t', Unescape(r[2..]))
      else if r[1] == 'u' && |r| >= 6 then
        match ParseHex4(r[2..6])
        case Some(v) => if 0xD800 <= v < 0xE000 then None else Prepend(v as char, Unescape(r[6..]))
        case None => None
      else None
    else if r[0] == '"' || (r[0] as int) < 0x20 then None
    else Prepend(r[0], Unescape(r[1..]))
  }

  /** Reading back one escaped character. */
  lemma UnescapeChar(c: char, rest: string)
    ensures Unescape(EscapeChar(c) + rest) == Prepend(c, Unescape(rest))
  {
    var e := EscapeChar(c);
    if !NeedsEscape(c) {
      assert (e + rest)[1..] == rest;
    } else if |e| == 2 {
      assert (e + rest)[2..] == rest;
    } else {
      assert e == "\\u" + Hex4(c as int);
      assert (e + rest)[2..6] == Hex4(c as int);
      assert (e + rest)[6..] == rest;
      ParseHex4Inverse(c as int);
    }
  }

  /** The escaped text is a valid JSON string body that reads back as the original. */
  lemma {:induction false} EscapeRoundTrip(s: string)
    ensures Unescape(Escaped(s)) == Some(s)
  {
    if s != [] {
      EscapeRoundTrip(s[1..]);
      UnescapeChar(s[0], Escaped(s[1..]));
      assert [s[0]] + s[1..] == s;
    }
  }

  /** Different strings stay different once escaped. */
  lemma EscapeInjective(s: string, t: string)
    requires Escaped(s) == Escaped(t)
    ensures s == t
  {
    EscapeRoundTrip(s);
    EscapeRoundTrip(t);
  }
}
