/**
 * The colour themes of the terminal front end: hex colour notation, the
 * registry of built-in themes looked up by name, and user overrides of
 * single colours.
 */
module Themes {
  import opened Wrappers
  import Text
  import Config

  type Byte = x: nat | x < 256

  /** A 24-bit colour. */
  datatype Color = Rgb(r: Byte, g: Byte, b: Byte)

  /** The colour slots of a theme. */
  datatype Theme = Theme(
    bg0: Color, bg1: Color, bg2: Color, bg3: Color,
    fg0: Color, fg1: Color, grey0: Color, grey1: Color, grey2: Color,
    aqua: Color, blue: Color, purple: Color,
    red: Color, orange: Color, yellow: Color, green: Color,
    selection: Color, unread: Color, read: Color,
    error: Color, success: Color, warning: Color, info: Color, accent: Color)

  // ---------------------------------------------------------------------
  // Hex colour notation
  // ---------------------------------------------------------------------

  predicate IsHexDigit(c: char)
  {
    ('0' <= c <= '9') || ('a' <= c <= 'f') || ('A' <= c <= 'F')
  }

  predicate AllHex(s: string)
  {
    forall i :: 0 <= i < |s| ==> IsHexDigit(s[i])
  }

  function DigitValue(c: char): (v: nat)
    requires IsHexDigit(c)
    ensures v < 16
    ensures '0' <= c <= '9' ==> v == c as int - '0' as int
    ensures ('a' <= c <= 'f' || 'A' <= c <= 'F') ==> v >= 10
  {
    if '0' <= c <= '9' then c as int - '0' as int
    else if 'a' <= c <= 'f' then c as int - 'a' as int + 10
    else c as int - 'A' as int + 10
  }

  /** The value of a run of hex digits, most significant first. */
  function HexValue(ds: string): (v: nat)
    requires AllHex(ds)
    ensures |ds| == 0 ==> v == 0
    ensures |ds| == 1 ==> v == DigitValue(ds[0]) && v < 16
    ensures |ds| == 2 ==> v == 16 * DigitValue(ds[0]) + DigitValue(ds[1]) && v < 256
  {
    if ds == [] then 0
    else HexValue(ds[..|ds| - 1]) * 16 + DigitValue(ds[|ds| - 1])
  }

  /**
   * `u8::from_str_radix(s, 16)`: an optional leading '+', then at least one
   * hex digit, and a value that fits in a byte.
   */
  function FromHexU8(s: string): (r: Option<Byte>)
    ensures 0 < |s| <= 2 && AllHex(s) ==> r == Some(HexValue(s))
    ensures |s| > 0 && s[0] != '+' && !AllHex(s) ==> r.None?
    ensures |s| == 1 && r.Some? ==> r.value < 16
  {
    var digits := if |s| > 0 && s[0] == '+' then s[1..] else s;
    if digits == [] || !AllHex(digits) then None
    else
      var v := HexValue(digits);
      if v < 256 then Some(v) else None
  }

  /** `trim_start_matches('#')`: every leading '#' removed. */
  function StripHashes(s: string): (r: string)
    ensures |r| <= |s| && r == s[|s| - |r|..]
    ensures r != [] ==> r[0] != '#'
    ensures forall i :: 0 <= i < |s| - |r| ==> s[i] == '#'
  {
    if s != [] && s[0] == '#' then StripHashes(s[1..]) else s
  }

  /** The digits `parse_hex_color` looks at: trimmed, then without leading '#'. */
  function HexBody(hex: string): string
  {
    StripHashes(Text.Trim(hex))
  }

  /**
   * `parse_hex_color` as written, once trimmed and stripped of '#': three or
   * six bytes, cut into one- or two-byte pieces, each read by `FromHexU8`
   * (which lets a '+' sign through); the short form multiplies each digit
   * by 17.
   */
  function ParseHexBodyAsWritten(h: string): (r: Option<Color>)
    ensures r.Some? ==> |h| == 3 || |h| == 6
  {
    if !Text.IsAscii(h) then None
    else if |h| == 3 then
      var r, g, b := FromHexU8(h[0..1]), FromHexU8(h[1..2]), FromHexU8(h[2..3]);
      if r.Some? && g.Some? && b.Some? then Some(Rgb(r.value * 17, g.value * 17, b.value * 17)) else None
    else if |h| == 6 then
      var r, g, b := FromHexU8(h[0..2]), FromHexU8(h[2..4]), FromHexU8(h[4..6]);
      if r.Some? && g.Some? && b.Some? then Some(Rgb(r.value, g.value, b.value)) else None
    else None
  }

  /** `parse_hex_color` as written. */
  function ParseHexColorAsWritten(hex: string): (r: Option<Color>)
    ensures r.Some? ==> |HexBody(hex)| == 3 || |HexBody(hex)| == 6
  {
    ParseHexBodyAsWritten(HexBody(hex))
  }

  /** One channel of the short form: a digit `d` stands for `dd`. */
  function ShortChannel(c: char): (v: Byte)
    requires IsHexDigit(c)
    ensures v == 16 * DigitValue(c) + DigitValue(c)
  {
    DigitValue(c) * 17
  }

  /** One channel of the full form: two digits. */
  function FullChannel(hi: char, lo: char): (v: Byte)
    requires IsHexDigit(hi) && IsHexDigit(lo)
  {
    16 * DigitValue(hi) + DigitValue(lo)
  }

  /** The documented notation, once trimmed and stripped of '#': three or six hex digits. */
  function ParseHexBody(h: string): (r: Option<Color>)
    ensures r.Some? <==> (|h| == 3 || |h| == 6) && AllHex(h)
  {
    if |h| == 3 && AllHex(h) then
      Some(Rgb(ShortChannel(h[0]), ShortChannel(h[1]), ShortChannel(h[2])))
    else if |h| == 6 && AllHex(h) then
      Some(Rgb(FullChannel(h[0], h[1]), FullChannel(h[2], h[3]), FullChannel(h[4], h[5])))
    else None
  }

  /**
   * `parse_hex_color` as its documentation describes it: "#RGB", "RGB",
   * "#RRGGBB" or "RRGGBB", hex digits only.
   */
  function ParseHexColor(hex: string): (r: Option<Color>)
    ensures r.Some? <==> (|HexBody(hex)| == 3 || |HexBody(hex)| == 6) && AllHex(HexBody(hex))
  {
    ParseHexBody(HexBody(hex))
  }

  /** Hex digits need no trimming and have no '#' to strip. */
  lemma HexBodyOfDigits(h: string)
    requires h != [] && AllHex(h)
    ensures HexBody(h) == h
  {
    assert IsHexDigit(h[0]) && IsHexDigit(h[|h| - 1]);
    assert Text.Trimmed(h);
    Text.TrimUnchanged(h);
    assert Text.Trim(h) == h;
  }

  /** A leading '#' is stripped like any other. */
  lemma HexBodyHash(h: string)
    requires h != [] && h[0] != '#' && Text.Trimmed(h)
    ensures HexBody("#" + h) == HexBody(h)
  {
    var g := "#" + h;
    assert g[0] == '#' && g[|g| - 1] == h[|h| - 1] && g[1..] == h;
    assert Text.Trimmed(g);
    Text.TrimUnchanged(h);
    Text.TrimUnchanged(g);
    assert Text.Trim(g) == g;
    assert Text.Trim(h) == h;
  }

  /** The short form is the full form with every digit doubled: "#f50" is "#ff5500". */
  lemma ShortFormDoubles(x: char, y: char, z: char)
    requires IsHexDigit(x) && IsHexDigit(y) && IsHexDigit(z)
    ensures ParseHexColor([x, y, z]) == ParseHexColor([x, x, y, y, z, z])
    ensures ParseHexColor([x, y, z]).Some?
  {
    HexBodyOfDigits([x, y, z]);
    HexBodyOfDigits([x, x, y, y, z, z]);
  }

  /** The channels of orange: "ff" is 255, "55" is 85 and "00" is 0; "f" doubles to 255, "5" to 85. */
  lemma OrangeChannels()
    ensures FullChannel('f', 'f') == 255 && FullChannel('5', '5') == 85 && FullChannel('0', '0') == 0
    ensures ShortChannel('f') == 255 && ShortChannel('5') == 85 && ShortChannel('0') == 0
  {
    assert DigitValue('f') == 15 && DigitValue('5') == 5 && DigitValue('0') == 0;
  }

  /** Six hex digits, with or without '#', are three two-digit channels. */
  lemma FullForm(h: string)
    requires |h| == 6 && AllHex(h)
    ensures ParseHexColor(h) == Some(Rgb(FullChannel(h[0], h[1]), FullChannel(h[2], h[3]), FullChannel(h[4], h[5])))
    ensures ParseHexColor("#" + h) == ParseHexColor(h)
  {
    HexBodyOfDigits(h);
    assert IsHexDigit(h[0]) && IsHexDigit(h[5]);
    HashOptional(h);
  }

  /** Three hex digits, with or without '#', are three doubled channels. */
  lemma ShortForm(h: string)
    requires |h| == 3 && AllHex(h)
    ensures ParseHexColor(h) == Some(Rgb(ShortChannel(h[0]), ShortChannel(h[1]), ShortChannel(h[2])))
    ensures ParseHexColor("#" + h) == ParseHexColor(h)
  {
    HexBodyOfDigits(h);
    assert IsHexDigit(h[0]) && IsHexDigit(h[2]);
    HashOptional(h);
  }

  /** "ff5500" and "#ff5500" are orange. */
  lemma FullFormExample(h: string, withHash: string)
    requires h == "ff5500" && withHash == "#ff5500"
    ensures ParseHexColor(h) == Some(Rgb(255, 85, 0))
    ensures ParseHexColor(withHash) == Some(Rgb(255, 85, 0))
  {
    assert h == ['f', 'f', '5', '5', '0', '0'] && withHash == "#" + h;
    assert AllHex(h);
    FullForm(h);
    OrangeChannels();
  }

  /** "#f50" is the same orange. */
  lemma ShortFormExample(withHash: string)
    requires withHash == "#f50"
    ensures ParseHexColor(withHash) == Some(Rgb(255, 85, 0))
  {
    var h := withHash[1..];
    assert h == ['f', '5', '0'] && withHash == "#" + h;
    assert AllHex(h);
    ShortForm(h);
    OrangeChannels();
  }

  /** "#gg0000" and "invalid" are not colours. */
  lemma InvalidExamples(gg: string, word: string)
    requires gg == "#gg0000" && word == "invalid"
    ensures ParseHexColor(gg).None? && ParseHexColor(word).None?
  {
    HashedNonDigitNoColour(gg);
    assert word[0] == 'i' && word[6] == 'd';
    NonDigitNoColour(word, 0);
  }

  lemma HashedNonDigitNoColour(gg: string)
    requires gg == "#gg0000"
    ensures ParseHexColor(gg).None?
  {
    var g := gg[1..];
    assert g[0] == 'g' && g[5] == '0' && gg == "#" + g;
    NonDigitNoColour(g, 0);
  }

  /** A trimmed string holding a character that is no hex digit is not a colour, with or without '#'. */
  lemma NonDigitNoColour(h: string, i: nat)
    requires i < |h| && !IsHexDigit(h[i])
    requires h[0] != '#' && !Text.IsWhitespace(h[0]) && !Text.IsWhitespace(h[|h| - 1])
    ensures ParseHexColor(h).None? && ParseHexColor("#" + h).None?
  {
    Text.TrimUnchanged(h);
    assert HexBody(h) == h;
    HashOptional(h);
  }

  /** A leading '#' is optional. */
  lemma HashOptional(h: string)
    requires h != [] && h[0] != '#' && Text.Trimmed(h)
    ensures ParseHexColor("#" + h) == ParseHexColor(h)
    ensures ParseHexColorAsWritten("#" + h) == ParseHexColorAsWritten(h)
  {
    HexBodyHash(h);
  }

  /** Where no '+' appears, the code as written and the documented notation agree. */
  lemma AsWrittenAgreesWithoutSign(hex: string)
    requires '+' !in HexBody(hex)
    ensures ParseHexColorAsWritten(hex) == ParseHexColor(hex)
  {
    BodyAgreesWithoutSign(HexBody(hex));
  }

  lemma BodyAgreesWithoutSign(h: string)
    requires '+' !in h
    ensures ParseHexBodyAsWritten(h) == ParseHexBody(h)
  {
    if Text.IsAscii(h) && |h| == 3 {
      ShortAgreesWithoutSign(h);
    } else if Text.IsAscii(h) && |h| == 6 {
      FullAgreesWithoutSign(h);
    } else if !Text.IsAscii(h) {
      var i :| 0 <= i < |h| && h[i] as int >= 0x80;
      assert !IsHexDigit(h[i]);
    }
  }

  /** Without a '+', the as-written reading of three characters is the short form. */
  lemma ShortAgreesWithoutSign(h: string)
    requires '+' !in h && Text.IsAscii(h) && |h| == 3
    ensures ParseHexBodyAsWritten(h) == ParseHexBody(h)
  {
    assert h[0..1] == [h[0]] && h[1..2] == [h[1]] && h[2..3] == [h[2]];
    if !AllHex(h) {
      var i :| 0 <= i < 3 && !IsHexDigit(h[i]);
      assert !AllHex([h[i]]);
    }
  }

  /** Without a '+', the as-written reading of six characters is the full form. */
  lemma FullAgreesWithoutSign(h: string)
    requires '+' !in h && Text.IsAscii(h) && |h| == 6
    ensures ParseHexBodyAsWritten(h) == ParseHexBody(h)
  {
    assert h[0..2] == [h[0], h[1]] && h[2..4] == [h[2], h[3]] && h[4..6] == [h[4], h[5]];
    if !AllHex(h) {
      var i :| 0 <= i < 6 && !IsHexDigit(h[i]);
      var k := 2 * (i / 2);
      assert h[k..k + 2][i - k] == h[i];
    }
  }

  /** The code as written reads "+f+f+f" as a colour: each two-byte piece "+f" is a signed number. */
  lemma SignedPiecesAccepted(x: char, y: char, z: char)
    requires IsHexDigit(x) && IsHexDigit(y) && IsHexDigit(z)
    ensures ParseHexColorAsWritten(['+', x, '+', y, '+', z]) ==
            Some(Rgb(DigitValue(x), DigitValue(y), DigitValue(z)))
    ensures ParseHexColor(['+', x, '+', y, '+', z]).None?
  {
    var h := ['+', x, '+', y, '+', z];
    BareBody(h);
    SignedBody(x, y, z);
    NonDigitNoColour(h, 0);
  }

  /** A trimmed string that does not start with '#' is its own hex body. */
  lemma BareBody(h: string)
    requires h != [] && h[0] != '#' && Text.Trimmed(h)
    ensures HexBody(h) == h
  {
    Text.TrimUnchanged(h);
  }

  /** The as-written body parser reads "+x+y+z" as the three digits. */
  lemma SignedBody(x: char, y: char, z: char)
    requires IsHexDigit(x) && IsHexDigit(y) && IsHexDigit(z)
    ensures ParseHexBodyAsWritten(['+', x, '+', y, '+', z]) == Some(Rgb(DigitValue(x), DigitValue(y), DigitValue(z)))
  {
    var h := ['+', x, '+', y, '+', z];
    assert Text.IsAscii(h);
    assert h[0..2] == ['+', x] && h[2..4] == ['+', y] && h[4..6] == ['+', z];
    SignedDigit(x);
    SignedDigit(y);
    SignedDigit(z);
  }

  /** `FromHexU8` reads "+d" as the digit d. */
  lemma SignedDigit(d: char)
    requires IsHexDigit(d)
    ensures FromHexU8(['+', d]) == Some(DigitValue(d))
  {
    assert ['+', d][1..] == [d];
  }

  // ---------------------------------------------------------------------
  // The theme registry
  // ---------------------------------------------------------------------

  /** The built-in palettes. */
  datatype BaseTheme =
    | CatppuccinLatte | CatppuccinFrappe | CatppuccinMacchiato | CatppuccinMocha
    | GruvboxLight | GruvboxDark | Dracula | Nord
    | TokyoNight | TokyoNightStorm | TokyoNightDay | OneDark
    | SolarizedLight | SolarizedDark | EverforestLight | EverforestDark
    | KanagawaWave | KanagawaDragon | KanagawaLotus
    | RosePine | RosePineMoon | RosePineDawn | Monokai | Zenburn

  /** The names `load_theme` recognises, in the order it tries them. */
  const THEME_NAMES: seq<(string, BaseTheme)> := [
    ("catppuccin-latte", CatppuccinLatte), ("catppuccin-frappe", CatppuccinFrappe),
    ("catppuccin-macchiato", CatppuccinMacchiato), ("catppuccin-mocha", CatppuccinMocha),
    ("gruvbox-light", GruvboxLight), ("gruvbox-dark", GruvboxDark),
    ("dracula", Dracula), ("nord", Nord),
    ("tokyo-night", TokyoNight), ("tokyo-night-night", TokyoNight),
    ("tokyo-night-storm", TokyoNightStorm), ("tokyo-night-day", TokyoNightDay),
    ("one-dark", OneDark), ("onedark", OneDark),
    ("solarized-light", SolarizedLight), ("solarized-dark", SolarizedDark),
    ("everforest-light", EverforestLight), ("everforest-dark", EverforestDark),
    ("kanagawa", KanagawaWave), ("kanagawa-wave", KanagawaWave),
    ("kanagawa-dragon", KanagawaDragon), ("kanagawa-lotus", KanagawaLotus),
    ("rose-pine", RosePine), ("rose-pine-main", RosePine),
    ("rose-pine-moon", RosePineMoon), ("rose-pine-dawn", RosePineDawn),
    ("monokai", Monokai), ("zenburn", Zenburn)]

  /** The first palette registered under `n`, if any. */
  function LookupTheme(n: string, table: seq<(string, BaseTheme)>): (r: Option<BaseTheme>)
    ensures r.None? <==> forall i :: 0 <= i < |table| ==> table[i].0 != n
    ensures r.Some? ==> exists i :: 0 <= i < |table| && table[i] == (n, r.value)
  {
    if table == [] then None
    else if table[0].0 == n then Some(table[0].1)
    else
      var r := LookupTheme(n, table[1..]);
      assert r.Some? ==> exists i :: 0 <= i < |table| && table[i] == (n, r.value) by {
        if r.Some? {
          var i :| 0 <= i < |table[1..]| && table[1..][i] == (n, r.value);
          assert table[i + 1] == (n, r.value);
        }
      }
      r
  }

  /** The palette `load_theme` starts from: the name lowercased, gruvbox-dark when unknown. */
  function ThemeFor(name: string): (t: BaseTheme)
    ensures (forall i :: 0 <= i < |THEME_NAMES| ==> THEME_NAMES[i].0 != Text.Lower(name)) ==> t == GruvboxDark
    ensures (exists i :: 0 <= i < |THEME_NAMES| && THEME_NAMES[i].0 == Text.Lower(name)) ==>
      exists i :: 0 <= i < |THEME_NAMES| && THEME_NAMES[i] == (Text.Lower(name), t)
  {
    LookupTheme(Text.Lower(name), THEME_NAMES).UnwrapOr(GruvboxDark)
  }

  /** Theme names are matched without regard to ASCII case. */
  lemma ThemeForIgnoresCase(name: string)
    ensures ThemeFor(Text.Lower(name)) == ThemeFor(name)
  {
    Text.LowerIdempotent(name);
  }

  /** `available_themes`: one canonical name per built-in palette. */
  const AVAILABLE_THEMES: seq<string> := [
    "catppuccin-latte", "catppuccin-frappe", "catppuccin-macchiato", "catppuccin-mocha",
    "gruvbox-light", "gruvbox-dark", "dracula", "nord",
    "tokyo-night", "tokyo-night-storm", "tokyo-night-day", "one-dark",
    "solarized-light", "solarized-dark", "everforest-light", "everforest-dark",
    "kanagawa-wave", "kanagawa-dragon", "kanagawa-lotus",
    "rose-pine", "rose-pine-moon", "rose-pine-dawn", "monokai", "zenburn"]

  /** Every palette, in the order `available_themes` lists them. */
  const ALL_BASES: seq<BaseTheme> := [
    CatppuccinLatte, CatppuccinFrappe, CatppuccinMacchiato, CatppuccinMocha,
    GruvboxLight, GruvboxDark, Dracula, Nord,
    TokyoNight, TokyoNightStorm, TokyoNightDay, OneDark,
    SolarizedLight, SolarizedDark, EverforestLight, EverforestDark,
    KanagawaWave, KanagawaDragon, KanagawaLotus,
    RosePine, RosePineMoon, RosePineDawn, Monokai, Zenburn]

  /** No name is registered twice. */
  lemma RegistryNamesDistinct()
    ensures forall i, j :: 0 <= i < j < |THEME_NAMES| ==> THEME_NAMES[i].0 != THEME_NAMES[j].0
  {
  }

  lemma {:induction false} LookupFirst(n: string, table: seq<(string, BaseTheme)>, k: nat)
    requires k < |table| && table[k].0 == n
    requires forall j :: 0 <= j < k ==> table[j].0 != n
    ensures LookupTheme(n, table) == Some(table[k].1)
  {
    if k > 0 {
      LookupFirst(n, table[1..], k - 1);
    }
  }

  /** `available_themes` lists 24 different names, and there are 24 palettes, each listed. */
  lemma AvailableThemesDistinct()
    ensures |AVAILABLE_THEMES| == 24 && |ALL_BASES| == 24
    ensures forall i, j :: 0 <= i < j < 24 ==> AVAILABLE_THEMES[i] != AVAILABLE_THEMES[j]
    ensures forall t: BaseTheme :: t in ALL_BASES
  {
    forall t: BaseTheme
      ensures t in ALL_BASES
    {
      match t {
        case CatppuccinLatte => assert ALL_BASES[0] == t;
        case CatppuccinFrappe => assert ALL_BASES[1] == t;
        case CatppuccinMacchiato => assert ALL_BASES[2] == t;
        case CatppuccinMocha => assert ALL_BASES[3] == t;
        case GruvboxLight => assert ALL_BASES[4] == t;
        case GruvboxDark => assert ALL_BASES[5] == t;
        case Dracula => assert ALL_BASES[6] == t;
        case Nord => assert ALL_BASES[7] == t;
        case TokyoNight => assert ALL_BASES[8] == t;
        case TokyoNightStorm => assert ALL_BASES[9] == t;
        case TokyoNightDay => assert ALL_BASES[10] == t;
        case OneDark => assert ALL_BASES[11] == t;
        case SolarizedLight => assert ALL_BASES[12] == t;
        case SolarizedDark => assert ALL_BASES[13] == t;
        case EverforestLight => assert ALL_BASES[14] == t;
        case EverforestDark => assert ALL_BASES[15] == t;
        case KanagawaWave => assert ALL_BASES[16] == t;
        case KanagawaDragon => assert ALL_BASES[17] == t;
        case KanagawaLotus => assert ALL_BASES[18] == t;
        case RosePine => assert ALL_BASES[19] == t;
        case RosePineMoon => assert ALL_BASES[20] == t;
        case RosePineDawn => assert ALL_BASES[21] == t;
        case Monokai => assert ALL_BASES[22] == t;
        case Zenburn => assert ALL_BASES[23] == t;
      }
    }
  }

  // ---------------------------------------------------------------------
  // Overrides
  // ---------------------------------------------------------------------

  /**
   * One slot after an override: replaced only by a colour that
   * `parse_hex_color` accepts, as the code is written (signed pieces included).
   */
  function Override(current: Color, hex: Option<string>): (c: Color)
    ensures hex.Some? && ParseHexColorAsWritten(hex.value).Some? ==> c == ParseHexColorAsWritten(hex.value).value
    ensures hex.None? || ParseHexColorAsWritten(hex.value).None? ==> c == current
  {
    if hex.Some? then ParseHexColorAsWritten(hex.value).UnwrapOr(current) else current
  }

  /** An override in the documented notation, without a sign, sets the slot to the documented colour. */
  lemma DocumentedOverride(current: Color, hex: string)
    requires ParseHexColor(hex).Some? && '+' !in HexBody(hex)
    ensures Override(current, Some(hex)) == ParseHexColor(hex).value
  {
    AsWrittenAgreesWithoutSign(hex);
  }

  /** A signed override such as "+f+f+f", which the documented notation rejects, still sets the slot. */
  lemma SignedOverrideApplied(current: Color, x: char, y: char, z: char)
    requires IsHexDigit(x) && IsHexDigit(y) && IsHexDigit(z)
    ensures Override(current, Some(['+', x, '+', y, '+', z])) == Rgb(DigitValue(x), DigitValue(y), DigitValue(z))
  {
    SignedPiecesAccepted(x, y, z);
  }

  /** The theme with every overridable slot passed through `Override`. */
  function Overridden(t: Theme, o: Config.ColorOverrides): Theme
  {
    t.(bg0 := Override(t.bg0, o.bg0), bg1 := Override(t.bg1, o.bg1), bg2 := Override(t.bg2, o.bg2),
       fg0 := Override(t.fg0, o.fg0), fg1 := Override(t.fg1, o.fg1),
       accent := Override(t.accent, o.accent), selection := Override(t.selection, o.selection),
       unread := Override(t.unread, o.unread), read := Override(t.read, o.read),
       error := Override(t.error, o.error), success := Override(t.success, o.success),
       warning := Override(t.warning, o.warning), info := Override(t.info, o.info))
  }

  /** One `if let` of `apply_overrides`: the slot takes the override's colour when it parses. */
  method OverrideSlot(current: Color, hex: Option<string>) returns (c: Color)
    ensures c == Override(current, hex)
  {
    c := current;
    if hex.Some? {
      var parsed := ParseHexColorAsWritten(hex.value);
      if parsed.Some? {
        c := parsed.value;
      }
    }
  }

  /** `apply_overrides`: the thirteen overridable slots, one after another. */
  method ApplyOverrides(base: Theme, overrides: Config.ColorOverrides) returns (theme: Theme)
    ensures theme == Overridden(base, overrides)
    ensures OverridesApplied(theme, base, overrides) && SameFixedSlots(theme, base)
  {
    theme := base;
    var c: Color;
    c := OverrideSlot(theme.bg0, overrides.bg0);
    theme := theme.(bg0 := c);
    c := OverrideSlot(theme.bg1, overrides.bg1);
    theme := theme.(bg1 := c);
    c := OverrideSlot(theme.bg2, overrides.bg2);
    theme := theme.(bg2 := c);
    c := OverrideSlot(theme.fg0, overrides.fg0);
    theme := theme.(fg0 := c);
    c := OverrideSlot(theme.fg1, overrides.fg1);
    theme := theme.(fg1 := c);
    c := OverrideSlot(theme.accent, overrides.accent);
    theme := theme.(accent := c);
    c := OverrideSlot(theme.selection, overrides.selection);
    theme := theme.(selection := c);
    c := OverrideSlot(theme.unread, overrides.unread);
    theme := theme.(unread := c);
    c := OverrideSlot(theme.read, overrides.read);
    theme := theme.(read := c);
    c := OverrideSlot(theme.error, overrides.error);
    theme := theme.(error := c);
    c := OverrideSlot(theme.success, overrides.success);
    theme := theme.(success := c);
    c := OverrideSlot(theme.warning, overrides.warning);
    theme := theme.(warning := c);
    c := OverrideSlot(theme.info, overrides.info);
    theme := theme.(info := c);
  }

  /** The slots no override can reach. */
  predicate SameFixedSlots(a: Theme, b: Theme)
  {
    a.bg3 == b.bg3 && a.grey0 == b.grey0 && a.grey1 == b.grey1 && a.grey2 == b.grey2
    && a.aqua == b.aqua && a.blue == b.blue && a.purple == b.purple
    && a.red == b.red && a.orange == b.orange && a.yellow == b.yellow && a.green == b.green
  }

  /** Overrides never touch the eleven slots that have no override. */
  lemma OverridesKeepFixedSlots(t: Theme, o: Config.ColorOverrides)
    ensures SameFixedSlots(Overridden(t, o), t)
  {
  }

  /** An override that is absent or does not parse. */
  predicate Unusable(hex: Option<string>)
  {
    hex.None? || ParseHexColorAsWritten(hex.value).None?
  }

  /** A slot after overriding: the override's colour when it is usable, the old colour otherwise. */
  predicate SlotOverridden(now: Color, before: Color, hex: Option<string>)
  {
    if Unusable(hex) then now == before else now == ParseHexColorAsWritten(hex.value).value
  }

  /** Every one of the thirteen overridable slots of `t` is `base`'s slot overridden by `o`. */
  predicate OverridesApplied(t: Theme, base: Theme, o: Config.ColorOverrides)
  {
    SlotOverridden(t.bg0, base.bg0, o.bg0) && SlotOverridden(t.bg1, base.bg1, o.bg1)
    && SlotOverridden(t.bg2, base.bg2, o.bg2) && SlotOverridden(t.fg0, base.fg0, o.fg0)
    && SlotOverridden(t.fg1, base.fg1, o.fg1) && SlotOverridden(t.accent, base.accent, o.accent)
    && SlotOverridden(t.selection, base.selection, o.selection) && SlotOverridden(t.unread, base.unread, o.unread)
    && SlotOverridden(t.read, base.read, o.read) && SlotOverridden(t.error, base.error, o.error)
    && SlotOverridden(t.success, base.success, o.success) && SlotOverridden(t.warning, base.warning, o.warning)
    && SlotOverridden(t.info, base.info, o.info)
  }

  /** Without overrides, or with only unparsable ones, the theme is unchanged. */
  lemma NoValidOverrideKeepsTheme(t: Theme, o: Config.ColorOverrides)
    requires Unusable(o.bg0)
    && Unusable(o.bg1)
    && Unusable(o.bg2)
    && Unusable(o.fg0)
    && Unusable(o.fg1)
    && Unusable(o.accent)
    && Unusable(o.selection)
    && Unusable(o.unread)
    && Unusable(o.read)
    && Unusable(o.error)
    && Unusable(o.success)
    && Unusable(o.warning)
    && Unusable(o.info)
    ensures Overridden(t, o) == t
  {
  }

  /** Applying the same overrides again changes nothing. */
  lemma OverridesIdempotent(t: Theme, o: Config.ColorOverrides)
    ensures Overridden(Overridden(t, o), o) == Overridden(t, o)
  {
  }

  /** A single valid override, say of the unread colour, sets that slot and nothing else. */
  lemma ValidOverrideWins(t: Theme, hex: string)
    requires ParseHexColorAsWritten(hex).Some?
    ensures Overridden(t, Config.NO_OVERRIDES.(unread := Some(hex))).unread == ParseHexColorAsWritten(hex).value
    ensures Overridden(t, Config.NO_OVERRIDES.(unread := Some(hex))) == t.(unread := ParseHexColorAsWritten(hex).value)
  {
  }

  /**
   * `load_theme`: the palette the name selects, with the overrides applied.
   * The colour values of each palette are a parameter.
   */
  function LoadTheme(config: Config.ThemeConfig, palette: BaseTheme -> Theme): (t: Theme)
    ensures SameFixedSlots(t, palette(ThemeFor(config.name)))
    ensures OverridesApplied(t, palette(ThemeFor(config.name)), config.colors)
  {
    Overridden(palette(ThemeFor(config.name)), config.colors)
  }

  /** The default theme configuration loads gruvbox-dark untouched. */
  lemma DefaultThemeIsGruvboxDark(palette: BaseTheme -> Theme)
    ensures LoadTheme(Config.DefaultTheme(), palette) == palette(GruvboxDark)
  {
    var n := Config.DEFAULT_THEME_NAME;
    assert Text.Lower(n) == n;
    LookupFirst(n, THEME_NAMES, 5);
  }

  /** An unknown name falls back to gruvbox-dark. */
  lemma UnknownNameFallsBack(config: Config.ThemeConfig, palette: BaseTheme -> Theme)
    requires forall i :: 0 <= i < |THEME_NAMES| ==> THEME_NAMES[i].0 != Text.Lower(config.name)
    ensures LoadTheme(config, palette) == Overridden(palette(GruvboxDark), config.colors)
  {
  }
}
