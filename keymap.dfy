/**
 * The configurable keymap: Vim-style key notation ("j", "G", "<C-d>",
 * "<S-Tab>", "<CR>") parsed into key bindings, and the table built from the
 * keymap configuration, where the first binding of a key wins, "gg" is a
 * two-key sequence kept apart, and a few keys are fixed.
 */
module Keymap {
  import opened Wrappers
  import Text
  import Config
  import opened Input

  /** A key code together with the exact modifiers that must be held. */
  datatype KeyBinding = KeyBinding(code: KeyCode, modifiers: Modifiers)

  function Simple(code: KeyCode): KeyBinding { KeyBinding(code, NONE) }
  function Ctrl(code: KeyCode): KeyBinding { KeyBinding(code, CONTROL) }
  function Shift(code: KeyCode): KeyBinding { KeyBinding(code, SHIFT) }

  /** `char::is_ascii_uppercase`. */
  predicate IsUpper(c: char)
  {
    'A' <= c <= 'Z'
  }

  // ---------------------------------------------------------------- parsing

  /** The key names, matched after lowercasing, in the order they are tried. */
  const KEY_NAMES: seq<(string, KeyCode)> := [
    ("cr", KeyCode.Enter), ("enter", KeyCode.Enter), ("return", KeyCode.Enter),
    ("esc", KeyCode.Esc), ("escape", KeyCode.Esc),
    ("tab", Tab), ("backtab", BackTab),
    ("space", Char(' ')), ("spc", Char(' ')),
    ("bs", KeyCode.Backspace), ("backspace", KeyCode.Backspace),
    ("del", KeyCode.Delete), ("delete", KeyCode.Delete),
    ("left", Left), ("right", Right), ("up", Up), ("down", Down),
    ("home", Home), ("end", End),
    ("pageup", PageUp), ("pgup", PageUp), ("pagedown", PageDown), ("pgdn", PageDown),
    ("insert", Insert), ("ins", Insert),
    ("f1", F(1)), ("f2", F(2)), ("f3", F(3)), ("f4", F(4)), ("f5", F(5)), ("f6", F(6)),
    ("f7", F(7)), ("f8", F(8)), ("f9", F(9)), ("f10", F(10)), ("f11", F(11)), ("f12", F(12))]

  /** Every name has at least two characters, and the only character key named is the space. */
  predicate NamesWellFormed(table: seq<(string, KeyCode)>)
  {
    forall i :: 0 <= i < |table| ==> |table[i].0| >= 2 && (table[i].1.Char? ==> table[i].1.c == ' ')
  }

  lemma KeyNamesWellFormed()
    ensures NamesWellFormed(KEY_NAMES)
  {
  }

  /** The key of the first entry named `n`. */
  function LookupName(n: string, table: seq<(string, KeyCode)>): (r: Option<KeyCode>)
    ensures r.Some? ==> exists i :: 0 <= i < |table| && table[i].0 == n && table[i].1 == r.value
  {
    if table == [] then None
    else if table[0].0 == n then Some(table[0].1)
    else
      var r := LookupName(n, table[1..]);
      if r.Some? then
        var i :| 0 <= i < |table[1..]| && table[1..][i].0 == n && table[1..][i].1 == r.value;
        assert table[i + 1] == table[1..][i];
        r
      else r
  }

  /**
   * `parse_key_name`: a named key, compared without regard to case, or a
   * single one-byte character, lowercased.
   */
  function ParseKeyName(name: string): (r: Option<KeyCode>)
    ensures r.Some? && r.value.Char? ==> !IsUpper(r.value.c)
    ensures r.Some? && r.value.Char? && r.value.c != ' ' ==> |name| == 1 && r.value.c == Text.LowerChar(name[0])
    ensures |name| == 1 && name[0] as int < 0x80 ==> r == Some(Char(Text.LowerChar(name[0])))
  {
    KeyNamesWellFormed();
    Text.ByteLenOne(name);
    var named := LookupName(Text.Lower(name), KEY_NAMES);
    if named.Some? then named
    else if Text.ByteLen(name) == 1 then Some(Char(Text.LowerChar(name[0])))
    else None
  }

  /** The modifier a special key's "C-" or "S-" prefix names, and the rest of the text. */
  function SplitModifier(inner: string): (r: (Modifiers, string))
    ensures r.0 in {NONE, CONTROL, SHIFT}
    ensures r.0 == NONE ==> r.1 == inner
    ensures r.0 != NONE ==> |inner| >= 2 && r.1 == inner[2..]
  {
    if Text.StartsWith(inner, "C-") then (CONTROL, inner[2..])
    else if Text.StartsWith(inner, "S-") then (SHIFT, inner[2..])
    else (NONE, inner)
  }

  /** `parse_special_key`: the text between '<' and '>', with an optional "C-" or "S-". */
  function ParseSpecialKey(inner: string): (r: Option<KeyBinding>)
    ensures r.Some? ==> r.value.modifiers in {NONE, CONTROL, SHIFT}
    ensures r.Some? && r.value.code.Char? ==> !IsUpper(r.value.code.c)
  {
    var (modifiers, rest) := SplitModifier(inner);
    var k := ParseKeyName(rest);
    if k.Some? then Some(KeyBinding(k.value, modifiers)) else None
  }

  /** The notation is written between angle brackets. */
  predicate Bracketed(t: string)
  {
    Text.StartsWith(t, "<") && Text.EndsWith(t, ">")
  }

  /** `parse_key_binding` once the notation has been trimmed. */
  function ParseTrimmed(t: string): (r: Option<KeyBinding>)
    ensures r.Some? ==> r.value.modifiers in {NONE, CONTROL, SHIFT}
    ensures r.Some? && r.value.modifiers == CONTROL && r.value.code.Char? ==> !IsUpper(r.value.code.c)
  {
    Text.ByteLenOne(t);
    if Bracketed(t) then
      ParseSpecialKey(t[1..|t| - 1])
    else if Text.ByteLen(t) == 1 then
      var c := t[0];
      if IsUpper(c) then Some(Shift(Char(c))) else Some(Simple(Char(c)))
    else if t == "gg" then Some(Simple(Char('g')))
    else None
  }

  /**
   * `parse_key_binding`: after trimming, "<…>" is a special key, a single
   * one-byte character is itself (Shift held when it is an uppercase
   * letter), "gg" is a plain 'g', and anything else is not a key.
   */
  function ParseKeyBinding(s: string): (r: Option<KeyBinding>)
    ensures r.Some? ==> r.value.modifiers in {NONE, CONTROL, SHIFT}
    ensures r.Some? && r.value.modifiers == CONTROL && r.value.code.Char? ==> !IsUpper(r.value.code.c)
    ensures !Bracketed(Text.Trim(s)) && Text.ByteLen(Text.Trim(s)) != 1 && Text.Trim(s) != "gg" ==> r.None?
  {
    ParseTrimmed(Text.Trim(s))
  }

  /** Surrounding whitespace does not matter. */
  lemma ParseIgnoresWhitespace(s: string)
    ensures ParseKeyBinding(Text.Trim(s)) == ParseKeyBinding(s)
  {
    Text.TrimUnchanged(Text.Trim(s));
  }

  /** A lone one-byte character that is not whitespace binds itself; Shift exactly for 'A'…'Z'. */
  lemma ParseSingleChar(c: char)
    requires c as int < 0x80 && !Text.IsWhitespace(c)
    ensures ParseKeyBinding([c]) == Some(KeyBinding(Char(c), if IsUpper(c) then SHIFT else NONE))
  {
    Text.TrimUnchanged([c]);
    Text.ByteLenOne([c]);
  }

  /** A one-byte name that is no key name stands for its own character, lowercased. */
  lemma ParseCharName(c: char)
    requires c as int < 0x80
    ensures ParseKeyName([c]) == Some(Char(Text.LowerChar(c)))
  {
    Text.ByteLenOne([c]);
  }

  /** Key names are case-insensitive. */
  lemma ParseKeyNameIgnoresCase(name: string)
    ensures ParseKeyName(Text.Lower(name)) == ParseKeyName(name)
  {
    Text.LowerIdempotent(name);
    Text.ByteLenOne(name);
    Text.ByteLenOne(Text.Lower(name));
  }

  /** "<x>" wraps the text between the brackets. */
  lemma BracketedInner(inner: string)
    ensures ParseKeyBinding("<" + inner + ">") == ParseSpecialKey(inner)
  {
    var s := "<" + inner + ">";
    assert s[0] == '<' && s[|s| - 1] == '>';
    Text.TrimUnchanged(s);
    assert Bracketed(s);
    assert s[1..|s| - 1] == inner;
  }

  /** "<C-name>" holds Control over the named key. */
  lemma ParseCtrl(name: string)
    ensures ParseKeyBinding("<C-" + name + ">") ==
      (if ParseKeyName(name).Some? then Some(Ctrl(ParseKeyName(name).value)) else None)
  {
    var inner := "C-" + name;
    assert "<C-" + name + ">" == "<" + inner + ">";
    BracketedInner(inner);
    assert Text.StartsWith(inner, "C-") && inner[2..] == name;
  }

  /** "<S-name>" holds Shift over the named key. */
  lemma ParseShift(name: string)
    ensures ParseKeyBinding("<S-" + name + ">") ==
      (if ParseKeyName(name).Some? then Some(Shift(ParseKeyName(name).value)) else None)
  {
    var inner := "S-" + name;
    assert "<S-" + name + ">" == "<" + inner + ">";
    BracketedInner(inner);
    assert !Text.StartsWith(inner, "C-") && Text.StartsWith(inner, "S-") && inner[2..] == name;
  }

  /** "<name>" without a modifier prefix is the named key with no modifier. */
  lemma ParsePlainName(name: string)
    requires !Text.StartsWith(name, "C-") && !Text.StartsWith(name, "S-")
    ensures ParseKeyBinding("<" + name + ">") ==
      (if ParseKeyName(name).Some? then Some(Simple(ParseKeyName(name).value)) else None)
  {
    BracketedInner(name);
  }

  /** "gg" on its own is a plain 'g'. */
  lemma ParseGG()
    ensures ParseKeyBinding("gg") == Some(Simple(Char('g')))
  {
    Text.TrimUnchanged("gg");
    Text.ByteLenOne("gg");
  }

  /** "<C-x>" for a one-byte character x holds Control over x, lowercased. */
  lemma ParseCtrlChar(c: char)
    requires c as int < 0x80
    ensures ParseKeyBinding("<C-" + [c] + ">") == Some(Ctrl(Char(Text.LowerChar(c))))
  {
    ParseCharName(c);
    ParseCtrl([c]);
  }

  /** The lookup finds the first entry with the name. */
  lemma LookupFirst(n: string, table: seq<(string, KeyCode)>, i: nat)
    requires i < |table| && table[i].0 == n
    requires forall j :: 0 <= j < i ==> table[j].0 != n
    ensures LookupName(n, table) == Some(table[i].1)
  {
    if i > 0 {
      LookupFirst(n, table[1..], i - 1);
    }
  }

  /**
   * A key name written in any case names its key, alone or after "C-" or
   * "S-" between angle brackets.
   */
  lemma ParseNamedKey(name: string, i: nat)
    requires i < |KEY_NAMES| && Text.Lower(name) == KEY_NAMES[i].0
    requires forall j :: 0 <= j < i ==> KEY_NAMES[j].0 != KEY_NAMES[i].0
    ensures ParseKeyName(name) == Some(KEY_NAMES[i].1)
    ensures !Text.StartsWith(name, "C-") && !Text.StartsWith(name, "S-") ==>
      ParseKeyBinding("<" + name + ">") == Some(Simple(KEY_NAMES[i].1))
    ensures ParseKeyBinding("<C-" + name + ">") == Some(Ctrl(KEY_NAMES[i].1))
    ensures ParseKeyBinding("<S-" + name + ">") == Some(Shift(KEY_NAMES[i].1))
  {
    LookupFirst(Text.Lower(name), KEY_NAMES, i);
    ParseCtrl(name);
    ParseShift(name);
    if !Text.StartsWith(name, "C-") && !Text.StartsWith(name, "S-") {
      ParsePlainName(name);
    }
  }

  // ---------------------------------------------------------------- the keymap

  /** The bindings and the action of the "gg" sequence, if one is configured. */
  datatype Keymap = Keymap(bindings: map<KeyBinding, Action>, pendingG: Option<Action>)

  const EMPTY: Keymap := Keymap(map[], None)

  /** What one configured notation contributes: the "gg" sequence, a key, or nothing. */
  datatype Entry = GSequence | Bound(binding: KeyBinding) | Invalid

  function Classify(keyStr: string): (e: Entry)
    ensures e == GSequence <==> keyStr == "gg"
    ensures e.Bound? ==> ParseKeyBinding(keyStr) == Some(e.binding)
    ensures e == Invalid <==> keyStr != "gg" && ParseKeyBinding(keyStr).None?
  {
    if keyStr == "gg" then GSequence
    else
      var parsed := ParseKeyBinding(keyStr);
      if parsed.Some? then Bound(parsed.value) else Invalid
  }

  /**
   * One configured binding: "gg" sets the sequence's action; a key already
   * bound keeps its action (a conflict); an invalid notation is skipped.
   */
  function AddEntry(km: Keymap, e: Entry, action: Action): (r: Keymap)
    ensures e == GSequence ==> r == km.(pendingG := Some(action))
    ensures e != GSequence ==> r.pendingG == km.pendingG
    ensures forall b :: b in km.bindings ==> b in r.bindings && r.bindings[b] == km.bindings[b]
    ensures forall b :: b in r.bindings && b !in km.bindings ==> e == Bound(b) && r.bindings[b] == action
    ensures e.Bound? ==> e.binding in r.bindings
  {
    match e
    case GSequence => km.(pendingG := Some(action))
    case Bound(b) => if b in km.bindings then km else km.(bindings := km.bindings[b := action])
    case Invalid => km
  }

  /** The configured bindings in the order they are added. */
  function ConfigBindings(c: Config.KeymapConfig): (r: seq<(string, Action)>)
    ensures |r| == 31
  {
    [(c.quit, Quit), (c.focusLeft, FocusLeft), (c.focusRight, FocusRight),
     (c.moveDown, MoveDown), (c.moveUp, MoveUp),
     (c.scrollHalfDown, ScrollHalfPageDown), (c.scrollHalfUp, ScrollHalfPageUp),
     (c.scrollPageDown, ScrollPageDown), (c.scrollPageUp, ScrollPageUp),
     (c.nextArticle, NextArticle), (c.prevArticle, PrevArticle),
     (c.jumpToTop, JumpToTop), (c.jumpToBottom, JumpToBottom),
     (c.select, Select), (c.openBrowser, OpenInBrowser), (c.toggleSaved, ToggleSaved),
     (c.refresh, Refresh), (c.toggleRead, ToggleRead),
     (c.searchForward, StartSearchForward), (c.searchBackward, StartSearchBackward),
     (c.nextMatch, NextMatch), (c.prevMatch, PrevMatch),
     (c.toggleUnreadOnly, ToggleUnreadOnly),
     (c.historyBack, HistoryBack), (c.historyForward, HistoryForward),
     (c.toggleSelect, ToggleSelect), (c.visualMode, VisualMode),
     (c.openItem, OpenImage), (c.viewImage, ViewImage), (c.nextItem, NextImage), (c.prevItem, PrevImage)]
  }

  /** Each configured notation classified, with its action. */
  function Entries(pairs: seq<(string, Action)>): (r: seq<(Entry, Action)>)
    ensures |r| == |pairs|
    ensures forall i :: 0 <= i < |pairs| ==> r[i] == (Classify(pairs[i].0), pairs[i].1)
  {
    seq(|pairs|, i requires 0 <= i < |pairs| => (Classify(pairs[i].0), pairs[i].1))
  }

  /** The keymap after adding `entries` in order. */
  function AddAll(km: Keymap, entries: seq<(Entry, Action)>): Keymap
  {
    if entries == [] then km
    else AddEntry(AddAll(km, entries[..|entries| - 1]), entries[|entries| - 1].0, entries[|entries| - 1].1)
  }

  /** The index of the first entry at or after `from` that binds `b`. */
  function FirstBinderFrom(entries: seq<(Entry, Action)>, b: KeyBinding, from: nat): (r: Option<nat>)
    requires from <= |entries|
    ensures r.Some? ==> from <= r.value < |entries| && entries[r.value].0 == Bound(b)
    ensures r.Some? ==> forall j :: from <= j < r.value ==> entries[j].0 != Bound(b)
    ensures r.None? ==> forall j :: from <= j < |entries| ==> entries[j].0 != Bound(b)
    decreases |entries| - from
  {
    if from == |entries| then None
    else if entries[from].0 == Bound(b) then Some(from)
    else FirstBinderFrom(entries, b, from + 1)
  }

  function FirstBinder(entries: seq<(Entry, Action)>, b: KeyBinding): Option<nat>
  {
    FirstBinderFrom(entries, b, 0)
  }

  /** The first binder is the least index that binds. */
  lemma FirstBinderIs(entries: seq<(Entry, Action)>, b: KeyBinding, k: nat)
    requires k < |entries| && entries[k].0 == Bound(b)
    requires forall j :: 0 <= j < k ==> entries[j].0 != Bound(b)
    ensures FirstBinder(entries, b) == Some(k)
  {
  }

  /**
   * On a conflict the first binding wins: after adding `entries` to an
   * empty keymap, `b` is bound exactly when some entry binds it, and to the
   * action of the first such entry.
   */
  lemma {:induction false} FirstBindingWins(entries: seq<(Entry, Action)>, b: KeyBinding)
    ensures b in AddAll(EMPTY, entries).bindings <==> FirstBinder(entries, b).Some?
    ensures b in AddAll(EMPTY, entries).bindings ==>
      AddAll(EMPTY, entries).bindings[b] == entries[FirstBinder(entries, b).value].1
  {
    if entries != [] {
      var init := entries[..|entries| - 1];
      var last := entries[|entries| - 1];
      FirstBindingWins(init, b);
      var before := FirstBinder(init, b);
      if before.Some? {
        assert entries[before.value] == init[before.value];
        FirstBinderIs(entries, b, before.value);
      } else if last.0 == Bound(b) {
        FirstBinderIs(entries, b, |init|);
      } else {
        forall j | 0 <= j < |entries| ensures entries[j].0 != Bound(b) {
          if j < |init| {
            assert entries[j] == init[j];
          }
        }
      }
    }
  }

  /**
   * "gg" never enters the bindings; the sequence holds the action of the
   * last "gg" entry, and is unset when there is none.
   */
  lemma {:induction false} LastGSequenceWins(entries: seq<(Entry, Action)>)
    ensures AddAll(EMPTY, entries).pendingG.None? <==> forall i :: 0 <= i < |entries| ==> entries[i].0 != GSequence
    ensures AddAll(EMPTY, entries).pendingG.Some? ==>
      exists i :: 0 <= i < |entries| && entries[i] == (GSequence, AddAll(EMPTY, entries).pendingG.value) &&
        forall j :: i < j < |entries| ==> entries[j].0 != GSequence
  {
    if entries != [] {
      var init := entries[..|entries| - 1];
      var last := entries[|entries| - 1];
      LastGSequenceWins(init);
      var r := AddAll(EMPTY, entries);
      if last.0 == GSequence {
        assert entries[|entries| - 1] == (GSequence, r.pendingG.value);
      } else {
        assert forall j :: 0 <= j < |init| ==> entries[j] == init[j];
        if r.pendingG.Some? {
          var i :| 0 <= i < |init| && init[i] == (GSequence, r.pendingG.value) &&
            forall j :: i < j < |init| ==> init[j].0 != GSequence;
          assert entries[i] == (GSequence, r.pendingG.value);
        }
      }
    }
  }

  /** `entry(k).or_insert(v)`. */
  function OrInsert(m: map<KeyBinding, Action>, k: KeyBinding, v: Action): (r: map<KeyBinding, Action>)
    ensures k in r && r[k] == (if k in m then m[k] else v)
    ensures forall b :: b in m ==> b in r && r[b] == m[b]
    ensures forall b :: b in r ==> b in m || b == k
  {
    if k in m then m else m[k := v]
  }

  /** `Keymap::get`. */
  function Get(km: Keymap, b: KeyBinding): (r: Option<Action>)
    ensures r.Some? <==> b in km.bindings
    ensures r.Some? ==> r.value == km.bindings[b]
  {
    if b in km.bindings then Some(km.bindings[b]) else None
  }

  /** `b` keeps a configured action or gets `a`; nothing else changes. */
  function FillDefault(km: Keymap, b: KeyBinding, a: Action): (r: Keymap)
    ensures r.pendingG == km.pendingG
    ensures Get(r, b) == Some(Get(km, b).UnwrapOr(a))
    ensures forall b' :: b' != b ==> Get(r, b') == Get(km, b')
    ensures forall b' :: b' in r.bindings ==> b' in km.bindings || b' == b
  {
    km.(bindings := OrInsert(km.bindings, b, a))
  }

  /** Each arrow key keeps a configured action or gets its default; nothing else changes. */
  function ArrowDefaults(km: Keymap): (r: Keymap)
    ensures r.pendingG == km.pendingG
    ensures Get(r, Simple(Left)) == Some(Get(km, Simple(Left)).UnwrapOr(FocusLeft))
    ensures Get(r, Simple(Right)) == Some(Get(km, Simple(Right)).UnwrapOr(FocusRight))
    ensures Get(r, Simple(Up)) == Some(Get(km, Simple(Up)).UnwrapOr(MoveUp))
    ensures Get(r, Simple(Down)) == Some(Get(km, Simple(Down)).UnwrapOr(MoveDown))
    ensures forall b :: b in km.bindings ==> Get(r, b) == Get(km, b)
  {
    var k1 := FillDefault(km, Simple(Left), FocusLeft);
    var k2 := FillDefault(k1, Simple(Right), FocusRight);
    var k3 := FillDefault(k2, Simple(Up), MoveUp);
    FillDefault(k3, Simple(Down), MoveDown)
  }

  /** The arrow keys are the only keys `ArrowDefaults` adds. */
  lemma ArrowDefaultsAdds(km: Keymap)
    ensures forall b :: b in ArrowDefaults(km).bindings ==>
      b in km.bindings || b == Simple(Left) || b == Simple(Right) || b == Simple(Up) || b == Simple(Down)
  {
    var k1 := FillDefault(km, Simple(Left), FocusLeft);
    var k2 := FillDefault(k1, Simple(Right), FocusRight);
    var k3 := FillDefault(k2, Simple(Up), MoveUp);
    assert ArrowDefaults(km) == FillDefault(k3, Simple(Down), MoveDown);
  }

  /** Binds `b` to `a`, replacing any configured action. */
  function Bind(km: Keymap, b: KeyBinding, a: Action): (r: Keymap)
    ensures r.pendingG == km.pendingG
    ensures Get(r, b) == Some(a)
    ensures forall b' :: b' != b ==> Get(r, b') == Get(km, b')
    ensures forall b' :: b' in r.bindings ==> b' in km.bindings || b' == b
  {
    km.(bindings := km.bindings[b := a])
  }

  /** The fixed keys: Ctrl+C quits and Escape exits whatever was configured; arrows fill free slots. */
  function FixedKeys(km: Keymap): (r: Keymap)
    ensures r.pendingG == km.pendingG
    ensures Get(r, Ctrl(Char('c'))) == Some(Quit)
    ensures Get(r, Simple(KeyCode.Esc)) == Some(ExitMode)
  {
    var k0 := Bind(km, Ctrl(Char('c')), Quit);
    var k4 := ArrowDefaults(k0);
    Bind(k4, Simple(KeyCode.Esc), ExitMode)
  }

  /** The arrow keys keep a configured action or get their defaults. */
  lemma FixedKeysArrows(km: Keymap)
    ensures Get(FixedKeys(km), Simple(Left)) == Some(Get(km, Simple(Left)).UnwrapOr(FocusLeft))
    ensures Get(FixedKeys(km), Simple(Right)) == Some(Get(km, Simple(Right)).UnwrapOr(FocusRight))
    ensures Get(FixedKeys(km), Simple(Up)) == Some(Get(km, Simple(Up)).UnwrapOr(MoveUp))
    ensures Get(FixedKeys(km), Simple(Down)) == Some(Get(km, Simple(Down)).UnwrapOr(MoveDown))
  {
  }

  /** Apart from Ctrl+C and Escape a configured key keeps its action, and only the fixed keys are added. */
  lemma FixedKeysFrame(km: Keymap)
    ensures forall b :: b != Ctrl(Char('c')) && b != Simple(KeyCode.Esc) && b in km.bindings ==>
      Get(FixedKeys(km), b) == Get(km, b)
    ensures forall b :: b in FixedKeys(km).bindings ==>
      || b in km.bindings || b == Ctrl(Char('c')) || b == Simple(KeyCode.Esc)
      || b == Simple(Left) || b == Simple(Right) || b == Simple(Up) || b == Simple(Down)
  {
    ArrowDefaultsAdds(Bind(km, Ctrl(Char('c')), Quit));
  }

  /** The keymap built from configured notations and their actions. */
  function KeymapFrom(pairs: seq<(string, Action)>): Keymap
  {
    FixedKeys(AddAll(EMPTY, Entries(pairs)))
  }

  /** The keymap a configuration describes. */
  function KeymapOf(c: Config.KeymapConfig): Keymap
  {
    KeymapFrom(ConfigBindings(c))
  }

  /**
   * The `add_binding` closure applied to each configured notation in turn:
   * "gg" sets the sequence's action, a key not yet bound gains its action,
   * and a conflicting or invalid notation is skipped.
   */
  method AddBindings(pairs: seq<(string, Action)>) returns (bindings: map<KeyBinding, Action>, pendingG: Option<Action>)
    ensures Keymap(bindings, pendingG) == AddAll(EMPTY, Entries(pairs))
  {
    ghost var entries := Entries(pairs);
    bindings := map[];
    pendingG := None;
    for i := 0 to |pairs|
      invariant Keymap(bindings, pendingG) == AddAll(EMPTY, entries[..i])
    {
      var (keyStr, action) := pairs[i];
      if keyStr == "gg" {
        pendingG := Some(action);
      } else {
        var parsed := ParseKeyBinding(keyStr);
        if parsed.Some? && parsed.value !in bindings {
          bindings := bindings[parsed.value := action];
        }
      }
      assert entries[..i + 1][..i] == entries[..i];
    }
    assert entries[..|pairs|] == entries;
  }

  /**
   * `Keymap::from_config`: the configured bindings added one after another
   * into a map and a "gg" slot, then the fixed keys.
   */
  method FromConfig(config: Config.KeymapConfig) returns (km: Keymap)
    ensures km == KeymapOf(config)
  {
    var bindings, pendingG := AddBindings(ConfigBindings(config));
    bindings := bindings[Ctrl(Char('c')) := Quit];
    bindings := OrInsert(bindings, Simple(Left), FocusLeft);
    bindings := OrInsert(bindings, Simple(Right), FocusRight);
    bindings := OrInsert(bindings, Simple(Up), MoveUp);
    bindings := OrInsert(bindings, Simple(Down), MoveDown);
    bindings := bindings[Simple(KeyCode.Esc) := ExitMode];
    km := Keymap(bindings, pendingG);
  }

  /** `Keymap::is_g_prefix`: a plain 'g' starts the sequence when "gg" is configured. */
  function IsGPrefix(km: Keymap, b: KeyBinding): (r: bool)
  {
    km.pendingG.Some? && b.code == Char('g') && b.modifiers == NONE
  }

  /** A 'g' starts the sequence only without modifiers, and only when "gg" is configured. */
  lemma GPrefixOnlyPlainG(pairs: seq<(string, Action)>, b: KeyBinding)
    ensures IsGPrefix(KeymapFrom(pairs), b) <==>
      b == Simple(Char('g')) && exists i :: 0 <= i < |pairs| && pairs[i].0 == "gg"
  {
    var entries := Entries(pairs);
    LastGSequenceWins(entries);
    if exists i :: 0 <= i < |pairs| && pairs[i].0 == "gg" {
      var i :| 0 <= i < |pairs| && pairs[i].0 == "gg";
      assert entries[i].0 == GSequence;
    }
  }

  /** None of the first `k` notations parses to `b` (a "gg" binds no key). */
  predicate NoEarlierBinding(pairs: seq<(string, Action)>, b: KeyBinding, k: nat)
    requires k <= |pairs|
  {
    forall j :: 0 <= j < k ==> pairs[j].0 == "gg" || ParseKeyBinding(pairs[j].0) != Some(b)
  }

  /** The notation at `k` does not bind `b` either, so none of the first `k + 1` does. */
  lemma NoEarlierBindingStep(pairs: seq<(string, Action)>, b: KeyBinding, k: nat)
    requires k < |pairs| && NoEarlierBinding(pairs, b, k)
    requires pairs[k].0 == "gg" || ParseKeyBinding(pairs[k].0) != Some(b)
    ensures NoEarlierBinding(pairs, b, k + 1)
  {
  }

  /** The action of the first configured notation that parses to `b`. */
  lemma FirstConfiguredWins(pairs: seq<(string, Action)>, b: KeyBinding, k: nat)
    requires k < |pairs| && pairs[k].0 != "gg" && ParseKeyBinding(pairs[k].0) == Some(b)
    requires NoEarlierBinding(pairs, b, k)
    ensures Get(AddAll(EMPTY, Entries(pairs)), b) == Some(pairs[k].1)
  {
    var entries := Entries(pairs);
    forall j | 0 <= j < k ensures entries[j].0 != Bound(b) {
      assert pairs[j].0 == "gg" || ParseKeyBinding(pairs[j].0) != Some(b);
    }
    FirstBinderIs(entries, b, k);
    FirstBindingWins(entries, b);
  }

  /** The first configured notation for a key that is not fixed decides that key in the final keymap. */
  lemma ConfiguredWins(c: Config.KeymapConfig, b: KeyBinding, k: nat)
    requires k < 31 && ConfigBindings(c)[k].0 != "gg" && ParseKeyBinding(ConfigBindings(c)[k].0) == Some(b)
    requires NoEarlierBinding(ConfigBindings(c), b, k)
    requires b != Ctrl(Char('c')) && b != Simple(KeyCode.Esc)
    ensures Get(KeymapOf(c), b) == Some(ConfigBindings(c)[k].1)
  {
    var pairs := ConfigBindings(c);
    FirstConfiguredWins(pairs, b, k);
    var km := AddAll(EMPTY, Entries(pairs));
    assert b in km.bindings;
    FixedKeysFrame(km);
  }

  /** The action of the last "gg" entry is the sequence's action. */
  lemma {:induction false} LastGSequenceAt(entries: seq<(Entry, Action)>, k: nat)
    requires k < |entries| && entries[k].0 == GSequence
    requires forall j :: k < j < |entries| ==> entries[j].0 != GSequence
    ensures AddAll(EMPTY, entries).pendingG == Some(entries[k].1)
  {
    if k < |entries| - 1 {
      var init := entries[..|entries| - 1];
      assert init[k] == entries[k];
      LastGSequenceAt(init, k);
    }
  }

  /** The action of the last "gg" notation. */
  lemma LastConfiguredGSequence(pairs: seq<(string, Action)>, k: nat)
    requires k < |pairs| && pairs[k].0 == "gg"
    requires forall j :: k < j < |pairs| ==> pairs[j].0 != "gg"
    ensures AddAll(EMPTY, Entries(pairs)).pendingG == Some(pairs[k].1)
  {
    var entries := Entries(pairs);
    forall j | k < j < |entries| ensures entries[j].0 != GSequence {
      assert pairs[j].0 != "gg";
    }
    LastGSequenceAt(entries, k);
  }

  /** A configured notation of one character that is neither whitespace nor above ASCII. */
  lemma SingleCharNotation(s: string)
    requires |s| == 1 && s[0] as int < 0x80 && !Text.IsWhitespace(s[0])
    ensures ParseKeyBinding(s) == Some(KeyBinding(Char(s[0]), if IsUpper(s[0]) then SHIFT else NONE))
  {
    var c := s[0];
    assert s == [c];
    ParseSingleChar(c);
  }

  /** A one-character notation parses to that character, never with Control. */
  lemma SingleCharTrimmed(t: string)
    requires |t| == 1
    ensures ParseTrimmed(t).Some? ==>
      ParseTrimmed(t).value.code == Char(t[0]) && ParseTrimmed(t).value.modifiers != CONTROL
  {
    assert !Bracketed(t) by { assert t[..1] == t; assert t[|t| - 1..] == t; }
    Text.ByteLenOne(t);
  }

  lemma SingleCharKey(x: char)
    ensures ParseKeyBinding([x]).Some? ==>
      ParseKeyBinding([x]).value.code == Char(x) && ParseKeyBinding([x]).value.modifiers != CONTROL
  {
    Text.TrimUnchanged([x]);
    if !Text.IsWhitespace(x) {
      SingleCharTrimmed([x]);
    }
  }

  /** A configured notation "<C-x>" for a one-byte character x. */
  lemma CtrlNotation(s: string)
    requires |s| == 5 && s[..3] == "<C-" && s[4] == '>' && s[3] as int < 0x80
    ensures ParseKeyBinding(s) == Some(Ctrl(Char(Text.LowerChar(s[3]))))
  {
    var x := s[3];
    assert s == "<C-" + [x] + ">";
    ParseCtrlChar(x);
  }

  /** Quitting is configured first, so the key its notation names always quits. */
  lemma QuitBindingWins(c: Config.KeymapConfig)
    requires c.quit != "gg" && ParseKeyBinding(c.quit).Some?
    requires ParseKeyBinding(c.quit).value != Simple(KeyCode.Esc)
    ensures Get(KeymapOf(c), ParseKeyBinding(c.quit).value) == Some(Quit)
  {
    var pairs := ConfigBindings(c);
    var b := ParseKeyBinding(c.quit).value;
    assert pairs[0] == (c.quit, Quit);
    if b != Ctrl(Char('c')) {
      ConfiguredWins(c, b, 0);
    }
  }

  /** A one-character notation for quitting binds its own key. */
  lemma QuitSingleChar(c: Config.KeymapConfig)
    requires |c.quit| == 1 && c.quit[0] as int < 0x80 && !Text.IsWhitespace(c.quit[0])
    ensures Get(KeymapOf(c), KeyBinding(Char(c.quit[0]), if IsUpper(c.quit[0]) then SHIFT else NONE))
            == Some(Quit)
  {
    SingleCharNotation(c.quit);
    QuitBindingWins(c);
  }

  /** A one-character notation never binds a Control key. */
  lemma OneCharNoControl(s: string, b: KeyBinding)
    requires |s| == 1 && b.modifiers == CONTROL
    ensures ParseKeyBinding(s) != Some(b)
  {
    assert s == [s[0]];
    SingleCharKey(s[0]);
  }

  /** A one-character notation binds no other character's key. */
  lemma OneCharOtherKey(s: string, b: KeyBinding)
    requires |s| == 1 && b.code.Char? && b.code.c != s[0]
    ensures ParseKeyBinding(s) != Some(b)
  {
    assert s == [s[0]];
    SingleCharKey(s[0]);
  }

  /**
   * When quitting and the two focus moves are written as single characters,
   * a one-character notation for moving down that differs from those three
   * binds its own key.
   */
  lemma MoveDownBinding(c: Config.KeymapConfig)
    requires |c.quit| == 1 && |c.focusLeft| == 1 && |c.focusRight| == 1
    requires |c.moveDown| == 1 && c.moveDown[0] as int < 0x80 && !Text.IsWhitespace(c.moveDown[0])
    requires c.moveDown[0] != c.quit[0] && c.moveDown[0] != c.focusLeft[0] && c.moveDown[0] != c.focusRight[0]
    ensures Get(KeymapOf(c), KeyBinding(Char(c.moveDown[0]), if IsUpper(c.moveDown[0]) then SHIFT else NONE))
            == Some(MoveDown)
  {
    var pairs := ConfigBindings(c);
    var x := c.moveDown[0];
    var b := KeyBinding(Char(x), if IsUpper(x) then SHIFT else NONE);
    assert pairs[0].0 == c.quit && pairs[1].0 == c.focusLeft && pairs[2].0 == c.focusRight;
    assert pairs[3] == (c.moveDown, MoveDown);
    OneCharOtherKey(c.quit, b);
    OneCharOtherKey(c.focusLeft, b);
    OneCharOtherKey(c.focusRight, b);
    SingleCharNotation(c.moveDown);
    NoEarlierBindingStep(pairs, b, 0);
    NoEarlierBindingStep(pairs, b, 1);
    NoEarlierBindingStep(pairs, b, 2);
    ConfiguredWins(c, b, 3);
  }

  /** When the first five actions are written as single characters, none of them binds a Control key. */
  lemma PlainBeforeScrolling(c: Config.KeymapConfig, b: KeyBinding)
    requires |c.quit| == 1 && |c.focusLeft| == 1 && |c.focusRight| == 1
    requires |c.moveDown| == 1 && |c.moveUp| == 1
    requires b.modifiers == CONTROL
    ensures NoEarlierBinding(ConfigBindings(c), b, 5)
  {
    var pairs := ConfigBindings(c);
    assert pairs[0].0 == c.quit && pairs[1].0 == c.focusLeft && pairs[2].0 == c.focusRight;
    assert pairs[3].0 == c.moveDown && pairs[4].0 == c.moveUp;
    OneCharNoControl(c.quit, b);
    OneCharNoControl(c.focusLeft, b);
    OneCharNoControl(c.focusRight, b);
    OneCharNoControl(c.moveDown, b);
    OneCharNoControl(c.moveUp, b);
    NoEarlierBindingStep(pairs, b, 0);
    NoEarlierBindingStep(pairs, b, 1);
    NoEarlierBindingStep(pairs, b, 2);
    NoEarlierBindingStep(pairs, b, 3);
    NoEarlierBindingStep(pairs, b, 4);
  }

  /**
   * When the first five actions are written as single characters, a
   * notation "<C-x>" for scrolling half a page down binds Control with x.
   */
  lemma HalfPageDownBinding(c: Config.KeymapConfig)
    requires |c.quit| == 1 && |c.focusLeft| == 1 && |c.focusRight| == 1
    requires |c.moveDown| == 1 && |c.moveUp| == 1
    requires |c.scrollHalfDown| == 5 && c.scrollHalfDown[..3] == "<C-" && c.scrollHalfDown[4] == '>'
    requires c.scrollHalfDown[3] as int < 0x80 && Text.LowerChar(c.scrollHalfDown[3]) != 'c'
    ensures Get(KeymapOf(c), Ctrl(Char(Text.LowerChar(c.scrollHalfDown[3])))) == Some(ScrollHalfPageDown)
  {
    var pairs := ConfigBindings(c);
    var b := Ctrl(Char(Text.LowerChar(c.scrollHalfDown[3])));
    PlainBeforeScrolling(c, b);
    assert pairs[5] == (c.scrollHalfDown, ScrollHalfPageDown);
    CtrlNotation(c.scrollHalfDown);
    ConfiguredWins(c, b, 5);
  }

  /** In the default keymap, 'q' quits. */
  lemma DefaultQuit()
    ensures Get(KeymapOf(Config.DefaultKeymap()), Simple(Char('q'))) == Some(Quit)
  {
    QuitSingleChar(Config.DefaultKeymap());
  }

  /** In the default keymap, 'j' moves down. */
  lemma DefaultMoveDown()
    ensures Get(KeymapOf(Config.DefaultKeymap()), Simple(Char('j'))) == Some(MoveDown)
  {
    MoveDownBinding(Config.DefaultKeymap());
  }

  /** In the default keymap, Ctrl+D scrolls half a page down. */
  lemma DefaultHalfPageDown()
    ensures Get(KeymapOf(Config.DefaultKeymap()), Ctrl(Char('d'))) == Some(ScrollHalfPageDown)
  {
    var c := Config.DefaultKeymap();
    assert c.scrollHalfDown[..3] == "<C-";
    HalfPageDownBinding(c);
  }

  /** In the default keymap, "gg" jumps to the top. */
  lemma DefaultGSequence()
    ensures KeymapOf(Config.DefaultKeymap()).pendingG == Some(JumpToTop)
  {
    var pairs := ConfigBindings(Config.DefaultKeymap());
    assert forall j :: 11 < j < |pairs| ==> pairs[j].0 != "gg";
    LastConfiguredGSequence(pairs, 11);
  }
}
