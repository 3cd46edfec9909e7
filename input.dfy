/**
 * Key events and the actions they stand for. A key is a code plus the exact
 * set of modifiers held; the built-in handler looks at the application's
 * mode, the focused panel and a pending first 'g'.
 */
module Input {
  import opened Wrappers
  import TuiApp

  datatype KeyCode =
    | Char(c: char)
    | Enter | Esc | Backspace | Tab | BackTab | Delete
    | Left | Right | Up | Down | Home | End | PageUp | PageDown | Insert
    | F(number: nat)
    | OtherKey

  /** The modifier keys held; bindings compare the whole set. */
  datatype Modifiers = Modifiers(shift: bool, control: bool, alt: bool)

  const NONE: Modifiers := Modifiers(false, false, false)
  const SHIFT: Modifiers := Modifiers(true, false, false)
  const CONTROL: Modifiers := Modifiers(false, true, false)

  datatype KeyEvent = KeyEvent(code: KeyCode, modifiers: Modifiers)

  /**
   * Everything a key can ask for: the actions of the built-in handler and
   * those the configurable keymap binds (`NextArticle` … `PrevImage`).
   * `NoAction` is the handler's `Action::None`.
   */
  datatype Action =
    | Quit | FocusLeft | FocusRight | MoveUp | MoveDown
    | ScrollHalfPageDown | ScrollHalfPageUp | ScrollPageDown | ScrollPageUp
    | JumpToTop | JumpToBottom | PendingG | Select | OpenInBrowser | Delete
    | ToggleSaved | Refresh | StartSearchForward | StartSearchBackward
    | NextMatch | PrevMatch | ToggleUnreadOnly | ExitMode
    | Confirm | Cancel | InputChar(c: char) | Backspace | NoAction
    | NextArticle | PrevArticle | ToggleRead | HistoryBack | HistoryForward
    | ToggleSelect | VisualMode | OpenImage | ViewImage | NextImage | PrevImage

  /** Actions that edit the search text or answer a prompt. */
  predicate IsPromptAction(a: Action)
  {
    a.Confirm? || a.Cancel? || a.InputChar? || a.Backspace?
  }

  /** `handle_input_mode`: keys while typing a search. */
  function HandleInputMode(key: KeyEvent): (a: Action)
    ensures key.code == KeyCode.Enter ==> a == Confirm
    ensures key.code == KeyCode.Esc ==> a == Cancel
    ensures key.code == KeyCode.Backspace ==> a == Action.Backspace
    ensures key.code.Char? ==> a == InputChar(key.code.c)
    ensures !(key.code.Enter? || key.code.Esc? || key.code.Backspace? || key.code.Char?) ==> a == NoAction
  {
    match key.code
    case Enter => Confirm
    case Esc => Cancel
    case Backspace => Action.Backspace
    case Char(c) => InputChar(c)
    case _ => NoAction
  }

  /** `handle_confirm_mode`: keys while a delete waits for confirmation; modifiers are ignored. */
  function HandleConfirmMode(key: KeyEvent): (a: Action)
    ensures a == Confirm <==> key.code in {Char('y'), Char('Y'), KeyCode.Enter}
    ensures a == Cancel <==> key.code in {Char('n'), Char('N'), KeyCode.Esc}
    ensures a == Confirm || a == Cancel || a == NoAction
  {
    if key.code == Char('y') || key.code == Char('Y') || key.code == KeyCode.Enter then Confirm
    else if key.code == Char('n') || key.code == Char('N') || key.code == KeyCode.Esc then Cancel
    else NoAction
  }

  /**
   * The normal-mode key table, tried in order: a key matches only with
   * exactly the listed modifiers; 'g' depends on a pending 'g', 'b' works
   * only in the detail panel and 'd' only in the subscriptions panel.
   */
  function NormalKey(key: KeyEvent, focus: TuiApp.Focus, pendingKey: Option<char>): Action
  {
    var k, m := key.code, key.modifiers;
    if k == Char('q') && m == NONE then Quit
    else if k == Char('c') && m == CONTROL then Quit
    else if k == Char('h') && m == NONE then FocusLeft
    else if k == Char('l') && m == NONE then FocusRight
    else if k == Left && m == NONE then FocusLeft
    else if k == Right && m == NONE then FocusRight
    else if k == Char('j') && m == NONE then MoveDown
    else if k == Char('k') && m == NONE then MoveUp
    else if k == Down && m == NONE then MoveDown
    else if k == Up && m == NONE then MoveUp
    else if k == Char('d') && m == CONTROL then ScrollHalfPageDown
    else if k == Char('u') && m == CONTROL then ScrollHalfPageUp
    else if k == Char('f') && m == CONTROL then ScrollPageDown
    else if k == Char('b') && m == CONTROL then ScrollPageUp
    else if k == Char('g') && m == NONE then (if pendingKey == Some('g') then JumpToTop else PendingG)
    else if k == Char('G') && m == SHIFT then JumpToBottom
    else if k == KeyCode.Enter && m == NONE then Select
    else if k == Char('b') && m == NONE && focus == TuiApp.ArticleDetail then OpenInBrowser
    else if k == Char('s') && m == NONE then ToggleSaved
    else if k == Char('r') && m == NONE then Refresh
    else if k == Char('d') && m == NONE && focus == TuiApp.Subscriptions then Action.Delete
    else if k == Char('/') && m == NONE then StartSearchForward
    else if k == Char('?') && m == SHIFT then StartSearchBackward
    else if k == Char('n') && m == NONE then NextMatch
    else if k == Char('N') && m == SHIFT then PrevMatch
    else if k == Char('i') && m == NONE then ToggleUnreadOnly
    else if k == KeyCode.Esc && m == NONE then ExitMode
    else NoAction
  }

  /**
   * `handle_key_event`: search input first, then the delete prompt and the
   * help overlay, then the normal table.
   */
  function HandleKeyEvent(key: KeyEvent, mode: TuiApp.Mode, focus: TuiApp.Focus, pendingKey: Option<char>): (a: Action)
    ensures TuiApp.IsInputMode(mode) ==> a == HandleInputMode(key)
    ensures !TuiApp.IsInputMode(mode) && mode.DeleteConfirm? ==> a == HandleConfirmMode(key)
    ensures mode.Help? ==> a == ExitMode
    ensures !TuiApp.IsInputMode(mode) && !mode.DeleteConfirm? && !mode.Help? ==> a == NormalKey(key, focus, pendingKey)
  {
    if TuiApp.IsInputMode(mode) then HandleInputMode(key)
    else match mode
      case DeleteConfirm(_) => HandleConfirmMode(key)
      case Help => ExitMode
      case _ => NormalKey(key, focus, pendingKey)
  }

  /** Outside the search and the prompt, no key types text or answers a prompt. */
  lemma NormalKeysNeverEdit(key: KeyEvent, focus: TuiApp.Focus, pendingKey: Option<char>)
    ensures !IsPromptAction(NormalKey(key, focus, pendingKey))
  {
  }

  /** A plain 'g' completes "gg" when one is pending and starts it otherwise. */
  lemma GPrefix(mode: TuiApp.Mode, focus: TuiApp.Focus, pendingKey: Option<char>)
    requires mode.Normal?
    ensures HandleKeyEvent(KeyEvent(Char('g'), NONE), mode, focus, pendingKey) ==
      (if pendingKey == Some('g') then JumpToTop else PendingG)
  {
  }

  /** A plain 'b' opens the browser only from the detail panel; elsewhere it does nothing. */
  lemma BrowserOnlyInDetail(mode: TuiApp.Mode, focus: TuiApp.Focus, pendingKey: Option<char>)
    requires mode.Normal?
    ensures HandleKeyEvent(KeyEvent(Char('b'), NONE), mode, focus, pendingKey) ==
      (if focus == TuiApp.ArticleDetail then OpenInBrowser else NoAction)
  {
  }

  /** A plain 'd' deletes only from the subscriptions panel; elsewhere it does nothing. */
  lemma DeleteOnlyInSubscriptions(mode: TuiApp.Mode, focus: TuiApp.Focus, pendingKey: Option<char>)
    requires mode.Normal?
    ensures HandleKeyEvent(KeyEvent(Char('d'), NONE), mode, focus, pendingKey) ==
      (if focus == TuiApp.Subscriptions then Action.Delete else NoAction)
  {
  }

  /** Modifiers must match exactly: with Alt held, or 'G' without Shift, nothing happens. */
  lemma ExactModifiers(key: KeyEvent, focus: TuiApp.Focus, pendingKey: Option<char>)
    ensures key.modifiers.alt ==> NormalKey(key, focus, pendingKey) == NoAction
    ensures NormalKey(KeyEvent(Char('G'), NONE), focus, pendingKey) == NoAction
    ensures NormalKey(KeyEvent(Char('q'), SHIFT), focus, pendingKey) == NoAction
  {
  }

  /** The batch-delete prompt has no handler of its own: keys act as in normal mode. */
  lemma BatchDeleteUsesNormalKeys(key: KeyEvent, focus: TuiApp.Focus, pendingKey: Option<char>)
    ensures HandleKeyEvent(key, TuiApp.BatchDeleteConfirm, focus, pendingKey) ==
            HandleKeyEvent(key, TuiApp.Normal, focus, pendingKey)
  {
  }
}
