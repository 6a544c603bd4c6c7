/** The keyboard shortcuts (src/components/KeyboardShortcuts.tsx): a window-wide key
    handler over one flag, whether the help overlay is shown, plus the `n` shortcut that
    asks the page for a new task. */
module KeyboardShortcuts {

  /** What a key event was aimed at: the handler only tells text inputs and text areas
      apart from everything else. */
  datatype Target = InputElement | TextAreaElement | OtherElement

  datatype KeyEvent = KeyEvent(key: string, ctrlKey: bool, metaKey: bool, target: Target)

  /** Keys typed into a text field are the field's, not shortcuts. */
  predicate Typing(e: KeyEvent) {
    e.target == InputElement || e.target == TextAreaElement
  }

  /** `?` always, `/` only without ctrl or meta. */
  predicate HelpKey(e: KeyEvent) {
    e.key == "?" || (e.key == "/" && !e.ctrlKey && !e.metaKey)
  }

  predicate NewTaskKey(e: KeyEvent) {
    e.key == "n" || e.key == "N"
  }

  /** What one key press did besides changing the flag. */
  datatype Effect = Effect(newTaskCalled: bool, defaultPrevented: bool)

  class Shortcuts {
    var showHelp: bool

    constructor()
      ensures !showHelp
    {
      showHelp := false;
    }

    /** The overlay renders exactly while help is shown. */
    predicate Renders()
      reads this
    {
      showHelp
    }

    /** `handleKeyDown`. A key typed into a text field does nothing at all. Otherwise a
        help key flips the overlay, `n` or `N` calls `onNewTask` once and leaves the
        overlay alone, and Escape hides it; the browser's default is suppressed for the
        help and new-task keys only. */
    method HandleKeyDown(e: KeyEvent) returns (effect: Effect)
      modifies this
      ensures Typing(e) ==> showHelp == old(showHelp) && effect == Effect(false, false)
      ensures !Typing(e) ==> effect.newTaskCalled == NewTaskKey(e)
      ensures !Typing(e) ==> effect.defaultPrevented == (HelpKey(e) || NewTaskKey(e))
      ensures !Typing(e) && HelpKey(e) ==> showHelp == !old(showHelp)
      ensures !Typing(e) && e.key == "Escape" ==> !showHelp
      ensures !Typing(e) && !HelpKey(e) && e.key != "Escape" ==> showHelp == old(showHelp)
    {
      effect := Effect(false, false);
      if Typing(e) {
        return;
      }
      if HelpKey(e) {
        effect := effect.(defaultPrevented := true);
        showHelp := !showHelp;
      }
      if NewTaskKey(e) {
        effect := Effect(true, true);
      }
      if e.key == "Escape" {
        showHelp := false;
      }
    }

    /** A click on the dimmed backdrop hides the overlay. */
    method OverlayClick()
      modifies this
      ensures !showHelp && !Renders()
    {
      showHelp := false;
    }
  }

  /** The keys are disjoint: no key both toggles help and asks for a new task, and
      Escape is neither, so each press has at most one of the three effects. */
  lemma KeysDisjoint(e: KeyEvent)
    ensures !(HelpKey(e) && NewTaskKey(e))
    ensures e.key == "Escape" ==> !HelpKey(e) && !NewTaskKey(e)
  {
  }

  /** Ctrl and meta matter only for `/`: `?` and `n` work with either held. */
  lemma ModifiersOnlyBlockSlash(e: KeyEvent)
    requires e.ctrlKey || e.metaKey
    ensures HelpKey(e) <==> e.key == "?"
    ensures NewTaskKey(e) <==> NewTaskKey(e.(ctrlKey := false, metaKey := false))
  {
  }
}
