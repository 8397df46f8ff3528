/**
 * The older single-page editor shell. It keeps its own four-state save status
 * (saved, saving, error, not saved), the selected tab as an index into its
 * tab list, the previous caret element, the suggestion list, the bold, italic
 * and underline flags shown in the sidebar, and the navigation toggle.
 */
module EditorAndSidebar {
  import opened Wrappers
  import opened Ascii
  import opened Enums
  import opened Extensions
  import opened EditorUtils
  import opened Project
  import opened EditorCore
  import Shell = ScreenplayAndSidebars

  /** This shell's save status, which has a state for edits not yet saved. */
  datatype EditorSaveStatus = StatusSaved | StatusSaving | StatusError | StatusNotSaved

  /** The sidebar's tabs, one per element class; the selected tab is an index into it. */
  const Tabs: seq<string> := ["scene", "action", "character", "dialogue", "parenthetical", "transition", "section", "note"]

  /** The position of x in s, or -1 when it is absent. */
  function IndexOf(s: seq<string>, x: string): (r: int)
    ensures -1 <= r < |s|
    ensures r == -1 <==> x !in s
    ensures r >= 0 ==> s[r] == x && x !in s[..r]
  {
    if |s| == 0 then -1
    else if s[0] == x then 0
    else
      var r := IndexOf(s[1..], x);
      if r == -1 then -1
      else
        assert s[..r + 1] == [s[0]] + s[1..][..r];
        r + 1
  }

  // ---------------------------------------------------------------- policies

  /**
   * Tab picks the next tab from the selected one, read as element kinds in
   * tab order (scene 0, action 1, character 2, dialogue 3, parenthetical 4):
   * action and character swap, parenthetical and dialogue swap, and any other
   * index selects tab 0.
   */
  function TabIndexNext(selectedTab: int): (r: nat)
    ensures r < |Tabs|
  {
    if selectedTab == 1 then 2
    else if selectedTab == 4 then 3
    else if selectedTab == 2 then 1
    else if selectedTab == 3 then 4
    else 0
  }

  /** Enter, as this shell decides it: like the screenplay shell, except that an empty element's coercion handles the key. */
  function EnterPolicy(hasSuggestions: bool, cls: string, nodeSize: nat, nodePos: nat): (e: KeyEffect)
  {
    if hasSuggestions then Swallow
    else if nodeSize == 0 then Coerce("action", true)
    else if nodePos < nodeSize then DefaultSplit
    else InsertAfter(Shell.NextElementClass(cls, nodePos))
  }

  function KeyDownEffect(key: Key, hasSuggestions: bool, cls: string, text: string, nodePos: nat): (e: KeyEffect)
    ensures key != Space && key != Enter ==> e == Pass
  {
    if key == Space then Shell.SpacePolicy(cls, text)
    else if key == Enter then EnterPolicy(hasSuggestions, cls, |text|, nodePos)
    else Pass
  }

  /** The sidebar flags of a mark list, read from the marks' class attributes. */
  function FlagsOfMarkClasses(marks: seq<Mark>): (f: MarkFlags)
  {
    var classes := seq(|marks|, i requires 0 <= i < |marks| => marks[i].CssClass());
    MarkFlags("bold" in classes, "italic" in classes, "underline" in classes)
  }

  /**
   * The suggestion list after a caret move: cleared when the caret leaves a
   * character element, then replaced by the autocompletion in a character
   * element.
   */
  function CaretSuggestions(previous: string, cls: string, text: string, offset: nat, keys: seq<string>, current: seq<string>): seq<string>
    requires offset <= |text|
  {
    var kept := if previous == "character" && cls != "character" then [] else current;
    match ProcessAutoComplete(cls, text, offset, keys)
    case Unchanged => kept
    case Replace(list) => list
  }

  /**
   * The sidebar flags after a caret move: unchanged when the caret is inside
   * the text of a character element (the handler has returned by then);
   * otherwise read from the text before the caret, else the text after it,
   * else unchanged.
   */
  function CaretMarks(cls: string, text: string, offset: nat, before: Option<TextRun>, after: Option<TextRun>, current: MarkFlags): MarkFlags
  {
    if cls == "character" && |text| > 0 && offset != |text| then current
    else if before.Some? then FlagsOfMarkClasses(before.value.marks)
    else if after.Some? then FlagsOfMarkClasses(after.value.marks)
    else current
  }

  // --------------------------------------------------------- policy lemmas

  /** On the four kinds it swaps, Tab picks the same class as the screenplay shell; on any other tab it picks "scene". */
  lemma TabAgreesWithShell(selectedTab: int)
    ensures 1 <= selectedTab <= 4 ==> Shell.TabNext(Tabs[selectedTab]) == Some(Tabs[TabIndexNext(selectedTab)])
    ensures !(1 <= selectedTab <= 4) ==> Tabs[TabIndexNext(selectedTab)] == "scene"
  {
  }

  /** The two shells' Enter policies differ only in whether an empty element's coercion handles the key. */
  lemma EnterAgreesWithShell(hasSuggestions: bool, cls: string, nodeSize: nat, nodePos: nat)
    ensures var mine := EnterPolicy(hasSuggestions, cls, nodeSize, nodePos);
      var theirs := Shell.EnterPolicy(hasSuggestions, cls, nodeSize, nodePos);
      && (theirs.Coerce? <==> mine.Coerce?)
      && (theirs.Coerce? ==> theirs == Coerce("action", false) && mine == Coerce("action", true))
      && (!theirs.Coerce? ==> mine == theirs)
  {
  }

  /** Leaving a character element clears the suggestions. */
  lemma LeavingCharacterClears(previous: string, cls: string, text: string, offset: nat, keys: seq<string>, current: seq<string>)
    requires offset <= |text| && previous == "character" && cls != "character"
    ensures CaretSuggestions(previous, cls, text, offset, keys, current) == []
  {
  }

  /**
   * In a character element the suggestions are the autocompletion's, whatever
   * was shown before; elsewhere they are kept unless the caret just left a
   * character element.
   */
  lemma CaretSuggestionsCases(previous: string, cls: string, text: string, offset: nat, keys: seq<string>, current: seq<string>)
    requires offset <= |text|
    ensures cls == "character" ==>
      CaretSuggestions(previous, cls, text, offset, keys, current) == ProcessAutoComplete(cls, text, offset, keys).list
    ensures cls != "character" && previous != "character" ==>
      CaretSuggestions(previous, cls, text, offset, keys, current) == current
  {
  }

  /**
   * Unless the caret is inside a character element's text, the flags shown
   * are exactly the marks of the run before the caret, else of the run after
   * it, else they stay.
   */
  lemma CaretMarksFromNeighbours(cls: string, text: string, offset: nat, before: Option<TextRun>, after: Option<TextRun>, current: MarkFlags)
    requires !(cls == "character" && |text| > 0 && offset != |text|)
    ensures before.Some? ==> forall m: Mark :: CaretMarks(cls, text, offset, before, after, current).Has(m) <==> m in before.value.marks
    ensures before.Missing? && after.Some? ==>
      forall m: Mark :: CaretMarks(cls, text, offset, before, after, current).Has(m) <==> m in after.value.marks
    ensures before.Missing? && after.Missing? ==> CaretMarks(cls, text, offset, before, after, current) == current
  {
    if before.Some? {
      MarkClassesAgreeWithStyle(before.value.marks);
    } else if after.Some? {
      MarkClassesAgreeWithStyle(after.value.marks);
    }
  }

  /** The flags read from class attributes are the marks present; they agree with the style mask the other shell reads. */
  lemma MarkClassesAgreeWithStyle(marks: seq<Mark>)
    ensures forall m: Mark :: FlagsOfMarkClasses(marks).Has(m) <==> m in marks
    ensures FlagsOfMarkClasses(marks) == FlagsOfStyle(StyleOf(MarkNames(marks)))
  {
    var classes := seq(|marks|, i requires 0 <= i < |marks| => marks[i].CssClass());
    var names := MarkNames(marks);
    assert classes == names;
    forall m: Mark
      ensures FlagsOfMarkClasses(marks).Has(m) <==> m in marks
    {
      if m in marks {
        var i :| 0 <= i < |marks| && marks[i] == m;
        assert classes[i] == m.CssClass();
      }
      if m.CssClass() in classes {
        var i :| 0 <= i < |classes| && classes[i] == m.CssClass();
        assert marks[i] == m;
      }
    }
  }

  // ---------------------------------------------------------------- session

  class EditorSession {
    var selectedTab: int
    var isNavigationActive: bool
    var previousElement: string
    var suggestions: seq<string>
    var marks: MarkFlags
    var saveStatus: EditorSaveStatus
    var pending: set<DeferredJob>
    const editor: Editor
    const project: ProjectContext

    predicate Valid()
      reads this, editor, project
    {
      editor.Valid() && project.Valid()
    }

    constructor(editor: Editor, project: ProjectContext)
      requires editor.Valid() && project.Valid()
      ensures Valid()
      ensures this.editor == editor && this.project == project
      ensures selectedTab == 0 && isNavigationActive && previousElement == "action" && suggestions == []
      ensures marks == NoMarks && saveStatus == StatusSaved && pending == {}
    {
      this.editor := editor;
      this.project := project;
      selectedTab := 0;
      isNavigationActive := true;
      previousElement := "action";
      suggestions := [];
      marks := NoMarks;
      saveStatus := StatusSaved;
      pending := {};
    }

    function EffectOf(key: Key): KeyEffect
      reads this, editor, project
      requires Valid()
    {
      KeyDownEffect(key, |suggestions| > 0, editor.Current().cls, TextOf(editor.Current()), editor.cursor.offset)
    }

    /** Selects the tab of a class, and applies the class to the caret's element when asked to. */
    method SetActiveTab(node: string, applyStyle: bool)
      requires Valid()
      modifies this, editor
      ensures Valid()
      ensures selectedTab == IndexOf(Tabs, node)
      ensures applyStyle ==> editor.pages == SetClass(old(editor.pages), old(editor.cursor).page, old(editor.cursor).index, node)
      ensures !applyStyle ==> editor.pages == old(editor.pages)
      ensures editor.cursor == old(editor.cursor) && editor.storedMarks == old(editor.storedMarks)
      ensures editor.replacements == old(editor.replacements)
      ensures isNavigationActive == old(isNavigationActive) && previousElement == old(previousElement)
      ensures suggestions == old(suggestions) && marks == old(marks)
      ensures saveStatus == old(saveStatus) && pending == old(pending)
    {
      selectedTab := IndexOf(Tabs, node);
      if applyStyle {
        editor.ApplyElement(node);
      }
    }

    /** The save request goes out unless the status is already saved, and the status becomes saving. */
    method StartSave() returns (sent: bool)
      requires Valid()
      modifies this
      ensures Valid()
      ensures sent <==> old(saveStatus) != StatusSaved
      ensures saveStatus == if sent then StatusSaving else old(saveStatus)
      ensures pending == old(pending) && suggestions == old(suggestions) && marks == old(marks)
      ensures selectedTab == old(selectedTab) && previousElement == old(previousElement)
      ensures isNavigationActive == old(isNavigationActive)
    {
      sent := saveStatus != StatusSaved;
      if sent {
        saveStatus := StatusSaving;
      }
    }

    /** The save response arrives: error when it failed, saved otherwise. */
    method OnSaveResponse(ok: bool)
      requires Valid()
      modifies this
      ensures Valid()
      ensures saveStatus == if ok then StatusSaved else StatusError
      ensures pending == old(pending) && suggestions == old(suggestions) && marks == old(marks)
      ensures selectedTab == old(selectedTab) && previousElement == old(previousElement)
      ensures isNavigationActive == old(isNavigationActive)
    {
      saveStatus := if ok then StatusSaved else StatusError;
    }

    /** A whole save: nothing when already saved, else saving and then error or saved by the response. */
    method Save(ok: bool)
      requires Valid()
      modifies this
      ensures Valid()
      ensures old(saveStatus) == StatusSaved ==> saveStatus == StatusSaved
      ensures old(saveStatus) != StatusSaved ==> saveStatus == if ok then StatusSaved else StatusError
      ensures pending == old(pending) && suggestions == old(suggestions) && marks == old(marks)
      ensures selectedTab == old(selectedTab) && previousElement == old(previousElement)
      ensures isNavigationActive == old(isNavigationActive)
    {
      var sent := StartSave();
      if sent {
        OnSaveResponse(ok);
      }
    }

    /** Every editor update marks the work as not saved, then schedules the scene, character and save jobs. */
    method TriggerEditorUpdate()
      requires Valid()
      modifies this
      ensures Valid()
      ensures saveStatus == StatusNotSaved
      ensures pending == old(pending) + {SceneUpdate, CharactersUpdate, ScreenplaySave}
      ensures suggestions == old(suggestions) && marks == old(marks)
      ensures selectedTab == old(selectedTab) && previousElement == old(previousElement)
      ensures isNavigationActive == old(isNavigationActive)
    {
      saveStatus := StatusNotSaved;
      pending := pending + {SceneUpdate, CharactersUpdate};
      pending := pending + {ScreenplaySave};
    }

    /**
     * The caret moved: the tab follows the caret's element class, leaving a
     * character element clears the suggestions, a character element is
     * autocompleted from the registry's names, and the sidebar flags follow
     * the marks around the caret.
     */
    method OnCaretUpdate()
      requires Valid()
      modifies this
      ensures Valid()
      ensures selectedTab == IndexOf(Tabs, editor.Current().cls)
      ensures previousElement == editor.Current().cls
      ensures suggestions == CaretSuggestions(old(previousElement), editor.Current().cls, TextOf(editor.Current()),
                                              editor.cursor.offset, project.characters.names, old(suggestions))
      ensures marks == CaretMarks(editor.Current().cls, TextOf(editor.Current()), editor.cursor.offset,
                                  editor.NodeBefore(), editor.NodeAfter(), old(marks))
      ensures saveStatus == old(saveStatus) && pending == old(pending) && isNavigationActive == old(isNavigationActive)
    {
      var node := editor.Current();
      var elementAnchor := node.cls;
      var text := TextOf(node);
      var cursorInNode := editor.cursor.offset;
      selectedTab := IndexOf(Tabs, elementAnchor);
      suggestions := CaretSuggestions(previousElement, elementAnchor, text, cursorInNode, project.characters.names, suggestions);
      previousElement := elementAnchor;
      marks := CaretMarks(elementAnchor, text, cursorInNode, editor.NodeBefore(), editor.NodeAfter(), marks);
    }

    /** The editor's key handler; returns whether the key was handled. */
    method HandleKeyDown(key: Key) returns (handled: bool)
      requires Valid()
      modifies this, editor
      ensures Valid()
      ensures handled == old(EffectOf(key)).Handled()
      ensures old(EffectOf(key)).Coerce? ==>
        && selectedTab == IndexOf(Tabs, old(EffectOf(key)).cls)
        && editor.pages == SetClass(old(editor.pages), old(editor.cursor).page, old(editor.cursor).index, old(EffectOf(key)).cls)
        && editor.cursor == old(editor.cursor)
      ensures old(EffectOf(key)).InsertAfter? ==>
        && selectedTab == old(selectedTab)
        && editor.pages == InsertElementAt(old(editor.pages), old(editor.cursor).page, old(editor.cursor).index + 1, old(EffectOf(key)).cls)
        && editor.cursor == Cursor(old(editor.cursor).page, old(editor.cursor).index + 1, 0)
      ensures old(EffectOf(key)) in {Pass, Swallow, DefaultSplit} ==>
        selectedTab == old(selectedTab) && editor.pages == old(editor.pages) && editor.cursor == old(editor.cursor)
      ensures suggestions == old(suggestions) && marks == old(marks) && previousElement == old(previousElement)
      ensures saveStatus == old(saveStatus) && pending == old(pending) && isNavigationActive == old(isNavigationActive)
      ensures editor.storedMarks == old(editor.storedMarks) && editor.replacements == old(editor.replacements)
    {
      var node := editor.Current();
      var nodeSize := |TextOf(node)|;
      var nodePos := editor.cursor.offset;
      var currNode := node.cls;
      handled := false;
      if key == Space {
        if currNode == "action" && Shell.StartsSceneHeading(TextOf(node)) {
          SetActiveTab("scene", true);
        }
      } else if key == Enter {
        if |suggestions| > 0 {
          return true;
        }
        if nodeSize == 0 {
          SetActiveTab("action", true);
          return true;
        }
        if nodePos < nodeSize {
          return false;
        }
        var newNode := "action";
        if nodePos != 0 {
          if currNode == "character" || currNode == "parenthetical" {
            newNode := "dialogue";
          }
        }
        editor.InsertElement(newNode);
        return true;
      }
    }

    /**
     * The window's key handler: Tab moves to the partner tab, Ctrl+S saves
     * (saveOk is the save response), Ctrl+X toggles the navigation panel and
     * Escape clears the suggestions.
     */
    method PressedKeyEvent(key: Key, saveOk: bool)
      requires Valid()
      modifies this, editor
      ensures Valid()
      ensures key == Tab ==>
        && selectedTab == TabIndexNext(old(selectedTab))
        && editor.pages == SetClass(old(editor.pages), old(editor.cursor).page, old(editor.cursor).index, Tabs[selectedTab])
      ensures key != Tab ==> selectedTab == old(selectedTab) && editor.pages == old(editor.pages)
      ensures key == CtrlS && old(saveStatus) != StatusSaved ==> saveStatus == if saveOk then StatusSaved else StatusError
      ensures key != CtrlS || old(saveStatus) == StatusSaved ==> saveStatus == old(saveStatus)
      ensures isNavigationActive == (if key == CtrlX then !old(isNavigationActive) else old(isNavigationActive))
      ensures suggestions == (if key == Escape then [] else old(suggestions))
      ensures marks == old(marks) && pending == old(pending) && previousElement == old(previousElement)
      ensures editor.cursor == old(editor.cursor) && editor.storedMarks == old(editor.storedMarks)
      ensures editor.replacements == old(editor.replacements)
    {
      if key == Tab {
        var idx := TabIndexNext(selectedTab);
        SetActiveTab(Tabs[idx], true);
        assert IndexOf(Tabs, Tabs[idx]) == idx;
      }
      if key == CtrlS {
        Save(saveOk);
      }
      if key == CtrlX {
        isNavigationActive := !isNavigationActive;
      }
      if key == Escape {
        suggestions := [];
      }
    }

    /** Scrolling hides the suggestions. */
    method OnScroll()
      requires Valid()
      modifies this
      ensures Valid()
      ensures suggestions == []
      ensures marks == old(marks) && selectedTab == old(selectedTab) && saveStatus == old(saveStatus)
      ensures pending == old(pending) && previousElement == old(previousElement)
      ensures isNavigationActive == old(isNavigationActive)
    {
      if |suggestions| > 0 {
        suggestions := [];
      }
    }

    /** The sidebar's mark buttons: the editor's stored mark and the shown flag flip together. */
    method ToggleMark(m: Mark)
      requires Valid()
      modifies this, editor
      ensures Valid()
      ensures editor.storedMarks == EditorUtils.ApplyMarkToggle(old(editor.storedMarks), BitOf(m))
      ensures marks == EditorUtils.ApplyMarkToggle(old(marks), BitOf(m))
      ensures editor.pages == old(editor.pages) && editor.cursor == old(editor.cursor)
      ensures editor.replacements == old(editor.replacements)
      ensures suggestions == old(suggestions) && selectedTab == old(selectedTab) && saveStatus == old(saveStatus)
      ensures pending == old(pending) && previousElement == old(previousElement)
      ensures isNavigationActive == old(isNavigationActive)
    {
      editor.ApplyMarkToggle(BitOf(m));
      match m
      case Bold => marks := marks.(bold := !marks.bold);
      case Italic => marks := marks.(italic := !marks.italic);
      case Underline => marks := marks.(underline := !marks.underline);
    }
  }

  /** A toggle flips exactly the flag of its mark and keeps the shown flags in step with the editor's. */
  lemma ToggleKeepsFlagsInStep(shown: MarkFlags, stored: MarkFlags, m: Mark)
    requires shown == stored
    ensures EditorUtils.ApplyMarkToggle(shown, BitOf(m)) == EditorUtils.ApplyMarkToggle(stored, BitOf(m))
    ensures forall n: Mark :: EditorUtils.ApplyMarkToggle(shown, BitOf(m)).Has(n) != shown.Has(n) <==> n == m
  {
  }
}
