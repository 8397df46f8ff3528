/**
 * The title-page editing shell: the selected element class and styles, and
 * the Enter and Tab handlers of the title-page editor. There is no suggestion
 * list here, and Tab is swallowed without changing anything. The title-page
 * editor's extensions leave out the page node its document schema names, so
 * the handlers are modelled as if that editor could be built.
 */
module TitlePageAndSidebar {
  import opened Wrappers
  import opened Enums
  import opened Extensions
  import opened EditorUtils
  import opened Project
  import opened EditorCore
  import Shell = ScreenplayAndSidebars

  /**
   * Enter on the title page: an empty element becomes an "other" element and
   * the key is handled; before the end of the text the host splits the
   * element; at the end a new element is inserted, picked as in the
   * screenplay shell.
   */
  function TitleEnterPolicy(cls: string, nodeSize: nat, nodePos: nat): (e: KeyEffect)
  {
    if nodeSize == 0 then Coerce(Other.Name(), true)
    else if nodePos < nodeSize then DefaultSplit
    else InsertAfter(Shell.NextElementClass(cls, nodePos))
  }

  /** The title-page editor's key handler: only Enter has a policy. */
  function TitleKeyDownEffect(key: Key, cls: string, text: string, nodePos: nat): (e: KeyEffect)
    ensures key != Enter ==> e == Pass
  {
    if key == Enter then TitleEnterPolicy(cls, |text|, nodePos) else Pass
  }

  /**
   * The title-page Enter by cases: an empty element is coerced to "other"
   * and the key handled, a caret before the end splits, a caret at the end
   * inserts dialogue after character or parenthetical and action after
   * anything else. Only the split leaves the key to the host.
   */
  lemma TitleEnterCases(cls: string, nodeSize: nat, nodePos: nat)
    requires nodePos <= nodeSize
    ensures var e := TitleEnterPolicy(cls, nodeSize, nodePos);
      && (nodeSize == 0 <==> e == Coerce("other", true))
      && (0 < nodeSize && nodePos < nodeSize <==> e == DefaultSplit)
      && (0 < nodeSize && nodePos == nodeSize ==>
            e == InsertAfter(if cls == "character" || cls == "parenthetical" then "dialogue" else "action"))
      && (e.Handled() <==> e != DefaultSplit)
  {
  }

  /**
   * Without suggestions, the title page decides Enter as the screenplay shell
   * does, except on an empty element: there it picks "other" and handles the
   * key where the screenplay shell picks "action" and does not.
   */
  lemma TitleEnterAgreesWithShell(cls: string, nodeSize: nat, nodePos: nat)
    ensures var mine := TitleEnterPolicy(cls, nodeSize, nodePos);
      var theirs := Shell.EnterPolicy(false, cls, nodeSize, nodePos);
      && (nodeSize == 0 ==> mine == Coerce("other", true) && theirs == Coerce("action", false))
      && (nodeSize != 0 ==> mine == theirs)
  {
  }

  /** The title-page shell's state, around its editor and its project. */
  class TitlePageSession {
    var selectedStyles: Style
    var selectedElement: string
    const editor: Editor
    const project: ProjectContext

    predicate Valid()
      reads this, editor, project
    {
      editor.Valid() && project.Valid()
    }

    constructor(editor: Editor, project: ProjectContext)
      requires editor.Valid() && project.Valid()
      ensures Valid()
      ensures this.editor == editor && this.project == project
      ensures selectedStyles == StyleNone && selectedElement == Other.Name()
    {
      this.editor := editor;
      this.project := project;
      selectedStyles := StyleNone;
      selectedElement := Other.Name();
    }

    function EffectOf(key: Key): KeyEffect
      reads this, editor, project
      requires Valid()
    {
      TitleKeyDownEffect(key, editor.Current().cls, TextOf(editor.Current()), editor.cursor.offset)
    }

    /** Selects an element class, and applies it to the caret's element when asked to. */
    method SetActiveElement(element: string, applyStyle: bool)
      requires Valid()
      modifies this, editor
      ensures Valid()
      ensures selectedElement == element
      ensures applyStyle ==> editor.pages == SetClass(old(editor.pages), old(editor.cursor).page, old(editor.cursor).index, element)
      ensures !applyStyle ==> editor.pages == old(editor.pages)
      ensures editor.cursor == old(editor.cursor) && editor.storedMarks == old(editor.storedMarks)
      ensures editor.replacements == old(editor.replacements)
      ensures selectedStyles == old(selectedStyles)
    {
      selectedElement := element;
      if applyStyle {
        editor.ApplyElement(element);
      }
    }

    /** The title-page editor's key handler; returns whether the key was handled. */
    method HandleKeyDown(key: Key) returns (handled: bool)
      requires Valid()
      modifies this, editor
      ensures Valid()
      ensures handled == old(EffectOf(key)).Handled()
      ensures old(EffectOf(key)).Coerce? ==>
        && selectedElement == "other"
        && editor.pages == SetClass(old(editor.pages), old(editor.cursor).page, old(editor.cursor).index, "other")
        && editor.cursor == old(editor.cursor)
      ensures old(EffectOf(key)).InsertAfter? ==>
        && selectedElement == old(selectedElement)
        && editor.pages == InsertElementAt(old(editor.pages), old(editor.cursor).page, old(editor.cursor).index + 1, old(EffectOf(key)).cls)
        && editor.cursor == Cursor(old(editor.cursor).page, old(editor.cursor).index + 1, 0)
      ensures old(EffectOf(key)) in {Pass, DefaultSplit} ==>
        selectedElement == old(selectedElement) && editor.pages == old(editor.pages) && editor.cursor == old(editor.cursor)
      ensures selectedStyles == old(selectedStyles)
      ensures editor.storedMarks == old(editor.storedMarks) && editor.replacements == old(editor.replacements)
    {
      var node := editor.Current();
      var nodeSize := |TextOf(node)|;
      var nodePos := editor.cursor.offset;
      var currNode := node.cls;
      if key == Enter {
        if nodeSize == 0 {
          SetActiveElement(Other.Name(), true);
          return true;
        }
        if nodePos < nodeSize {
          return false;
        }
        var newNode := "action";
        if nodePos != 0 {
          if currNode == "character" || currNode == "parenthetical" {
            newNode := "dialogue";
          }
        }
        editor.InsertElement(newNode);
        return true;
      }
      return false;
    }

    /** The window's key handler: Tab's default is prevented and nothing else happens. */
    method PressedKeyEvent(key: Key) returns (preventDefault: bool)
      requires Valid()
      ensures preventDefault <==> key == Tab
    {
      preventDefault := key == Tab;
    }

    /**
     * The title-page editor's selection hook: the selection follows the caret's
     * element class without re-applying it, and the styles follow the marks of
     * the text just before the caret when there is such text.
     */
    method OnSelectionUpdate()
      requires Valid()
      modifies this
      ensures Valid()
      ensures selectedElement == editor.Current().cls
      ensures editor.NodeBefore().Some? ==> selectedStyles == StyleOf(MarkNames(editor.NodeBefore().value.marks))
      ensures editor.NodeBefore().Missing? ==> selectedStyles == old(selectedStyles)
    {
      selectedElement := editor.Current().cls;
      var before := editor.NodeBefore();
      if before.Some? {
        selectedStyles := GetStylesFromMarks(MarkNames(before.value.marks));
      }
    }
  }
}
