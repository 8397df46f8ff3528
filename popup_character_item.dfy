/**
 * The character popup: creating a character, editing one in place, and the
 * two-phase rename. A rename to a free name is first proposed, with the old
 * name's occurrence count shown as a warning, and only the confirmation
 * rewrites the registry. A name already taken raises an error instead. While
 * the warning or the error is shown the form cannot be submitted.
 */
module PopupCharacterItem {
  import opened Wrappers
  import opened Ascii
  import opened Enums
  import opened Extensions
  import opened ScreenplayNodes
  import opened ScreenplayJson
  import opened Project
  import opened EditorCore
  import Characters

  /** The registry after a confirmed rename: the old entry removed, then the new record stored. */
  function Renamed(m: Characters.CharacterMap, oldName: string, c: Characters.CharacterData): (r: Characters.CharacterMap)
    requires Characters.ValidMap(m)
    ensures Characters.ValidMap(r)
  {
    Characters.UpsertCharacterData(Characters.DeleteCharacter(m, oldName), c)
  }

  /**
   * A rename to a free name moves the entry: the new name holds the new
   * record, the old name is gone, every other entry is untouched, and the
   * number of characters is the same.
   */
  lemma RenameMovesEntry(m: Characters.CharacterMap, oldName: string, c: Characters.CharacterData)
    requires Characters.ValidMap(m) && oldName in m.data && c.name !in m.data
    ensures var r := Renamed(m, oldName, c);
      && c.name in r.data && r.data[c.name] == c
      && oldName !in r.data
      && (forall n :: n != oldName && n != c.name ==> (n in r.data <==> n in m.data))
      && (forall n :: n in m.data && n != oldName ==> r.data[n] == m.data[n])
      && |r.names| == |m.names|
  {
    var d := Characters.DeleteCharacter(m, oldName);
    assert oldName != c.name;
    NamesCount(m);
    NamesCount(d);
    assert m.data.Keys == d.data.Keys + {oldName};
  }

  /** In a valid registry the key list is as long as the map has keys. */
  lemma NamesCount(m: Characters.CharacterMap)
    requires Characters.ValidMap(m)
    ensures |m.names| == |m.data.Keys|
  {
    DistinctCard(m.names);
    assert (set n | n in m.names) == m.data.Keys;
  }

  /** A list without repetitions has as many elements as its set. */
  lemma {:induction false} DistinctCard(s: seq<string>)
    requires Characters.Distinct(s)
    ensures |s| == |set n | n in s|
  {
    if |s| > 0 {
      var init := s[..|s| - 1];
      assert Characters.Distinct(init);
      DistinctCard(init);
      assert s == init + [s[|s| - 1]];
      assert (set n | n in s) == (set n | n in init) + {s[|s| - 1]};
      assert s[|s| - 1] !in init;
    }
  }

  class CharacterPopup {
    /** The character being edited; none when the popup creates one. */
    const character: Option<Characters.CharacterData>
    const project: ProjectContext
    /** The screenplay editor, whose document a confirmed rename rewrites. */
    const editor: Editor
    var newNameWarning: bool
    var takenNameError: bool
    var nameOccurrences: nat
    var newName: string
    var newGender: Characters.CharacterGender
    var newSynopsis: string
    var closed: bool

    predicate Valid()
      reads this, project, editor
    {
      project.Valid() && editor.Valid() && (newNameWarning ==> character.Some?)
    }

    /** The form's submit button is enabled. */
    predicate CanSubmit()
      reads this
    {
      !newNameWarning && !takenNameError
    }

    constructor(character: Option<Characters.CharacterData>, project: ProjectContext, editor: Editor)
      requires project.Valid() && editor.Valid()
      ensures Valid()
      ensures this.character == character && this.project == project && this.editor == editor
      ensures !newNameWarning && !takenNameError && nameOccurrences == 0
      ensures newName == "" && newGender == Characters.Female && newSynopsis == "" && !closed
    {
      this.character := character;
      this.project := project;
      this.editor := editor;
      newNameWarning := false;
      takenNameError := false;
      nameOccurrences := 0;
      newName := "";
      newGender := Characters.Female;
      newSynopsis := "";
      closed := false;
    }

    /**
     * Create: a name already in the registry (looked up as typed) raises the
     * error and changes nothing else; otherwise the project is marked as
     * saving, the record is stored under the upper-cased name as persistent,
     * and the popup closes.
     */
    method OnCreate(name: string, gender: Characters.CharacterGender, synopsis: string)
      requires Valid() && CanSubmit() && !closed
      modifies this, project
      ensures Valid()
      ensures name in old(project.characters.names) ==>
        && takenNameError && !closed
        && project.characters == old(project.characters) && project.saveStatus == old(project.saveStatus)
      ensures name !in old(project.characters.names) ==>
        && !takenNameError && closed
        && project.saveStatus == Saving
        && project.characters == Characters.UpsertCharacterData(old(project.characters),
                                   Characters.CharacterData(Upper(name), gender, synopsis, true))
      ensures newNameWarning == old(newNameWarning) && nameOccurrences == old(nameOccurrences)
      ensures newName == old(newName) && newGender == old(newGender) && newSynopsis == old(newSynopsis)
      ensures project.pending == old(project.pending) && project.scenesData == old(project.scenesData)
    {
      var doesExist := project.DoesCharacterExist(name);
      if doesExist {
        takenNameError := true;
        return;
      }
      project.UpdateSaveStatus(Saving);
      project.UpsertCharacter(Characters.CharacterData(Upper(name), gender, synopsis, true));
      closed := true;
    }

    /**
     * Edit: the typed values are kept for display. A name whose upper-cased
     * form differs from the stored name is a rename: taken (looked up as
     * typed) it raises the error; free, it records how often the old name
     * occurs in the screenplay editor's document, counted over its elements,
     * and raises the warning, whatever that count, without touching the
     * registry. The same name updates the gender and synopsis in place, marks
     * the project as saving and closes the popup.
     */
    method OnEdit(name: string, gender: Characters.CharacterGender, synopsis: string)
      requires Valid() && character.Some? && CanSubmit() && !closed
      modifies this, project
      ensures Valid()
      ensures newName == Upper(name) && newGender == gender && newSynopsis == synopsis
      ensures Upper(name) != character.value.name && name in old(project.characters.names) ==>
        && takenNameError && !newNameWarning && !closed && nameOccurrences == old(nameOccurrences)
        && project.characters == old(project.characters) && project.saveStatus == old(project.saveStatus)
      ensures Upper(name) != character.value.name && name !in old(project.characters.names) ==>
        && newNameWarning && !takenNameError && !closed
        && nameOccurrences == Occurrences(ElementNodes(editor.pages), character.value.name)
        && project.characters == old(project.characters) && project.saveStatus == old(project.saveStatus)
      ensures Upper(name) == character.value.name ==>
        && !newNameWarning && !takenNameError && closed && nameOccurrences == old(nameOccurrences)
        && project.saveStatus == Saving
        && project.characters == Characters.UpsertCharacterData(old(project.characters),
                                   Characters.CharacterData(character.value.name, gender, synopsis, true))
      ensures project.pending == old(project.pending) && project.scenesData == old(project.scenesData)
    {
      newName := Upper(name);
      newGender := gender;
      newSynopsis := synopsis;
      if Upper(name) != character.value.name {
        var doesExist := project.DoesCharacterExist(name);
        if doesExist {
          takenNameError := true;
          return;
        }
        nameOccurrences := CountOccurrences(ElementNodes(editor.pages), character.value.name);
        newNameWarning := true;
        return;
      }
      project.UpdateSaveStatus(Saving);
      project.UpsertCharacter(Characters.CharacterData(character.value.name, gender, synopsis, true));
      closed := true;
    }

    /**
     * Confirming the rename: the editor records the replacement of the old
     * name by the new one (edited and caret are the document it produces), the
     * old entry is deleted, the project is marked as saving, the new record is
     * stored, and the popup closes.
     */
    method OnNewNameConfirm(edited: seq<Page>, caret: Cursor)
      requires Valid() && newNameWarning && !closed && ValidPages(edited) && CursorIn(edited, caret)
      modifies this, project, editor
      ensures Valid()
      ensures editor.replacements == old(editor.replacements) + [Replacement(character.value.name, newName)]
      ensures editor.pages == edited && editor.cursor == caret && editor.storedMarks == old(editor.storedMarks)
      ensures project.characters == Renamed(old(project.characters), character.value.name,
                                            Characters.CharacterData(newName, newGender, newSynopsis, true))
      ensures project.saveStatus == Saving && closed
      ensures newNameWarning && takenNameError == old(takenNameError) && nameOccurrences == old(nameOccurrences)
      ensures newName == old(newName) && newGender == old(newGender) && newSynopsis == old(newSynopsis)
      ensures project.pending == old(project.pending) && project.scenesData == old(project.scenesData)
    {
      editor.ReplaceOccurrences(character.value.name, newName, edited, caret);
      project.DeleteCharacter(character.value.name);
      project.UpdateSaveStatus(Saving);
      project.UpsertCharacter(Characters.CharacterData(newName, newGender, newSynopsis, true));
      closed := true;
    }

    /** Declining the rename hides the warning and changes nothing else. */
    method Cancel()
      requires Valid()
      modifies this
      ensures Valid()
      ensures !newNameWarning
      ensures takenNameError == old(takenNameError) && nameOccurrences == old(nameOccurrences) && closed == old(closed)
      ensures newName == old(newName) && newGender == old(newGender) && newSynopsis == old(newSynopsis)
    {
      newNameWarning := false;
    }

    /**
     * Edit as written: the old name's occurrences are counted over the
     * top-level nodes of the screenplay editor's JSON, which are its pages, so
     * a rename to a free name throws there (thrown) after the typed values
     * are kept and before the warning is raised. A taken name and the same
     * name behave as in OnEdit.
     */
    method OnEditAsWritten(name: string, gender: Characters.CharacterGender, synopsis: string) returns (thrown: bool)
      requires Valid() && character.Some? && CanSubmit() && !closed
      modifies this, project
      ensures Valid()
      ensures thrown <==> Upper(name) != character.value.name && name !in old(project.characters.names)
      ensures newName == Upper(name) && newGender == gender && newSynopsis == synopsis
      ensures thrown ==>
        && !newNameWarning && !takenNameError && !closed && nameOccurrences == old(nameOccurrences)
        && project.characters == old(project.characters) && project.saveStatus == old(project.saveStatus)
      ensures Upper(name) != character.value.name && name in old(project.characters.names) ==>
        && takenNameError && !newNameWarning && !closed
        && project.characters == old(project.characters) && project.saveStatus == old(project.saveStatus)
      ensures Upper(name) == character.value.name ==>
        && !newNameWarning && closed && project.saveStatus == Saving
        && project.characters == Characters.UpsertCharacterData(old(project.characters),
                                   Characters.CharacterData(character.value.name, gender, synopsis, true))
      ensures project.pending == old(project.pending) && project.scenesData == old(project.scenesData)
    {
      thrown := false;
      newName := Upper(name);
      newGender := gender;
      newSynopsis := synopsis;
      if Upper(name) != character.value.name {
        var doesExist := project.DoesCharacterExist(name);
        if doesExist {
          takenNameError := true;
          return;
        }
        PagedCountThrows(editor.pages, character.value.name);
        var count := CountOccurrencesAsWritten(DocumentJson(editor.pages), character.value.name);
        if count.Missing? {
          thrown := true;
          return;
        }
        // the count and the warning that follow it are never reached
        assert false;
      }
      project.UpdateSaveStatus(Saving);
      project.UpsertCharacter(Characters.CharacterData(character.value.name, gender, synopsis, true));
      closed := true;
    }

    /** Typing in the name field hides the error; the field is disabled while the warning is shown. */
    method OnNameChange()
      requires Valid() && !newNameWarning
      modifies this
      ensures Valid()
      ensures !takenNameError && CanSubmit()
      ensures newNameWarning == old(newNameWarning) && nameOccurrences == old(nameOccurrences) && closed == old(closed)
      ensures newName == old(newName) && newGender == old(newGender) && newSynopsis == old(newSynopsis)
    {
      takenNameError := false;
    }
  }
}
