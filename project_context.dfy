/**
 * The state a project shares between its editors: the save status, the
 * deferred jobs waiting to fire, the scene list and the character registry.
 * A debounced job is a member of the pending set until it fires; scheduling it
 * again while it waits coalesces with it.
 */
module Project {
  import opened Wrappers
  import opened Enums
  import opened Extensions
  import opened ScreenplayNodes
  import opened Characters

  /** The debounced jobs an editor update schedules. */
  datatype DeferredJob = ScreenplaySave | TitlePageSave | SceneUpdate | CharactersUpdate

  class ProjectContext {
    var saveStatus: SaveStatus
    var pending: set<DeferredJob>
    var scenesData: seq<SceneItem>
    var characters: CharacterMap

    predicate Valid()
      reads this
    {
      ValidMap(characters)
    }

    constructor()
      ensures Valid()
      ensures saveStatus == Saved && pending == {} && scenesData == [] && characters == EmptyCharacters
    {
      saveStatus := Saved;
      pending := {};
      scenesData := [];
      characters := EmptyCharacters;
    }

    method UpdateSaveStatus(s: SaveStatus)
      requires Valid()
      modifies this
      ensures Valid()
      ensures saveStatus == s
      ensures pending == old(pending) && scenesData == old(scenesData) && characters == old(characters)
    {
      saveStatus := s;
    }

    /** Schedules debounced jobs; a job already waiting is not duplicated. */
    method Schedule(jobs: set<DeferredJob>)
      requires Valid()
      modifies this
      ensures Valid()
      ensures pending == old(pending) + jobs
      ensures saveStatus == old(saveStatus) && scenesData == old(scenesData) && characters == old(characters)
    {
      pending := pending + jobs;
    }

    /**
     * The debounced scene update fires: the scene list is recomputed from the
     * document's elements, read in order.
     */
    method RunSceneUpdate(pages: seq<Page>)
      requires Valid() && SceneUpdate in pending
      modifies this
      ensures Valid()
      ensures scenesData == Scenes(Some(ElementNodes(pages)))
      ensures pending == old(pending) - {SceneUpdate}
      ensures saveStatus == old(saveStatus) && characters == old(characters)
    {
      scenesData := ComputeFullScenesData(Some(ElementNodes(pages)));
      pending := pending - {SceneUpdate};
    }

    method DoesCharacterExist(name: string) returns (b: bool)
      requires Valid()
      ensures b <==> name in characters.names
    {
      b := Characters.DoesCharacterExist(characters, name);
    }

    method UpsertCharacter(c: CharacterData)
      requires Valid()
      modifies this
      ensures Valid()
      ensures characters == UpsertCharacterData(old(characters), c)
      ensures saveStatus == old(saveStatus) && pending == old(pending) && scenesData == old(scenesData)
    {
      characters := UpsertCharacterData(characters, c);
    }

    method DeleteCharacter(name: string)
      requires Valid()
      modifies this
      ensures Valid()
      ensures characters == Characters.DeleteCharacter(old(characters), name)
      ensures saveStatus == old(saveStatus) && pending == old(pending) && scenesData == old(scenesData)
    {
      characters := Characters.DeleteCharacter(characters, name);
    }
  }
}
