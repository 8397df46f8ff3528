# scriptio screenplay core, modelled in Dafny

This project models the document logic of the scriptio screenplay editor. It covers:

- **The element vocabulary and document schema.** A screenplay is one or more pages, a page is one or more elements, and an element is a class and zero or more text runs. The nine element kinds, the four title-page kinds, the 3-bit style mask and the save modes are here too.
- **The derived views.** Flattening node text, the case-insensitive occurrence counter, the bounded scene preview, and the scene index with its character offsets.
- **The editor commands and hooks.** Set an element's class, insert an element, insert a page, toggle marks, and the update and selection hooks that drive the save status and the sidebars.
- **The three editing shells.** The screenplay shell, the older single-page editor shell and the title-page shell each get their key policies: Space, Enter, Tab, F2, Escape, Ctrl+S, Ctrl+X and scroll. Character-name autocompletion belongs to the same layer.
- **The character popup.** Create, edit in place, and the two-phase rename: propose, then confirm or decline. It works over a registry that maps each name to its record.
- **The PDF export loop.** It turns classified nodes into a list of styled rows.

Each key or save decision is a pure function. Each stateful component is a class with `modifies` clauses, and its methods are proved against those functions. The loops of the source stay loops and are proved equal to recursive specification functions. The properties themselves are proved as lemmas over those functions.

Modules follow the source files:

| module | file |
|---|---|
| `Wrappers` | the Option type |
| `Ascii` | ASCII `toUpperCase`/`toLowerCase` |
| `Enums` | `enums.ts` |
| `Extensions` | `extensions.ts` |
| `ScreenplayNodes` | `screenplay.ts` |
| `ScreenplayJson` | `screenplay.ts` as written, over the editor's JSON tree |
| `EditorUtils` | `utils.ts`, and its duplicate in `editor.ts` |
| `Characters` | the character registry |
| `Project` | the project state the editors share |
| `EditorCore` | `editor.ts` |
| `ScreenplayAndSidebars`, `EditorAndSidebar`, `TitlePageAndSidebar`, `PopupCharacterItem` | the components of the same names |
| `PdfExport` | `pdf.ts` |

Modelling choices:

- **Element classes are strings.** This is how the schema stores them. The closed `ScreenplayElement` datatype, with its name and parse round trip, stands for the vocabulary.
- **The derived views work on a flat list of nodes.** Each node carries its classified type tag, its class attribute and optional inline content. Scene indexing, occurrence counting and PDF export read the type tag, as `getNodeData` does. The PDF exporter's look at the next node reads the class attribute, as the source does.
- **The flat list is the older flat document.** There, the top-level nodes were the elements. The screenplay editor's document is now pages of elements, and the source still walks only its top level, which is the pages. `ScreenplayJson` models that walk as written: the occurrence counter throws, and the scene index is always empty (see "## Findings"). The rest of the model reads the document's elements in order, each classified by its class (`ScreenplayNodes.ElementNodes`). The popup's count and the deferred scene update use that reading.
- **The caret is collapsed,** written as (page, element, offset).
- **A debounced job is a member of a pending set.** Scheduling the job again coalesces with it.
- **Results that come from outside are inputs.** A save response is a boolean input. A document the editor produces by a command this model does not compute is also an input.
- **The character registry stands in for `characters.ts`.** That file is not part of this model. Lookup, insert-or-overwrite and removal are plain map operations, with the keys kept in insertion order for `Object.keys`. That is the order `Object.keys` reports for names that do not look like array indices; names such as "7" or "42" are not treated apart (see "## Left out"). No case folding is applied to keys.

Behaviour of the code the model keeps as written:

- Enter on an empty element returns `false` in the screenplay shell and `true` in the older shell. `EditorAndSidebar.EnterAgreesWithShell` states the difference.
- The rename flow to a free name asks for confirmation whatever the old name's count is, 0 included; the count only fills the warning text. As written, the count throws before the question is asked (see "## Findings").
- In the screenplay editor's selection hook, the call to autocompletion is commented out, so only the older shell autocompletes.

## Model

| member | source | states |
|---|---|---|
| Enums.ParseScreenplayElement | src/lib/utils/enums.ts:75-85 | a class name reads back as kind k exactly when it is k's name |
| Enums.ParseTitlePageElement | src/lib/utils/enums.ts:67-72 | a class name reads back as title-page kind k exactly when it is k's name |
| Enums.ScreenplayElementsClosed | src/lib/utils/enums.ts:75-85 | every screenplay kind is one of nine distinct listed values, None among them |
| Enums.TitlePageElementsClosed | src/lib/utils/enums.ts:67-72 | every title-page kind is Title, Author, Contact or Other, listed once each |
| Enums.ScreenplayNamesInjective | src/lib/utils/enums.ts:74-85 | distinct kinds carry distinct class names |
| Enums.SaveStatusClosed | src/lib/utils/enums.ts:43-47 | save status has exactly the three states Saving, Saved, Error |
| Enums.SaveModeBothIsUnion | src/lib/utils/enums.ts:49-53 | Both equals Local or Cloud, that is 3, and holds both bits |
| Enums.StyleOfFlags | src/lib/utils/enums.ts:59-64 | a union of style flags is below 8 and has each bit exactly when its flag is chosen |
| Enums.StyleFlagsAreBits | src/lib/utils/enums.ts:59-64 | Bold, Italic, Underline are pairwise disjoint single bits whose union is 7; None holds none |
| Ascii.Upper | src/lib/editor/screenplay.ts:112 | upper-casing keeps the length and maps each character by the ASCII rule |
| Ascii.Lower | src/lib/editor/utils.ts:160-163 | lower-casing keeps the length and maps each character by the ASCII rule |
| Ascii.UpperIsUpperCase | src/lib/editor/screenplay.ts:112 | an upper-cased string has no lower-case letter left |
| Ascii.LowerOfUpper | src/lib/editor/utils.ts:160-163 | folding forgets a previous upper-casing |
| Extensions.CreateElement | src/lib/editor/extensions.ts:40-46 | an element without a class gets "action"; a given class is kept; the content is kept |
| Extensions.ParseElement | src/lib/editor/extensions.ts:48-57 | parsing reads the DOM class attribute verbatim |
| Extensions.RenderElement | src/lib/editor/extensions.ts:59-61 | rendering emits a p tag carrying the element's class |
| Extensions.ElementRoundTrip | src/lib/editor/extensions.ts:48-61 | rendering then parsing gives the element back |
| Extensions.RenderMark | src/lib/editor/extensions.ts:64-89 | every mark renders to a span |
| Extensions.ParseMark | src/lib/editor/extensions.ts:64-89 | a tag parses as mark m exactly when it is the tag m renders to |
| Extensions.MarkRoundTrip | src/lib/editor/extensions.ts:64-89 | bold, italic and underline parse back from span.bold, span.italic, span.underline |
| ScreenplayNodes.TypeOfTag | src/lib/editor/screenplay.ts:50-59 | the tag "Page" is the page marker, and a kind's name is that kind |
| ScreenplayNodes.GetNodeFlattenContent | src/lib/editor/screenplay.ts:39-48 | the loop yields the in-order concatenation of the runs' texts, "" for missing content |
| ScreenplayNodes.FlattenAppend | src/lib/editor/screenplay.ts:39-48 | flattening distributes over concatenation of run lists |
| ScreenplayNodes.FlattenLength | src/lib/editor/screenplay.ts:39-48 | the flattened text is as long as all runs together |
| ScreenplayNodes.GetNodeData | src/lib/editor/screenplay.ts:50-68 | a page node has empty text and empty content; any other node keeps its type and content and has its flattened text |
| ScreenplayNodes.CountOccurrences | src/lib/editor/screenplay.ts:21-37 | the loop's count is the sum over nodes with content of the case-insensitive matches in their first run |
| ScreenplayNodes.MatchesFit | src/lib/editor/screenplay.ts:21-37 | non-overlapping matches of a non-empty word fit in the text |
| ScreenplayNodes.MatchesIffOccurs | src/lib/editor/screenplay.ts:21-37 | the count is positive exactly when the word occurs somewhere |
| ScreenplayNodes.MatchCountIgnoresCase | src/lib/editor/screenplay.ts:22 | upper-casing the text or the word does not change the count |
| ScreenplayNodes.OccurrencesAppend | src/lib/editor/screenplay.ts:26-34 | counts over two parts of a document add up |
| ScreenplayNodes.OccurrencesAtLeast | src/lib/editor/screenplay.ts:26-34 | the count is at least any one node's matches |
| ScreenplayNodes.ElementNodes | src/lib/editor/extensions.ts:8-38 | the document's elements read in order as nodes always have well-formed content |
| ScreenplayNodes.ElementNodesIndex | src/lib/editor/extensions.ts:8-38 | every element of every page has its node in the element list |
| ScreenplayNodes.ElementNodeClass | src/lib/editor/extensions.ts:8-38 | every node of the element list is some element's node |
| ScreenplayNodes.ElementNodeIsScene | src/lib/editor/screenplay.ts:103 | an element node classifies as a scene exactly when its class is "scene" |
| ScreenplayNodes.DocumentOccurrencesCountElement | src/lib/editor/screenplay.ts:21-37 | over the document's elements, each element's first-run matches are counted, so a first run holding the word makes the count positive |
| ScreenplayNodes.DocumentScenesFromSceneElements | src/lib/editor/screenplay.ts:84-127 | over the document's elements, the scene nodes are exactly the "scene" elements, and a document holding one has a scene |
| ScreenplayJson.CountOccurrencesAsWritten | src/lib/editor/screenplay.ts:21-37 | a document JSON without children makes the counter throw |
| ScreenplayJson.PagedCountThrows | src/lib/editor/screenplay.ts:26-32 | on the paged document the counter as written always throws, since the top-level nodes are pages whose first child has no text |
| ScreenplayJson.FlatCountAgrees | src/lib/editor/screenplay.ts:21-37 | on a flat document whose top-level nodes hold text, the counter as written never throws and equals the model's count |
| ScreenplayJson.PagedScenesEmpty | src/lib/editor/screenplay.ts:84-127 | on the paged document the scene index as written is always empty, since every top-level node is a page |
| ScreenplayNodes.GetScenePreview | src/lib/editor/screenplay.ts:70-82 | the loop's preview is the scan function's result |
| ScreenplayNodes.PreviewShape | src/lib/editor/screenplay.ts:70-82 | the preview is each text plus a space for the nodes before the stop, with none nodes contributing nothing; no scene lies before the stop and the text was at most 30 long before each node; it stops at the end, at a scene, or once past 30 |
| ScreenplayNodes.OffsetBefore | src/lib/editor/screenplay.ts:92-119 | the offset cursor before node i is at least 1 + 2i |
| ScreenplayNodes.ComputeFullScenesData | src/lib/editor/screenplay.ts:84-127 | the loop, with its in-place patch of the previous scene, yields exactly the scene list function of the input (so two runs agree) |
| ScreenplayNodes.OffsetGrows | src/lib/editor/screenplay.ts:98-119 | the cursor grows by at least 2 per node |
| ScreenplayNodes.SceneIndicesExact | src/lib/editor/screenplay.ts:95-117 | the indexed nodes are exactly the scene nodes, in strictly increasing order |
| ScreenplayNodes.ScenesOnePerSceneNode | src/lib/editor/screenplay.ts:92-114 | one scene per scene node in order, titled with its text upper-cased, positioned at the cursor before it, previewed from the next node |
| ScreenplayNodes.ScenesSpansChain | src/lib/editor/screenplay.ts:104-124 | each scene's nextPosition is the next scene's position; the last one gets the final cursor |
| ScreenplayNodes.ScenesPositionsIncrease | src/lib/editor/screenplay.ts:92-124 | positions are at least 1, each span is non-empty, positions strictly increase |
| EditorUtils.MarkNames | src/lib/editor/utils.ts:81 | the names are the marks' type names, in order |
| EditorUtils.GetStylesFromMarks | src/lib/editor/utils.ts:78-87 | the fold sets Bold, Italic, Underline exactly when a mark of that name is present, ignores other names, and stays below 8 |
| EditorUtils.StyleOfEmpty | src/lib/editor/utils.ts:78-87 | no mark gives None |
| EditorUtils.StyleOfSetOnly | src/lib/editor/utils.ts:78-87 | mark order and repetition do not matter |
| EditorUtils.FlagsOfStyle | src/lib/editor/utils.ts:19-23 | a mask describes mark m exactly when m's bit is set |
| EditorUtils.ApplyMarkToggle | src/lib/editor/utils.ts:19-23 | exactly the marks whose bit is set change |
| EditorUtils.ToggleInvolution | src/lib/editor/utils.ts:19-23 | toggling by the same mask twice restores the marks |
| EditorUtils.ToggleCompose | src/lib/editor/utils.ts:19-23 | two toggles are one toggle by the exclusive union of the masks |
| EditorUtils.Take | src/lib/editor/utils.ts:166 | slicing keeps a prefix of at most n, all of a shorter list |
| EditorUtils.ProcessAutoComplete | src/lib/editor/utils.ts:134-182 | nothing changes outside character elements; an empty element offers all keys uncapped; a caret before the end clears; at the end the accepted keys, at most 5; with distinct keys, an accepted key before an offered one is offered too, so the offer is the first accepted keys |
| EditorUtils.FilterSound | src/lib/editor/utils.ts:159-166 | every offered name is a registry name that differs from the typed text and starts with it, case-insensitively |
| EditorUtils.FilterComplete | src/lib/editor/utils.ts:159-166 | every accepted registry name is offered before the cap |
| EditorUtils.FilterOrdered | src/lib/editor/utils.ts:159-166 | the offered names keep registry order |
| EditorUtils.FilterFirstAccepted | src/lib/editor/utils.ts:159-166 | with distinct keys, every prefix of the filtered names holds each accepted key that comes before one of its names |
| EditorUtils.AutoCompleteOffers | src/lib/editor/utils.ts:151-166 | at the end of a non-empty character element, the offer is an in-order subsequence of the keys, complete when under 5, and with distinct keys made of the earliest accepted keys |
| EditorUtils.DefaultsValid | src/lib/editor/utils.ts:93-108 | the default element is an action, a default page holds one, a default screenplay holds two default pages, all well formed |
| Characters.DoesCharacterExist | components/popup/PopupCharacterItem.tsx:76 | a name exists exactly when it is a registry key |
| Characters.Remove | components/popup/PopupCharacterItem.tsx:141 | removal keeps exactly the other names, as a subsequence in their order |
| Characters.UpsertCharacterData | components/popup/PopupCharacterItem.tsx:82-90 | the record is stored under its name; an existing key keeps its place, a new one goes last; the registry stays consistent |
| Characters.DeleteCharacter | components/popup/PopupCharacterItem.tsx:141 | the key and its record are gone; the other keys keep their order; the registry stays consistent |
| Characters.DeleteUndoesCreate | components/popup/PopupCharacterItem.tsx:82-90 | deleting a just-created character restores the registry |
| Characters.DeleteAbsent | components/popup/PopupCharacterItem.tsx:141 | deleting an absent name changes nothing |
| Characters.UpsertLocal | components/popup/PopupCharacterItem.tsx:82-90 | upserting touches only its own key |
| Project.ProjectContext.constructor | src/context/ProjectContext.tsx:42-44 | a project starts saved, with no scenes, no characters and nothing pending |
| Project.ProjectContext.UpdateSaveStatus | src/context/ProjectContext.tsx:66-68 | only the save status changes |
| Project.ProjectContext.Schedule | src/lib/editor/utils.ts:118-132 | the pending jobs gain the scheduled ones, coalescing; nothing else changes |
| Project.ProjectContext.RunSceneUpdate | src/lib/editor/utils.ts:126-128 | the deferred scene update sets the scene list to the scenes of the document's elements and is no longer pending |
| Project.ProjectContext.DoesCharacterExist | components/popup/PopupCharacterItem.tsx:76 | the answer is whether the name is a registry key |
| Project.ProjectContext.UpsertCharacter | components/popup/PopupCharacterItem.tsx:82-90 | the registry becomes the upsert of the record; nothing else changes |
| Project.ProjectContext.DeleteCharacter | components/popup/PopupCharacterItem.tsx:141 | the registry becomes the deletion of the name; nothing else changes |
| EditorCore.OverflowBoundary | src/lib/editor/editor.ts:202-208 | ending exactly at the usable height is no overflow; one pixel more is |
| EditorCore.OverflowMonotone | src/lib/editor/editor.ts:202-208 | a taller element or a shorter page overflows no less |
| EditorCore.SetClass | src/lib/editor/editor.ts:55-57 | the element takes the class and keeps its text; every other element and the shape stay; validity is kept |
| EditorCore.InsertElementAt | src/lib/editor/editor.ts:59-65 | an empty element of the class goes at the position; the elements before and after shift around it; other pages stay |
| EditorCore.InsertPageAt | src/lib/editor/editor.ts:67-69 | one default page goes at the position, the others shift around it |
| EditorCore.RunAt | src/lib/editor/editor.ts:261 | a run is found exactly for a position inside the text, and it is a run whose span covers that position |
| EditorCore.RunAtFindsCovering | src/lib/editor/editor.ts:261 | any run whose span covers the position is the run found, so the run is unique |
| EditorCore.DocumentEnd | components/editor/screenplay/ScreenplayAndSidebars.tsx:54-55 | the "end" focus position is a valid caret at or after every valid caret of the document |
| EditorCore.Editor.constructor | src/lib/editor/editor.ts:75-77 | the editor opens the document with the caret at its end, where replacing the whole content maps it and where the shells' autofocus puts it |
| EditorCore.Editor.NodeBefore | src/lib/editor/editor.ts:261 | there is a run before the caret exactly when the offset is positive, and it is the caret element's run whose span covers the character before the caret |
| EditorCore.Editor.NodeAfter | components/editor/EditorAndSidebar.tsx:158-162 | there is a run after the caret exactly when the offset is before the end, and it is the caret element's run whose span covers the character after the caret |
| EditorCore.Editor.SetCursor | src/lib/editor/editor.ts:256-258 | only the caret moves |
| EditorCore.Editor.ApplyElement | src/lib/editor/editor.ts:55-57 | only the caret element's class changes |
| EditorCore.Editor.InsertElement | src/lib/editor/editor.ts:59-65 | an empty element of the class follows the caret's element and receives the caret |
| EditorCore.Editor.InsertPage | src/lib/editor/editor.ts:67-69 | a default page follows the caret's page and receives the caret |
| EditorCore.Editor.ApplyMarkToggle | src/lib/editor/editor.ts:20-24 | the stored marks toggle by the mask; the document stays |
| EditorCore.Editor.ReplaceOccurrences | src/lib/editor/editor.ts:71-73 | the request is logged and the document becomes the one the command produced |
| EditorCore.Editor.OnTransaction | src/lib/editor/editor.ts:221-239 | no steps, no result; otherwise the overflow test of the last element, and nothing changes |
| EditorCore.InsertElementKeepsOthers | src/lib/editor/editor.ts:59-65 | the elements before the insertion keep their index, those after shift by one |
| EditorCore.SetClassIdempotent | src/lib/editor/editor.ts:55-57 | setting a class twice is setting it once |
| EditorCore.OnScreenplayUpdate | src/lib/editor/editor.ts:242-248 | every update sets Saving and schedules the save, scene and character jobs |
| EditorCore.OnTitlePageUpdate | src/lib/editor/editor.ts:285-289 | every title-page update sets Saving and schedules the title-page save |
| ScreenplayAndSidebars.NextElementClass | components/editor/screenplay/ScreenplayAndSidebars.tsx:89-97 | dialogue exactly after a character or parenthetical with the caret past 0, else action |
| ScreenplayAndSidebars.KeyDownEffect | components/editor/screenplay/ScreenplayAndSidebars.tsx:57-104 | keys other than Space and Enter pass |
| ScreenplayAndSidebars.SceneHeadingIgnoresCase | components/editor/screenplay/ScreenplayAndSidebars.tsx:66 | the int./ext. test ignores case |
| ScreenplayAndSidebars.SpaceOnlyActionToScene | components/editor/screenplay/ScreenplayAndSidebars.tsx:64-69 | Space acts exactly on action elements opening a scene heading, and only makes them scenes |
| ScreenplayAndSidebars.EnterCases | components/editor/screenplay/ScreenplayAndSidebars.tsx:71-101 | swallowed with suggestions; empty becomes action unhandled; before the end splits; at the end inserts dialogue or action, handled |
| ScreenplayAndSidebars.TabInvolution | components/editor/screenplay/ScreenplayAndSidebars.tsx:110-126 | Tab swaps exactly the four kinds in two pairs, so two Tabs restore the kind |
| ScreenplayAndSidebars.ScreenplaySession.constructor | components/editor/screenplay/ScreenplayAndSidebars.tsx:30-34 | the shell starts with no style, action selected, no suggestions |
| ScreenplayAndSidebars.ScreenplaySession.SetActiveElement | components/editor/screenplay/ScreenplayAndSidebars.tsx:41-44 | the selection changes, and the element's class only when asked |
| ScreenplayAndSidebars.ScreenplaySession.HandleKeyDown | components/editor/screenplay/ScreenplayAndSidebars.tsx:57-104 | the result and the new document follow the Space/Enter policy |
| ScreenplayAndSidebars.ScreenplaySession.PressedKeyEvent | components/editor/screenplay/ScreenplayAndSidebars.tsx:108-142 | Tab applies the partner kind, F2 inserts a page after the caret's, Escape clears the suggestions, other keys change nothing |
| ScreenplayAndSidebars.ScreenplaySession.OnScroll | components/editor/screenplay/ScreenplayAndSidebars.tsx:166-168 | scrolling leaves no suggestions |
| ScreenplayAndSidebars.ScreenplaySession.OnSelectionUpdate | src/lib/editor/editor.ts:256-262 | the selection follows the caret's class without re-applying; styles follow the run before the caret, else stay |
| EditorAndSidebar.IndexOf | components/editor/EditorAndSidebar.tsx:249 | the first index of the value, -1 exactly when absent |
| EditorAndSidebar.TabIndexNext | components/editor/EditorAndSidebar.tsx:257-276 | Tab always selects a valid tab |
| EditorAndSidebar.KeyDownEffect | components/editor/EditorAndSidebar.tsx:198-244 | keys other than Space and Enter pass |
| EditorAndSidebar.TabAgreesWithShell | components/editor/EditorAndSidebar.tsx:257-276 | on the four swapped kinds Tab picks the screenplay shell's partner; otherwise scene |
| EditorAndSidebar.EnterAgreesWithShell | components/editor/EditorAndSidebar.tsx:210-241 | the two Enter policies differ only in whether coercing an empty element handles the key |
| EditorAndSidebar.LeavingCharacterClears | components/editor/EditorAndSidebar.tsx:117-121 | moving from a character to another kind clears the suggestions |
| EditorAndSidebar.CaretSuggestionsCases | components/editor/EditorAndSidebar.tsx:117-155 | in a character element the suggestions are the autocompletion's; elsewhere they stay unless a character element was left |
| EditorAndSidebar.CaretMarksFromNeighbours | components/editor/EditorAndSidebar.tsx:157-165 | the flags are exactly the marks of the run before, else after, else unchanged |
| EditorAndSidebar.MarkClassesAgreeWithStyle | components/editor/EditorAndSidebar.tsx:93-99 | the flags read from class attributes are the marks present, and agree with the style mask |
| EditorAndSidebar.EditorSession.constructor | components/editor/EditorAndSidebar.tsx:38-53 | the shell starts on tab 0, navigation shown, previous action, no suggestions, no marks |
| EditorAndSidebar.EditorSession.SetActiveTab | components/editor/EditorAndSidebar.tsx:248-254 | the tab becomes the class's index; the class is applied only when asked |
| EditorAndSidebar.EditorSession.StartSave | components/editor/EditorAndSidebar.tsx:55-58 | a request goes out exactly when not saved, and the status becomes saving |
| EditorAndSidebar.EditorSession.OnSaveResponse | components/editor/EditorAndSidebar.tsx:60-65 | a failed response gives error, a good one saved |
| EditorAndSidebar.EditorSession.Save | components/editor/EditorAndSidebar.tsx:55-67 | nothing when saved; otherwise error or saved by the response |
| EditorAndSidebar.EditorSession.TriggerEditorUpdate | components/editor/EditorAndSidebar.tsx:81-89 | every update sets not saved and schedules the scene, character and save jobs |
| EditorAndSidebar.EditorSession.OnCaretUpdate | components/editor/EditorAndSidebar.tsx:101-166 | tab and previous element follow the caret's class; suggestions and flags follow the caret rules |
| EditorAndSidebar.EditorSession.HandleKeyDown | components/editor/EditorAndSidebar.tsx:198-244 | the result and the new document follow this shell's Space/Enter policy |
| EditorAndSidebar.EditorSession.PressedKeyEvent | components/editor/EditorAndSidebar.tsx:256-295 | Tab applies the next tab's class, Ctrl+S saves, Ctrl+X flips navigation, Escape clears suggestions |
| EditorAndSidebar.EditorSession.OnScroll | components/editor/EditorAndSidebar.tsx:407-409 | scrolling leaves no suggestions |
| EditorAndSidebar.EditorSession.ToggleMark | components/editor/EditorAndSidebar.tsx:362-373 | the editor's stored mark and the shown flag flip together |
| EditorAndSidebar.ToggleKeepsFlagsInStep | components/editor/EditorAndSidebar.tsx:362-373 | a toggle flips exactly its own flag and keeps shown and stored flags equal |
| TitlePageAndSidebar.TitleKeyDownEffect | components/editor/title/TitlePageAndSidebar.tsx:40-74 | only Enter has a policy |
| TitlePageAndSidebar.TitleEnterCases | components/editor/title/TitlePageAndSidebar.tsx:47-71 | empty becomes other, handled; before the end splits; at the end inserts dialogue or action, handled |
| TitlePageAndSidebar.TitleEnterAgreesWithShell | components/editor/title/TitlePageAndSidebar.tsx:47-71 | without suggestions it decides like the screenplay shell except on an empty element |
| TitlePageAndSidebar.TitlePageSession.constructor | components/editor/title/TitlePageAndSidebar.tsx:27-28 | the shell starts with no style and other selected |
| TitlePageAndSidebar.TitlePageSession.SetActiveElement | components/editor/title/TitlePageAndSidebar.tsx:30-33 | the selection changes, and the element's class only when asked |
| TitlePageAndSidebar.TitlePageSession.HandleKeyDown | components/editor/title/TitlePageAndSidebar.tsx:40-74 | the result and the new document follow the title-page Enter policy |
| TitlePageAndSidebar.TitlePageSession.PressedKeyEvent | components/editor/title/TitlePageAndSidebar.tsx:78-93 | Tab's default is prevented and nothing changes |
| TitlePageAndSidebar.TitlePageSession.OnSelectionUpdate | src/lib/editor/editor.ts:297-303 | the selection follows the caret's class; styles follow the run before the caret, else stay |
| PopupCharacterItem.Renamed | components/popup/PopupCharacterItem.tsx:141-152 | a confirmed rename keeps the registry consistent |
| PopupCharacterItem.RenameMovesEntry | components/popup/PopupCharacterItem.tsx:136-152 | a rename to a free name moves the entry: new name present, old gone, others untouched, count kept |
| PopupCharacterItem.CharacterPopup.constructor | components/popup/PopupCharacterItem.tsx:61-67 | no warning, no error, no count, empty name, female, empty synopsis |
| PopupCharacterItem.CharacterPopup.OnCreate | components/popup/PopupCharacterItem.tsx:69-93 | a taken name raises the error and changes nothing; else Saving and the upper-cased persistent record is stored |
| PopupCharacterItem.CharacterPopup.OnEdit | components/popup/PopupCharacterItem.tsx:95-134 | a taken new name raises the error; a free one records the old name's count over the document's elements and warns, always; the same name updates in place |
| PopupCharacterItem.CharacterPopup.OnEditAsWritten | components/popup/PopupCharacterItem.tsx:95-134 | with the count over the paged JSON as written, a rename to a free name throws after keeping the typed values: no warning, registry and status unchanged |
| PopupCharacterItem.CharacterPopup.OnNewNameConfirm | components/popup/PopupCharacterItem.tsx:136-155 | the replacement is requested, the old entry deleted, Saving, the new record stored |
| PopupCharacterItem.CharacterPopup.Cancel | components/popup/PopupCharacterItem.tsx:38 | declining hides the warning and changes nothing else |
| PopupCharacterItem.CharacterPopup.OnNameChange | components/popup/PopupCharacterItem.tsx:193-200 | typing in the name hides the error and re-enables submission |
| PdfExport.NextClass | src/converters/export/pdf.ts:129-130 | the next node's class, action after the last node |
| PdfExport.Shape | src/converters/export/pdf.ts:147-178 | a node yields at most two rows, none only for a note with notes off, never starting with a spacing row |
| PdfExport.SkipEnd | src/converters/export/pdf.ts:134-142 | the skip stops at the first node that is neither character nor parenthetical, or the end |
| PdfExport.AppendShaped | src/converters/export/pdf.ts:147-178 | the switch appends exactly the node's rows |
| PdfExport.SkipCharacters | src/converters/export/pdf.ts:134-142 | the inner loop ends where the skip stops |
| PdfExport.ExportNodes | src/converters/export/pdf.ts:120-179 | the loop, with its manual rewind, yields the export function's rows |
| PdfExport.ExportBound | src/converters/export/pdf.ts:147-178 | at most two rows per input node |
| PdfExport.ExportAllNone | src/converters/export/pdf.ts:127 | none nodes produce no output |
| PdfExport.ExportHeadNotOffset | src/converters/export/pdf.ts:24-26 | no node's output starts with a spacing row |
| PdfExport.DialogueSpacing | src/converters/export/pdf.ts:155-160 | a dialogue row is followed by a spacing row exactly when the next class is not parenthetical; a closing dialogue is spaced |
| PdfExport.UnselectedCharacterSkipsRun | src/converters/export/pdf.ts:133-145 | an unselected character drops the character/parenthetical run after it and resumes at the next node, a dialogue included |
| PdfExport.NotesOffNoNotes | src/converters/export/pdf.ts:170-175 | with notes off no note row is exported |
| PdfExport.SelectedCharactersOnly | src/converters/export/pdf.ts:133-145 | with a selection every character row is a selected name upper-cased |
| PdfExport.NoSelectionKeepsCharacters | src/converters/export/pdf.ts:133 | without a selection there is one character row per character node |
| PdfExport.ShapeRowsShaped | src/converters/export/pdf.ts:148-169 | each node's rows have their style's text shape |
| PdfExport.ExportRowsShaped | src/converters/export/pdf.ts:148-169 | scene rows are upper case and spaced; character and section rows upper case; parentheticals wrapped; transitions upper case with a colon |

## Left out

- Tiptap and ProseMirror internals are not modelled: `setNode`, `insertContentAt`, `coordsAtPos`, `NodePos` and selection resolution. The caret is a collapsed (page, element, offset), the commands are sequence operations, and the suggestion menu's screen position is not kept.
- Characters.UpsertCharacterData: a new name goes last in the key order. `Object.keys` lists integer-like keys such as "42" first, in ascending numeric order, before all other keys in insertion order; the registry does not model that ordering, so for such names the key list, and with it the autocompletion's offer order, differ from the source.
- TitlePageAndSidebar.TitlePageSession: the title-page editor's extension list (src/lib/editor/editor.ts:182) holds the `screenplay` document node, whose content is `page+`, but not the `Page` node. ProseMirror refuses a content expression naming an unknown node type, so as written the title-page editor cannot be built and its handlers never run. The session models the handlers as if the editor existed, over the same paged document as the screenplay editor.
- EditorCore.Editor.InsertElement: the element goes right after the caret's element and takes the caret. The source inserts at the raw selection anchor and focuses that position; a mid-element ProseMirror position is not modelled.
- EditorCore.Editor.InsertPage: F2 inserts a default page right after the caret's page. The source inserts at the raw anchor, which ProseMirror may split at.
- The node type passed to `setNode` by the older shell (`"Screenplay"`) is not modelled. Both shells apply a class as `ApplyElement` does.
- Debounce timing and its delays are left out, since they are scheduling. A pending job is a set member until it fires. Only the scene update's effect is modelled, because the save and character jobs call the network or files this model does not include.
- Network and persistence are left out. A save response is a boolean input, and `closePopup` is a `closed` flag.
- EditorCore.Editor.ReplaceOccurrences: the source overwrites document positions 0 to 4 with the new word and ignores the old word. The model records the request and takes the resulting document from the caller. No global substitution is claimed.
- ScreenplayNodes.CountOccurrences: the word is built into a regular expression without escaping. The model uses plain case-insensitive substring matching, so metacharacters are not modelled. An empty word counts one match per position plus one.
- `getNodeData` reads the node's `type` while the schema keeps kinds in `attrs.class`. The model keeps a node's type tag and its class attribute as separate fields, so both readings appear as in the source. The element reading (`ScreenplayNodes.ElementNodes`) gives each element's node the type its class names.
- PdfExport.ExportNodes: pdfMake document generation, fonts, styles and the watermark are not modelled. Table layout is a flag on a row.
- Ascii.Upper, Ascii.Lower: only ASCII letters are upper- or lower-cased. JavaScript's `toUpperCase`/`toLowerCase` map all of Unicode and can change the length (ß upper-cases to SS). Both functions keep the length, so they are exact only for ASCII text.
- String lengths count Unicode scalar values. JavaScript `.length` and ProseMirror's `content.size`/`parentOffset` count UTF-16 code units. So a character outside the Basic Multilingual Plane, such as an emoji, counts 1 here and 2 in the source. The members this affects:
  - ScreenplayNodes.OffsetBefore and ScreenplayNodes.ComputeFullScenesData: scene positions after such a character are one lower per character;
  - ScreenplayNodes.PreviewFrom and ScreenplayNodes.GetScenePreview: the 30-character bound;
  - the Enter policies, through their element size and caret offset;
  - EditorUtils.ProcessAutoComplete: the text before the caret.
- PdfExport.ExportNodes: the caller of `exportToPDF` is not part of this model. The export is modelled over the flat node list, and nothing is claimed about which document it is given.
- The page counters (ResizeObserver, float division), the context menu that Escape also closes, and the UI-only components and contexts are left out.
- `hooks.ts`, the `extensions/*` copies of the schema and `ScreenplayTitle.tsx` duplicate modelled code and are not modelled again. So is `components/extensions/Action.tsx`, a dead extension.
- The older shell was written against an earlier enums module with SAVED, SAVING, ERROR and NOT_SAVED. It gets its own four-state status. Its Tab switch over the numeric selected tab is read with the kinds numbered in tab order.
- The older shell's `updateEditorStyles` reads `mark.attrs.class`. It is modelled as each mark's CSS class, the name it renders with.
- PopupCharacterItem.CharacterPopup.OnCreate: the gender is modelled as the selected option. The source stores the select's raw string on create, where edit converts it to a number.
- PopupCharacterItem.CharacterPopup.Cancel: the decline button has no `type` inside the form. Whether its click also submits the form is not modelled. It depends on browser and rendering order, because the click's own state change removes the button.
- Both existence checks in the popup look up the name as typed, while the name stored is upper-cased. The registry's own case handling lives in `characters.ts`, which is not part of this model, so nothing is claimed about it.
- The suggestion list in the older shell is read from the project's registry. That shell uses its own screenplay context for this; both are a name-to-record map.

## Findings

| source | as written | input that shows it | evidently intended | confidence | as-written member | corrected member |
|---|---|---|---|---|---|---|
| components/popup/PopupCharacterItem.tsx:116 | the old name is counted over the screenplay editor's JSON, whose top-level nodes are pages. `countOccurrences` (src/lib/editor/screenplay.ts:31-32) reads the first child's `text`; here that child is an element, which has no `text`, so `text!.matchAll` throws a TypeError. The rename warning is never raised, and a rename to a free name cannot be completed | a document of one page holding one action element; edit a character, type a name no character has, submit | the old name's occurrences are counted over the document's elements and the rename warning is shown | high, not executed | PopupCharacterItem.CharacterPopup.OnEditAsWritten | PopupCharacterItem.CharacterPopup.OnEdit |
| src/lib/editor/screenplay.ts:84-127 | the scene update (src/lib/editor/editor.ts:243-246) indexes the top-level nodes of the paged JSON, which are pages. A page's type is `page`, never `scene`, so the scene list is always empty. A walk over the elements would find none either: an element's `type` is `element` (src/lib/editor/screenplay.ts:59, src/lib/editor/extensions.ts:36), and its kind is only in its class attribute | a document of one page holding a scene element "INT. HOUSE" | one scene per scene element, classified by the element's class | high, not executed | ScreenplayJson.PagedScenesEmpty | ScreenplayNodes.DocumentScenesFromSceneElements |
