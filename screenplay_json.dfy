/**
 * The editor's JSON as the derived views receive it. The screenplay editor's
 * document is a screenplay node holding page nodes holding element nodes
 * holding text nodes; the occurrence counter and the scene index walk only
 * the top level of that tree, which is the pages. This module reads both
 * walks over that JSON as written, where the counter throws and the scene
 * index finds no scene, and ties them to the element-level reading the rest
 * of the model uses.
 */
module ScreenplayJson {
  import opened Wrappers
  import opened Enums
  import opened Extensions
  import opened ScreenplayNodes

  /**
   * A JSON node: its type name, its class attribute, the text of a text
   * node, and its children, which the JSON omits when there are none.
   */
  datatype Json = Json(ty: string, cls: Option<string>, text: Option<string>, content: Option<seq<Json>>)

  function Children(s: seq<Json>): Option<seq<Json>> {
    if |s| == 0 then Missing else Some(s)
  }

  function RunJson(r: TextRun): Json {
    Json("text", Missing, Some(r.text), Missing)
  }

  function RunsJson(runs: seq<TextRun>): seq<Json> {
    seq(|runs|, k requires 0 <= k < |runs| => RunJson(runs[k]))
  }

  function ElementJson(e: Element): Json {
    Json("element", Some(e.cls), Missing, Children(RunsJson(e.content)))
  }

  function PageJson(p: Page): Json {
    Json("page", Missing, Missing, Children(seq(|p.elements|, k requires 0 <= k < |p.elements| => ElementJson(p.elements[k]))))
  }

  /** The screenplay editor's JSON: the root's children are the pages. */
  function DocumentJson(pages: seq<Page>): Json {
    Json("screenplay", Missing, Missing, Children(seq(|pages|, k requires 0 <= k < |pages| => PageJson(pages[k]))))
  }

  // ------------------------------------------------------ occurrence counting

  /**
   * The counting loop over a node list as written: a node without children is
   * skipped, the others contribute the matches in their first child's text;
   * Missing where the source throws, because the first child is absent or has
   * no text.
   */
  function CountNodesAsWritten(nodes: seq<Json>, word: string): Option<nat> {
    if |nodes| == 0 then Some(0)
    else
      var rest := CountNodesAsWritten(nodes[..|nodes| - 1], word);
      var node := nodes[|nodes| - 1];
      if rest.Missing? then Missing
      else if node.content.Missing? then rest
      else if |node.content.value| == 0 || node.content.value[0].text.Missing? then Missing
      else Some(rest.value + MatchCount(node.content.value[0].text.value, word))
  }

  /** The occurrence counter as written, over a whole document's JSON. */
  function CountOccurrencesAsWritten(doc: Json, word: string): (r: Option<nat>)
    ensures doc.content.Missing? ==> r.Missing?
  {
    if doc.content.Missing? then Missing else CountNodesAsWritten(doc.content.value, word)
  }

  /**
   * On the screenplay editor's document the counter as written always throws:
   * the last page's first child is an element, which has no text.
   */
  lemma PagedCountThrows(pages: seq<Page>, word: string)
    requires ValidPages(pages)
    ensures CountOccurrencesAsWritten(DocumentJson(pages), word) == Missing
  {
    var nodes := DocumentJson(pages).content.value;
    var last := nodes[|nodes| - 1];
    assert last == PageJson(pages[|pages| - 1]);
    assert last.content.value[0].text == Missing;
  }

  /** A node of a flat list as its JSON: the node's runs are its text children. */
  function NodeJson(n: JsonNode): Json {
    Json(TagOf(n.nodeType), Some(n.classAttr), Missing,
         if n.content.Missing? then Missing else Some(RunsJson(n.content.value)))
  }

  function TagOf(t: NodeType): string {
    match t
    case PageType => "Page"
    case ElementType(k) => k.Name()
    case UnknownType(tag) => tag
  }

  function NodesJson(nodes: seq<JsonNode>): seq<Json> {
    seq(|nodes|, k requires 0 <= k < |nodes| => NodeJson(nodes[k]))
  }

  /** A flat document whose top-level nodes hold text children. */
  function FlatJson(nodes: seq<JsonNode>): Json {
    Json("screenplay", Missing, Missing, Some(NodesJson(nodes)))
  }

  /**
   * On a flat document, whose top-level nodes hold text children, the
   * counter as written never throws and counts what the model's counter does.
   */
  lemma {:induction false} FlatCountAgrees(nodes: seq<JsonNode>, word: string)
    requires ContentShaped(nodes)
    ensures CountOccurrencesAsWritten(FlatJson(nodes), word) == Some(Occurrences(nodes, word))
  {
    FlatNodesCountAgrees(nodes, word);
  }

  lemma {:induction false} FlatNodesCountAgrees(nodes: seq<JsonNode>, word: string)
    requires ContentShaped(nodes)
    ensures CountNodesAsWritten(NodesJson(nodes), word) == Some(Occurrences(nodes, word))
  {
    if |nodes| > 0 {
      var init := nodes[..|nodes| - 1];
      assert NodesJson(nodes)[..|nodes| - 1] == NodesJson(init);
      FlatNodesCountAgrees(init, word);
    }
  }

  // -------------------------------------------------------------- scene index

  /**
   * How the node classifier reads a top-level JSON node: its type name read
   * as a tag, and the texts of its children concatenated, where a child
   * without text contributes the string "undefined".
   */
  function TopNodeAsRead(j: Json): JsonNode {
    JsonNode(TypeOfTag(j.ty), if j.cls.Some? then j.cls.value else "",
             if j.content.Missing? then Missing
             else Some(seq(|j.content.value|, k requires 0 <= k < |j.content.value| =>
                         TextRun(if j.content.value[k].text.Some? then j.content.value[k].text.value else "undefined", []))))
  }

  /** The scene index as written, over a whole document's JSON. */
  function ScenesAsWritten(doc: Json): seq<SceneItem> {
    if doc.content.Missing? then []
    else Scenes(Some(seq(|doc.content.value|, k requires 0 <= k < |doc.content.value| => TopNodeAsRead(doc.content.value[k]))))
  }

  /**
   * On the screenplay editor's document the scene index as written is always
   * empty: every top-level node is a page, whose type name is no scene.
   */
  lemma PagedScenesEmpty(pages: seq<Page>)
    ensures ScenesAsWritten(DocumentJson(pages)) == []
  {
    var doc := DocumentJson(pages);
    if doc.content.Some? {
      var nodes := seq(|doc.content.value|, k requires 0 <= k < |doc.content.value| => TopNodeAsRead(doc.content.value[k]));
      assert TypeOfTag("page") != ElementType(Scene) by {
        assert Scene.Name() == "scene";
      }
      forall j | 0 <= j < |nodes|
        ensures !IsSceneAt(nodes, j)
      {
        assert doc.content.value[j] == PageJson(pages[j]);
      }
      NoSceneNoIndices(nodes, |nodes|);
    }
  }

  lemma {:induction false} NoSceneNoIndices(nodes: seq<JsonNode>, i: nat)
    requires i <= |nodes|
    requires forall j :: 0 <= j < |nodes| ==> !IsSceneAt(nodes, j)
    ensures SceneIndices(nodes, i) == []
  {
    if i > 0 {
      NoSceneNoIndices(nodes, i - 1);
    }
  }
}
