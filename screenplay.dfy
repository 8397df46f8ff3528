/**
 * Derived views over the screenplay's flat node sequence: node classification,
 * text flattening, the character occurrence counter, the scene preview and the
 * scene index with its character offsets.
 */
module ScreenplayNodes {
  import opened Wrappers
  import opened Ascii
  import opened Enums
  import opened Extensions

  /** The kind a node's type tag classifies as: a page marker, a screenplay kind, or an unknown tag. */
  datatype NodeType = PageType | ElementType(kind: ScreenplayElement) | UnknownType(tag: string)

  /**
   * A top-level node of the document JSON: its type tag (already read through
   * TypeOfTag), its class attribute and its inline content, which the JSON
   * omits when there is none.
   */
  datatype JsonNode = JsonNode(nodeType: NodeType, classAttr: string, content: Option<seq<TextRun>>)

  datatype NodeData = NodeData(ty: NodeType, content: Option<seq<TextRun>>, text: string)

  datatype SceneItem = SceneItem(title: string, preview: string, position: int, nextPosition: int)

  function TypeOfTag(tag: string): (t: NodeType)
    ensures t == PageType <==> tag == "Page"
    ensures forall k: ScreenplayElement :: t == ElementType(k) <==> tag == k.Name()
  {
    if tag == "Page" then PageType
    else match ParseScreenplayElement(tag)
      case Some(k) => ElementType(k)
      case Missing => UnknownType(tag)
  }

  // ---------------------------------------------------------------- flattening

  /** The in-order concatenation of the runs' texts. */
  function Flatten(runs: seq<TextRun>): string
  {
    if |runs| == 0 then "" else Flatten(runs[..|runs| - 1]) + runs[|runs| - 1].text
  }

  function FlattenContent(content: Option<seq<TextRun>>): string {
    if content.Missing? then "" else Flatten(content.value)
  }

  /** Flattening distributes over concatenation of run lists. */
  lemma {:induction false} FlattenAppend(a: seq<TextRun>, b: seq<TextRun>)
    ensures Flatten(a + b) == Flatten(a) + Flatten(b)
  {
    if |b| == 0 {
      assert a + b == a;
    } else {
      assert (a + b)[..|a + b| - 1] == a + b[..|b| - 1];
      FlattenAppend(a, b[..|b| - 1]);
    }
  }

  /** The flattened text is as long as all runs together. */
  lemma {:induction false} FlattenLength(runs: seq<TextRun>)
    ensures |Flatten(runs)| == TotalLength(runs)
  {
    if |runs| > 0 {
      FlattenLength(runs[..|runs| - 1]);
    }
  }

  function TotalLength(runs: seq<TextRun>): nat {
    if |runs| == 0 then 0 else TotalLength(runs[..|runs| - 1]) + |runs[|runs| - 1].text|
  }

  method GetNodeFlattenContent(content: Option<seq<TextRun>>) returns (text: string)
    ensures text == FlattenContent(content)
  {
    if content.Missing? {
      return "";
    }
    var runs := content.value;
    text := "";
    var i := 0;
    while i < |runs|
      invariant 0 <= i <= |runs|
      invariant text == Flatten(runs[..i])
    {
      assert runs[..i + 1][..i] == runs[..i];
      text := text + runs[i].text;
      i := i + 1;
    }
    assert runs[..|runs|] == runs;
  }

  /** Classifies a node: a page is a marker with no content; otherwise its kind and flattened text. */
  function GetNodeData(node: JsonNode): (d: NodeData)
    ensures node.nodeType == PageType ==> d.ty == PageType && d.text == "" && d.content == Some([])
    ensures node.nodeType != PageType ==> d.ty == node.nodeType && d.content == node.content
    ensures node.nodeType != PageType ==> d.text == FlattenContent(node.content)
  {
    if node.nodeType == PageType then NodeData(PageType, Some([]), "")
    else NodeData(node.nodeType, node.content, FlattenContent(node.content))
  }

  predicate IsNoneAt(nodes: seq<JsonNode>, i: nat)
    requires i < |nodes|
  {
    GetNodeData(nodes[i]).ty == ElementType(None)
  }

  predicate IsSceneAt(nodes: seq<JsonNode>, i: nat)
    requires i < |nodes|
  {
    GetNodeData(nodes[i]).ty == ElementType(Scene)
  }

  // ------------------------------------------------------ occurrence counting

  /** Every content that is present holds at least one run (the JSON omits empty content). */
  predicate ContentShaped(nodes: seq<JsonNode>) {
    forall i :: 0 <= i < |nodes| ==> nodes[i].content.Missing? || |nodes[i].content.value| > 0
  }

  predicate OccursAt(t: string, w: string, p: int) {
    0 <= p && p + |w| <= |t| && t[p..p + |w|] == w
  }

  /** Leftmost, non-overlapping matches of w in t from position i on. */
  function MatchesFrom(t: string, w: string, i: nat): nat
    requires |w| > 0 && i <= |t|
    decreases |t| - i
  {
    if i + |w| > |t| then 0
    else if t[i..i + |w|] == w then 1 + MatchesFrom(t, w, i + |w|)
    else MatchesFrom(t, w, i + 1)
  }

  /** Case-insensitive global matches of word in text; an empty word matches at every position. */
  function MatchCount(text: string, word: string): nat {
    if |word| == 0 then |text| + 1 else MatchesFrom(Lower(text), Lower(word), 0)
  }

  /** A node counts the matches in its first run only, and nothing when it has no content. */
  function NodeMatches(node: JsonNode, word: string): nat
    requires node.content.Missing? || |node.content.value| > 0
  {
    if node.content.Missing? then 0 else MatchCount(node.content.value[0].text, word)
  }

  function Occurrences(nodes: seq<JsonNode>, word: string): nat
    requires ContentShaped(nodes)
  {
    if |nodes| == 0 then 0
    else Occurrences(nodes[..|nodes| - 1], word) + NodeMatches(nodes[|nodes| - 1], word)
  }

  method CountOccurrences(screenplay: seq<JsonNode>, word: string) returns (count: nat)
    requires ContentShaped(screenplay)
    ensures count == Occurrences(screenplay, word)
  {
    count := 0;
    var i := 0;
    while i < |screenplay|
      invariant 0 <= i <= |screenplay|
      invariant count == Occurrences(screenplay[..i], word)
    {
      assert screenplay[..i + 1][..i] == screenplay[..i];
      var content := screenplay[i].content;
      if content.Some? {
        var text := content.value[0].text;
        count := count + MatchCount(text, word);
      }
      i := i + 1;
    }
    assert screenplay[..|screenplay|] == screenplay;
  }

  /** Non-overlapping matches of a non-empty word fit in the text. */
  lemma {:induction false} MatchesFit(t: string, w: string, i: nat)
    requires |w| > 0 && i <= |t|
    ensures MatchesFrom(t, w, i) * |w| <= |t| - i
    decreases |t| - i
  {
    if i + |w| > |t| {
    } else if t[i..i + |w|] == w {
      MatchesFit(t, w, i + |w|);
    } else {
      MatchesFit(t, w, i + 1);
    }
  }

  /** Some match is counted exactly when the word occurs somewhere from i on. */
  lemma {:induction false} MatchesIffOccurs(t: string, w: string, i: nat)
    requires |w| > 0 && i <= |t|
    ensures MatchesFrom(t, w, i) > 0 <==> exists p :: i <= p && OccursAt(t, w, p)
    decreases |t| - i
  {
    if i + |w| > |t| {
      forall p | i <= p ensures !OccursAt(t, w, p) { }
    } else if t[i..i + |w|] == w {
      assert OccursAt(t, w, i);
    } else {
      MatchesIffOccurs(t, w, i + 1);
      if exists p :: i <= p && OccursAt(t, w, p) {
        var p :| i <= p && OccursAt(t, w, p);
        assert p != i;
        assert i + 1 <= p;
      }
    }
  }

  /** Matching ignores the case of both the text and the word. */
  lemma MatchCountIgnoresCase(text: string, word: string)
    ensures MatchCount(Upper(text), word) == MatchCount(text, word)
    ensures MatchCount(text, Upper(word)) == MatchCount(text, word)
  {
    LowerOfUpper(text);
    LowerOfUpper(word);
  }

  /** Counting over two parts of a document adds up. */
  lemma {:induction false} OccurrencesAppend(a: seq<JsonNode>, b: seq<JsonNode>, word: string)
    requires ContentShaped(a) && ContentShaped(b)
    ensures ContentShaped(a + b)
    ensures Occurrences(a + b, word) == Occurrences(a, word) + Occurrences(b, word)
  {
    if |b| == 0 {
      assert a + b == a;
    } else {
      assert (a + b)[..|a + b| - 1] == a + b[..|b| - 1];
      OccurrencesAppend(a, b[..|b| - 1], word);
    }
  }

  // ------------------------------------------------------------ scene preview

  /** What one node adds to a preview: nothing for a none node, else its text and a space. */
  function Chunk(nodes: seq<JsonNode>, k: nat): string
    requires k < |nodes|
  {
    if IsNoneAt(nodes, k) then "" else GetNodeData(nodes[k]).text + " "
  }

  /** The concatenation of the parts, in order. */
  function Join(parts: seq<string>): string {
    if |parts| == 0 then "" else Join(parts[..|parts| - 1]) + parts[|parts| - 1]
  }

  lemma {:induction false} JoinCons(parts: seq<string>)
    requires |parts| > 0
    ensures Join(parts) == parts[0] + Join(parts[1..])
  {
    if |parts| > 1 {
      var init := parts[..|parts| - 1];
      JoinCons(init);
      assert init[1..] == parts[1..][..|parts[1..]| - 1];
    }
  }

  /** The chunks of the nodes from i up to j, concatenated. */
  function Chunks(nodes: seq<JsonNode>, i: nat, j: nat): string
    requires i <= j <= |nodes|
  {
    Join(seq(j - i, k requires 0 <= k < j - i => Chunk(nodes, i + k)))
  }

  /** The preview scan: while under 31 characters, skip none nodes, stop at a scene. */
  function PreviewFrom(nodes: seq<JsonNode>, i: nat, acc: string): string
    decreases |nodes| - i
  {
    if i >= |nodes| || |acc| > 30 then acc
    else if IsNoneAt(nodes, i) then PreviewFrom(nodes, i + 1, acc)
    else if IsSceneAt(nodes, i) then acc
    else PreviewFrom(nodes, i + 1, acc + GetNodeData(nodes[i]).text + " ")
  }

  /** The index before which the preview scan stops. */
  function PreviewStop(nodes: seq<JsonNode>, i: nat, acc: string): (stop: nat)
    requires i <= |nodes|
    ensures i <= stop <= |nodes|
    decreases |nodes| - i
  {
    if i >= |nodes| || |acc| > 30 then i
    else if IsNoneAt(nodes, i) then PreviewStop(nodes, i + 1, acc)
    else if IsSceneAt(nodes, i) then i
    else PreviewStop(nodes, i + 1, acc + GetNodeData(nodes[i]).text + " ")
  }

  method GetScenePreview(nodes: seq<JsonNode>, cursor: nat) returns (preview: string)
    ensures preview == PreviewFrom(nodes, cursor, "")
  {
    preview := "";
    var i := cursor;
    while i < |nodes| && |preview| <= 30
      invariant cursor <= i
      invariant PreviewFrom(nodes, i, preview) == PreviewFrom(nodes, cursor, "")
      decreases |nodes| - i
    {
      var node := GetNodeData(nodes[i]);
      if node.ty == ElementType(None) {
        i := i + 1;
        continue;
      }
      if node.ty == ElementType(Scene) {
        break;
      }
      preview := preview + node.text + " ";
      i := i + 1;
    }
  }

  lemma ChunksCons(nodes: seq<JsonNode>, i: nat, j: nat)
    requires i < j <= |nodes|
    ensures Chunks(nodes, i, j) == Chunk(nodes, i) + Chunks(nodes, i + 1, j)
  {
    var parts := seq(j - i, k requires 0 <= k < j - i => Chunk(nodes, i + k));
    JoinCons(parts);
    assert parts[1..] == seq(j - (i + 1), k requires 0 <= k < j - (i + 1) => Chunk(nodes, i + 1 + k));
  }

  /**
   * The scan from i with accumulated text acc stopped before index stop: the
   * result is acc followed by the chunks of the nodes up to stop; no scene lies
   * before stop and the text was at most 30 characters long before each of those
   * nodes; stop is the end, the next scene, or the first point past 30 characters.
   */
  predicate PreviewShaped(nodes: seq<JsonNode>, i: nat, acc: string, stop: nat, result: string)
    requires i <= stop <= |nodes|
  {
    && result == acc + Chunks(nodes, i, stop)
    && (forall k :: i <= k < stop ==> !IsSceneAt(nodes, k) && |acc + Chunks(nodes, i, k)| <= 30)
    && (stop == |nodes| || IsSceneAt(nodes, stop) || |result| > 30)
  }

  lemma PrefixChunksStep(nodes: seq<JsonNode>, i: nat, acc: string, k: nat)
    requires i < k <= |nodes|
    ensures acc + Chunks(nodes, i, k) == (acc + Chunk(nodes, i)) + Chunks(nodes, i + 1, k)
  {
    ChunksCons(nodes, i, k);
  }

  lemma PreviewShapedStep(nodes: seq<JsonNode>, i: nat, acc: string, stop: nat, result: string)
    requires i < stop <= |nodes| && !IsSceneAt(nodes, i) && |acc| <= 30
    requires PreviewShaped(nodes, i + 1, acc + Chunk(nodes, i), stop, result)
    ensures PreviewShaped(nodes, i, acc, stop, result)
  {
    var acc' := acc + Chunk(nodes, i);
    PrefixChunksStep(nodes, i, acc, stop);
    assert result == acc + Chunks(nodes, i, stop);
    forall k | i <= k < stop
      ensures !IsSceneAt(nodes, k) && |acc + Chunks(nodes, i, k)| <= 30
    {
      if k > i {
        PrefixChunksStep(nodes, i, acc, k);
      }
    }
  }

  /** The preview scan has the shape PreviewShaped describes. */
  lemma {:induction false} PreviewShape(nodes: seq<JsonNode>, i: nat, acc: string)
    requires i <= |nodes|
    ensures PreviewShaped(nodes, i, acc, PreviewStop(nodes, i, acc), PreviewFrom(nodes, i, acc))
    decreases |nodes| - i
  {
    if i >= |nodes| || |acc| > 30 || IsSceneAt(nodes, i) {
      assert Chunks(nodes, i, i) == Join([]);
    } else {
      var acc' := acc + Chunk(nodes, i);
      if IsNoneAt(nodes, i) {
        assert acc' == acc;
      } else {
        assert acc' == acc + GetNodeData(nodes[i]).text + " ";
      }
      assert PreviewFrom(nodes, i, acc) == PreviewFrom(nodes, i + 1, acc');
      assert PreviewStop(nodes, i, acc) == PreviewStop(nodes, i + 1, acc');
      PreviewShape(nodes, i + 1, acc');
      PreviewShapedStep(nodes, i, acc, PreviewStop(nodes, i, acc), PreviewFrom(nodes, i, acc));
    }
  }

  // -------------------------------------------------------------- scene index

  /** How far a node moves the offset cursor: 2 for a none node, else its text length plus 2. */
  function Step(d: NodeData): nat {
    if d.ty == ElementType(None) then 2 else |d.text| + 2
  }

  /** The offset cursor before node i: it starts at 1 and each earlier node adds its step. */
  function OffsetBefore(nodes: seq<JsonNode>, i: nat): (r: int)
    requires i <= |nodes|
    ensures r >= 1 + 2 * i
  {
    if i == 0 then 1 else OffsetBefore(nodes, i - 1) + Step(GetNodeData(nodes[i - 1]))
  }

  /** The indices below i of the scene nodes, in document order. */
  function SceneIndices(nodes: seq<JsonNode>, i: nat): (r: seq<nat>)
    requires i <= |nodes|
    ensures forall k :: 0 <= k < |r| ==> r[k] < i
  {
    if i == 0 then []
    else SceneIndices(nodes, i - 1) + (if IsSceneAt(nodes, i - 1) then [i - 1] else [])
  }

  predicate IndicesIn(nodes: seq<JsonNode>, idx: seq<nat>) {
    forall k :: 0 <= k < |idx| ==> idx[k] < |nodes|
  }

  /** Scene k of the indexed scenes; the last scene's span ends at last. */
  function SceneEntry(nodes: seq<JsonNode>, idx: seq<nat>, k: nat, last: int): SceneItem
    requires IndicesIn(nodes, idx) && k < |idx|
  {
    SceneItem(
      Upper(GetNodeData(nodes[idx[k]]).text),
      PreviewFrom(nodes, idx[k] + 1, ""),
      OffsetBefore(nodes, idx[k]),
      if k + 1 < |idx| then OffsetBefore(nodes, idx[k + 1]) else last)
  }

  function ScenesWith(nodes: seq<JsonNode>, idx: seq<nat>, last: int): (r: seq<SceneItem>)
    requires IndicesIn(nodes, idx)
    ensures |r| == |idx|
  {
    seq(|idx|, k requires 0 <= k < |idx| => SceneEntry(nodes, idx, k, last))
  }

  /** The scene list of a document; [] when the document has no content. */
  function Scenes(content: Option<seq<JsonNode>>): seq<SceneItem> {
    if content.Missing? then []
    else
      var nodes := content.value;
      ScenesWith(nodes, SceneIndices(nodes, |nodes|), OffsetBefore(nodes, |nodes|))
  }

  lemma ScenesExtend(nodes: seq<JsonNode>, idx: seq<nat>, i: nat)
    requires IndicesIn(nodes, idx) && i < |nodes| && |idx| > 0
    ensures IndicesIn(nodes, idx + [i])
    ensures ScenesWith(nodes, idx + [i], -1)
         == ScenesWith(nodes, idx, -1)[|idx| - 1 := ScenesWith(nodes, idx, -1)[|idx| - 1].(nextPosition := OffsetBefore(nodes, i))]
            + [SceneItem(Upper(GetNodeData(nodes[i]).text), PreviewFrom(nodes, i + 1, ""), OffsetBefore(nodes, i), -1)]
  {
    var idx' := idx + [i];
    var a := ScenesWith(nodes, idx', -1);
    var b := ScenesWith(nodes, idx, -1);
    var n := |idx|;
    var b' := b[n - 1 := b[n - 1].(nextPosition := OffsetBefore(nodes, i))]
      + [SceneItem(Upper(GetNodeData(nodes[i]).text), PreviewFrom(nodes, i + 1, ""), OffsetBefore(nodes, i), -1)];
    forall k | 0 <= k < n + 1
      ensures a[k] == b'[k]
    {
      assert a[k] == SceneEntry(nodes, idx', k, -1);
      if k < n - 1 {
        assert idx'[k] == idx[k] && idx'[k + 1] == idx[k + 1];
        assert b'[k] == b[k] == SceneEntry(nodes, idx, k, -1);
      } else if k == n - 1 {
        assert idx'[k] == idx[k] && idx'[k + 1] == i;
        assert b[k] == SceneEntry(nodes, idx, k, -1);
      } else {
        assert idx'[k] == i;
      }
    }
    assert a == b';
  }

  lemma ScenesClose(nodes: seq<JsonNode>, idx: seq<nat>, last: int)
    requires IndicesIn(nodes, idx) && |idx| > 0
    ensures ScenesWith(nodes, idx, last)
         == ScenesWith(nodes, idx, -1)[|idx| - 1 := ScenesWith(nodes, idx, -1)[|idx| - 1].(nextPosition := last)]
  {
  }

  lemma SceneIndicesStep(nodes: seq<JsonNode>, i: nat)
    requires i < |nodes|
    ensures IsSceneAt(nodes, i) ==> SceneIndices(nodes, i + 1) == SceneIndices(nodes, i) + [i]
    ensures !IsSceneAt(nodes, i) ==> SceneIndices(nodes, i + 1) == SceneIndices(nodes, i)
  {
  }

  lemma ScenesFirst(nodes: seq<JsonNode>, idx: seq<nat>, i: nat)
    requires |idx| == 0 && i < |nodes|
    ensures IndicesIn(nodes, idx + [i])
    ensures ScenesWith(nodes, idx + [i], -1)
         == [SceneItem(Upper(GetNodeData(nodes[i]).text), PreviewFrom(nodes, i + 1, ""), OffsetBefore(nodes, i), -1)]
  {
    assert idx + [i] == [i];
    assert ScenesWith(nodes, [i], -1)[0] == SceneEntry(nodes, [i], 0, -1);
  }

  method ComputeFullScenesData(content: Option<seq<JsonNode>>) returns (scenes: seq<SceneItem>)
    ensures scenes == Scenes(content)
  {
    if content.Missing? {
      return [];
    }
    var nodes := content.value;
    scenes := [];
    var cursor := 1;
    var sceneNumber := 0;
    var i := 0;
    while i < |nodes|
      invariant 0 <= i <= |nodes|
      invariant cursor == OffsetBefore(nodes, i)
      invariant sceneNumber == |scenes|
      invariant scenes == ScenesWith(nodes, SceneIndices(nodes, i), -1)
    {
      var node := GetNodeData(nodes[i]);
      assert OffsetBefore(nodes, i + 1) == cursor + Step(node);
      if node.ty == ElementType(None) {
        SceneIndicesStep(nodes, i);
        cursor := cursor + 2;
        i := i + 1;
        continue;
      }
      SceneIndicesStep(nodes, i);
      if node.ty == ElementType(Scene) {
        ghost var idx := SceneIndices(nodes, i);
        if sceneNumber != 0 {
          ScenesExtend(nodes, idx, i);
          scenes := scenes[|scenes| - 1 := scenes[|scenes| - 1].(nextPosition := cursor)];
        } else {
          ScenesFirst(nodes, idx, i);
        }
        var preview := GetScenePreview(nodes, i + 1);
        scenes := scenes + [SceneItem(Upper(node.text), preview, cursor, -1)];
        sceneNumber := sceneNumber + 1;
      }
      cursor := cursor + |node.text| + 2;
      i := i + 1;
    }
    if |scenes| > 0 {
      ScenesClose(nodes, SceneIndices(nodes, |nodes|), cursor);
      scenes := scenes[|scenes| - 1 := scenes[|scenes| - 1].(nextPosition := cursor)];
    }
  }

  /** The offset cursor grows by at least 2 per node. */
  lemma {:induction false} OffsetGrows(nodes: seq<JsonNode>, i: nat, j: nat)
    requires i <= j <= |nodes|
    ensures OffsetBefore(nodes, j) >= OffsetBefore(nodes, i) + 2 * (j - i)
    decreases j
  {
    if j > i {
      OffsetGrows(nodes, i, j - 1);
    }
  }

  /**
   * The scene indices are exactly the scene nodes below i, in strictly
   * increasing document order.
   */
  lemma {:induction false} SceneIndicesExact(nodes: seq<JsonNode>, i: nat)
    requires i <= |nodes|
    ensures forall a, b :: 0 <= a < b < |SceneIndices(nodes, i)| ==> SceneIndices(nodes, i)[a] < SceneIndices(nodes, i)[b]
    ensures forall j :: 0 <= j < i ==> (IsSceneAt(nodes, j) <==> j in SceneIndices(nodes, i))
  {
    if i > 0 {
      SceneIndicesExact(nodes, i - 1);
    }
  }

  /**
   * One scene per scene node, in document order, titled with its node's text
   * upper-cased, positioned at the offset before it and previewed from the
   * node after it.
   */
  lemma ScenesOnePerSceneNode(nodes: seq<JsonNode>)
    ensures var s := Scenes(Some(nodes));
      var idx := SceneIndices(nodes, |nodes|);
      && |s| == |idx|
      && (forall j :: 0 <= j < |nodes| ==> (IsSceneAt(nodes, j) <==> j in idx))
      && (forall a, b :: 0 <= a < b < |idx| ==> idx[a] < idx[b])
      && (forall k :: 0 <= k < |s| ==> s[k].title == Upper(GetNodeData(nodes[idx[k]]).text))
      && (forall k :: 0 <= k < |s| ==>
            s[k].position == OffsetBefore(nodes, idx[k]) && s[k].preview == PreviewFrom(nodes, idx[k] + 1, ""))
  {
    SceneIndicesExact(nodes, |nodes|);
    var s := Scenes(Some(nodes));
    var idx := SceneIndices(nodes, |nodes|);
    forall k | 0 <= k < |s|
      ensures s[k].title == Upper(GetNodeData(nodes[idx[k]]).text)
      ensures s[k].position == OffsetBefore(nodes, idx[k]) && s[k].preview == PreviewFrom(nodes, idx[k] + 1, "")
    {
      assert s[k] == SceneEntry(nodes, idx, k, OffsetBefore(nodes, |nodes|));
    }
  }

  /** Each scene's span ends where the next scene starts; the last one at the final cursor. */
  lemma ScenesSpansChain(nodes: seq<JsonNode>)
    ensures var s := Scenes(Some(nodes));
      && (forall k :: 0 <= k < |s| - 1 ==> s[k].nextPosition == s[k + 1].position)
      && (|s| > 0 ==> s[|s| - 1].nextPosition == OffsetBefore(nodes, |nodes|))
  {
    var s := Scenes(Some(nodes));
    var idx := SceneIndices(nodes, |nodes|);
    var last := OffsetBefore(nodes, |nodes|);
    forall k | 0 <= k < |s| - 1
      ensures s[k].nextPosition == s[k + 1].position
    {
      assert s[k] == SceneEntry(nodes, idx, k, last);
      assert s[k + 1] == SceneEntry(nodes, idx, k + 1, last);
    }
    if |s| > 0 {
      assert s[|s| - 1] == SceneEntry(nodes, idx, |s| - 1, last);
    }
  }

  /** Positions start at 1 or later, each span is non-empty, and positions strictly increase. */
  lemma ScenesPositionsIncrease(nodes: seq<JsonNode>)
    ensures var s := Scenes(Some(nodes));
      && (forall k :: 0 <= k < |s| ==> 1 <= s[k].position < s[k].nextPosition)
      && (forall a, b :: 0 <= a < b < |s| ==> s[a].position < s[b].position)
  {
    var s := Scenes(Some(nodes));
    var idx := SceneIndices(nodes, |nodes|);
    var last := OffsetBefore(nodes, |nodes|);
    SceneIndicesExact(nodes, |nodes|);
    forall k | 0 <= k < |s|
      ensures 1 <= s[k].position < s[k].nextPosition
    {
      assert s[k] == SceneEntry(nodes, idx, k, last);
      if k + 1 < |s| {
        OffsetGrows(nodes, idx[k], idx[k + 1]);
      } else {
        OffsetGrows(nodes, idx[k], |nodes|);
      }
    }
    forall a, b | 0 <= a < b < |s|
      ensures s[a].position < s[b].position
    {
      assert s[a] == SceneEntry(nodes, idx, a, last);
      assert s[b] == SceneEntry(nodes, idx, b, last);
      OffsetGrows(nodes, idx[a], idx[b]);
    }
  }

  // -------------------------------------------------------- document elements

  /** An element read as a node: classified by its class, its runs as content (omitted when empty). */
  function ElementNode(e: Element): JsonNode {
    JsonNode(TypeOfTag(e.cls), e.cls, if |e.content| == 0 then Missing else Some(e.content))
  }

  /** The elements of one page, each read as a node. */
  function PageNodes(page: Page): (r: seq<JsonNode>)
    ensures |r| == |page.elements|
    ensures forall k :: 0 <= k < |r| ==> r[k] == ElementNode(page.elements[k])
  {
    seq(|page.elements|, k requires 0 <= k < |page.elements| => ElementNode(page.elements[k]))
  }

  /** The elements of all pages, in document order, each read as a node. */
  function ElementNodes(pages: seq<Page>): (r: seq<JsonNode>)
    ensures ContentShaped(r)
  {
    if |pages| == 0 then []
    else
      var init := ElementNodes(pages[..|pages| - 1]);
      var tail := PageNodes(pages[|pages| - 1]);
      assert forall i :: |init| <= i < |init + tail| ==> (init + tail)[i] == tail[i - |init|];
      init + tail
  }

  /** Every element of the document has its node in the element list. */
  lemma {:induction false} ElementNodesIndex(pages: seq<Page>, p: nat, e: nat)
    requires p < |pages| && e < |pages[p].elements|
    ensures exists j :: 0 <= j < |ElementNodes(pages)| && ElementNodes(pages)[j] == ElementNode(pages[p].elements[e])
  {
    var init := ElementNodes(pages[..|pages| - 1]);
    var tail := PageNodes(pages[|pages| - 1]);
    assert ElementNodes(pages) == init + tail;
    if p == |pages| - 1 {
      assert (init + tail)[|init| + e] == tail[e];
    } else {
      ElementNodesIndex(pages[..|pages| - 1], p, e);
      var j :| 0 <= j < |init| && init[j] == ElementNode(pages[p].elements[e]);
      assert (init + tail)[j] == init[j];
    }
  }

  /** An element node is a scene node exactly when the element's class is "scene". */
  lemma ElementNodeIsScene(e: Element)
    ensures GetNodeData(ElementNode(e)).ty == ElementType(Scene) <==> e.cls == "scene"
  {
    var t := TypeOfTag(e.cls);
    assert t == ElementType(Scene) <==> e.cls == Scene.Name();
  }

  /** The count over a node list is at least what any one node contributes. */
  lemma {:induction false} OccurrencesAtLeast(nodes: seq<JsonNode>, j: nat, word: string)
    requires ContentShaped(nodes) && j < |nodes|
    ensures Occurrences(nodes, word) >= NodeMatches(nodes[j], word)
  {
    var init := nodes[..|nodes| - 1];
    if j < |nodes| - 1 {
      assert init[j] == nodes[j];
      OccurrencesAtLeast(init, j, word);
    }
  }

  /**
   * The document's occurrence count read over its elements: every element
   * contributes the matches in its first run, so an element whose first run
   * holds the word makes the count positive.
   */
  lemma DocumentOccurrencesCountElement(pages: seq<Page>, p: nat, e: nat, word: string)
    requires p < |pages| && e < |pages[p].elements|
    ensures Occurrences(ElementNodes(pages), word) >= NodeMatches(ElementNode(pages[p].elements[e]), word)
    ensures |word| > 0 && |pages[p].elements[e].content| > 0
            && (exists q :: OccursAt(Lower(pages[p].elements[e].content[0].text), Lower(word), q))
            ==> Occurrences(ElementNodes(pages), word) > 0
  {
    ElementNodesIndex(pages, p, e);
    var j :| 0 <= j < |ElementNodes(pages)| && ElementNodes(pages)[j] == ElementNode(pages[p].elements[e]);
    OccurrencesAtLeast(ElementNodes(pages), j, word);
    var el := pages[p].elements[e];
    if |word| > 0 && |el.content| > 0 && (exists q :: OccursAt(Lower(el.content[0].text), Lower(word), q)) {
      var q :| OccursAt(Lower(el.content[0].text), Lower(word), q);
      MatchesIffOccurs(Lower(el.content[0].text), Lower(word), 0);
      assert 0 <= q;
    }
  }

  /**
   * The scene list read over the document's elements: a node is a scene
   * exactly when its element's class is "scene", and a document holding a
   * scene element has at least one scene.
   */
  lemma DocumentScenesFromSceneElements(pages: seq<Page>)
    ensures var nodes := ElementNodes(pages);
      forall j :: 0 <= j < |nodes| ==> (IsSceneAt(nodes, j) <==> nodes[j].classAttr == "scene")
    ensures (exists p, e :: 0 <= p < |pages| && 0 <= e < |pages[p].elements| && pages[p].elements[e].cls == "scene")
            ==> |Scenes(Some(ElementNodes(pages)))| > 0
  {
    var nodes := ElementNodes(pages);
    forall j | 0 <= j < |nodes|
      ensures IsSceneAt(nodes, j) <==> nodes[j].classAttr == "scene"
    {
      ElementNodeClass(pages, j);
      var el :| nodes[j] == ElementNode(el);
      ElementNodeIsScene(el);
    }
    if exists p, e :: 0 <= p < |pages| && 0 <= e < |pages[p].elements| && pages[p].elements[e].cls == "scene" {
      var p, e :| 0 <= p < |pages| && 0 <= e < |pages[p].elements| && pages[p].elements[e].cls == "scene";
      ElementNodesIndex(pages, p, e);
      var j :| 0 <= j < |nodes| && nodes[j] == ElementNode(pages[p].elements[e]);
      ElementNodeIsScene(pages[p].elements[e]);
      ScenesOnePerSceneNode(nodes);
      assert IsSceneAt(nodes, j);
    }
  }

  /** Every node of the element list is some element read as a node. */
  lemma {:induction false} ElementNodeClass(pages: seq<Page>, j: nat)
    requires j < |ElementNodes(pages)|
    ensures exists el :: ElementNodes(pages)[j] == ElementNode(el)
  {
    var init := ElementNodes(pages[..|pages| - 1]);
    var tail := PageNodes(pages[|pages| - 1]);
    assert ElementNodes(pages) == init + tail;
    if j < |init| {
      ElementNodeClass(pages[..|pages| - 1], j);
      assert (init + tail)[j] == init[j];
    } else {
      assert (init + tail)[j] == tail[j - |init|];
    }
  }
}
