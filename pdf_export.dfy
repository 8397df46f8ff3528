/**
 * The shaping loop of the PDF export: the document's top-level nodes become a
 * list of styled rows. Empty-marker nodes are dropped, characters outside the
 * selected list are dropped together with the character and parenthetical
 * nodes that follow them, and each kind gets its text shape (upper-cased,
 * wrapped in parentheses, followed by a colon) and its spacing rows.
 */
module PdfExport {
  import opened Wrappers
  import opened Ascii
  import opened Enums
  import opened ScreenplayNodes

  /** The document styles a row can carry; offset rows only add vertical space. */
  datatype RowStyle =
    | SceneStyle | CharacterStyle | DialogueStyle | ParentheticalStyle | TransitionStyle
    | SectionStyle | NoteStyle | ActionStyle | OffsetStyle
  {
    function Name(): string {
      match this
      case SceneStyle => "scene"
      case CharacterStyle => "character"
      case DialogueStyle => "dialogue"
      case ParentheticalStyle => "parenthetical"
      case TransitionStyle => "transition"
      case SectionStyle => "section"
      case NoteStyle => "note"
      case ActionStyle => "action"
      case OffsetStyle => "offset"
    }
  }

  /** An output row: its style, its text, and whether it is laid out as a one-cell table. */
  datatype PdfRow = PdfRow(style: RowStyle, text: string, table: bool)

  /** The empty spacing row. */
  const OffsetRow := PdfRow(OffsetStyle, "", false)

  /** The export settings the loop reads: the selected characters, if any, and whether notes are exported. */
  datatype ExportOptions = ExportOptions(characters: Option<seq<string>>, notes: bool)

  /** The class of the node after node i; the last node is followed by an action. */
  function NextClass(nodes: seq<JsonNode>, i: nat): (c: string)
    requires i < |nodes|
    ensures i + 1 < |nodes| ==> c == nodes[i + 1].classAttr
    ensures i + 1 == |nodes| ==> c == Action.Name()
  {
    if i + 1 < |nodes| then nodes[i + 1].classAttr else Action.Name()
  }

  /** The rows one exported node yields, by its kind. */
  function Shape(d: NodeData, nextClass: string, notes: bool): (r: seq<PdfRow>)
    ensures |r| <= 2
    ensures r == [] <==> d.ty == ElementType(Note) && !notes
    ensures |r| > 0 ==> r[0] != OffsetRow
  {
    match d.ty
    case ElementType(Scene) => [PdfRow(SceneStyle, Upper(d.text), true), OffsetRow]
    case ElementType(Character) => [PdfRow(CharacterStyle, Upper(d.text), false)]
    case ElementType(Dialogue) =>
      [PdfRow(DialogueStyle, d.text, false)] + (if nextClass != Parenthetical.Name() then [OffsetRow] else [])
    case ElementType(Parenthetical) => [PdfRow(ParentheticalStyle, "(" + d.text + ")", false)]
    case ElementType(Transition) => [PdfRow(TransitionStyle, Upper(d.text) + ":", false)]
    case ElementType(Section) => [PdfRow(SectionStyle, Upper(d.text), false)]
    case ElementType(Note) => if notes then [PdfRow(NoteStyle, d.text, true), OffsetRow] else []
    case _ => [PdfRow(ActionStyle, d.text, false)]
  }

  predicate IsCharacterOrParenthetical(nodes: seq<JsonNode>, k: nat)
    requires k < |nodes|
  {
    GetNodeData(nodes[k]).ty == ElementType(Character) || GetNodeData(nodes[k]).ty == ElementType(Parenthetical)
  }

  /** A character node left out by the character selection. */
  predicate Unselected(d: NodeData, opts: ExportOptions) {
    d.ty == ElementType(Character) && opts.characters.Some? && d.text !in opts.characters.value
  }

  /** The first node from j on that is neither a character nor a parenthetical, or the end. */
  function SkipEnd(nodes: seq<JsonNode>, j: nat): (r: nat)
    requires j <= |nodes|
    ensures j <= r <= |nodes|
    ensures forall k :: j <= k < r ==> IsCharacterOrParenthetical(nodes, k)
    ensures r < |nodes| ==> !IsCharacterOrParenthetical(nodes, r)
    decreases |nodes| - j
  {
    if j == |nodes| || !IsCharacterOrParenthetical(nodes, j) then j else SkipEnd(nodes, j + 1)
  }

  /** The rows the nodes from i on yield. */
  function Export(nodes: seq<JsonNode>, i: nat, opts: ExportOptions): seq<PdfRow>
    requires i <= |nodes|
    decreases |nodes| - i
  {
    if i == |nodes| then []
    else
      var d := GetNodeData(nodes[i]);
      if d.ty == ElementType(None) then Export(nodes, i + 1, opts)
      else if Unselected(d, opts) then Export(nodes, SkipEnd(nodes, i + 1), opts)
      else Shape(d, NextClass(nodes, i), opts.notes) + Export(nodes, i + 1, opts)
  }

  /** The rows of one node, by its kind, appended to pdfNodes. */
  method AppendShaped(pdfNodes: seq<PdfRow>, node: NodeData, nextType: string, notes: bool) returns (out: seq<PdfRow>)
    ensures out == pdfNodes + Shape(node, nextType, notes)
  {
    out := pdfNodes;
    match node.ty
    case ElementType(Scene) =>
      out := out + [PdfRow(SceneStyle, Upper(node.text), true)];
      out := out + [OffsetRow];
    case ElementType(Character) =>
      out := out + [PdfRow(CharacterStyle, Upper(node.text), false)];
    case ElementType(Dialogue) =>
      out := out + [PdfRow(DialogueStyle, node.text, false)];
      if nextType != Parenthetical.Name() {
        out := out + [OffsetRow];
      }
    case ElementType(Parenthetical) =>
      out := out + [PdfRow(ParentheticalStyle, "(" + node.text + ")", false)];
    case ElementType(Transition) =>
      out := out + [PdfRow(TransitionStyle, Upper(node.text) + ":", false)];
    case ElementType(Section) =>
      out := out + [PdfRow(SectionStyle, Upper(node.text), false)];
    case ElementType(Note) =>
      if notes {
        out := out + [PdfRow(NoteStyle, node.text, true)];
        out := out + [OffsetRow];
      }
    case _ =>
      out := out + [PdfRow(ActionStyle, node.text, false)];
  }

  /** The inner loop: walks over the character and parenthetical nodes from start on. */
  method SkipCharacters(nodes: seq<JsonNode>, start: nat) returns (j: nat)
    requires start <= |nodes|
    ensures j == SkipEnd(nodes, start)
  {
    j := start;
    while j < |nodes|
      invariant start <= j <= |nodes|
      invariant SkipEnd(nodes, j) == SkipEnd(nodes, start)
      decreases |nodes| - j
    {
      var currNode := GetNodeData(nodes[j]);
      if currNode.ty != ElementType(Character) && currNode.ty != ElementType(Parenthetical) {
        break;
      }
      j := j + 1;
    }
  }

  /** The export loop, appending rows in place. */
  method ExportNodes(nodes: seq<JsonNode>, opts: ExportOptions) returns (pdfNodes: seq<PdfRow>)
    ensures pdfNodes == Export(nodes, 0, opts)
  {
    pdfNodes := [];
    var i := 0;
    while i < |nodes|
      invariant 0 <= i <= |nodes|
      invariant pdfNodes + Export(nodes, i, opts) == Export(nodes, 0, opts)
      decreases |nodes| - i
    {
      var node := GetNodeData(nodes[i]);
      if node.ty == ElementType(None) {
        i := i + 1;
        continue;
      }
      var nextType := Action.Name();
      if i + 1 < |nodes| {
        nextType := nodes[i + 1].classAttr;
      }
      if node.ty == ElementType(Character) && opts.characters.Some? && node.text !in opts.characters.value {
        var j := SkipCharacters(nodes, i + 1);
        // the source rewinds to j - 1, and its loop increment then resumes at j
        i := j;
        continue;
      }
      pdfNodes := AppendShaped(pdfNodes, node, nextType, opts.notes);
      i := i + 1;
    }
  }

  // ---------------------------------------------------------------- lemmas

  /** Every node yields at most two rows. */
  lemma {:induction false} ExportBound(nodes: seq<JsonNode>, i: nat, opts: ExportOptions)
    requires i <= |nodes|
    ensures |Export(nodes, i, opts)| <= 2 * (|nodes| - i)
    decreases |nodes| - i
  {
    if i < |nodes| {
      var d := GetNodeData(nodes[i]);
      if d.ty == ElementType(None) {
        ExportBound(nodes, i + 1, opts);
      } else if Unselected(d, opts) {
        ExportBound(nodes, SkipEnd(nodes, i + 1), opts);
      } else {
        ExportBound(nodes, i + 1, opts);
      }
    }
  }

  /** Empty-marker nodes yield nothing: a document of them exports no row. */
  lemma {:induction false} ExportAllNone(nodes: seq<JsonNode>, i: nat, opts: ExportOptions)
    requires i <= |nodes|
    requires forall k :: i <= k < |nodes| ==> IsNoneAt(nodes, k)
    ensures Export(nodes, i, opts) == []
    decreases |nodes| - i
  {
    if i < |nodes| {
      assert IsNoneAt(nodes, i);
      ExportAllNone(nodes, i + 1, opts);
    }
  }

  /** No exported run of rows starts with a spacing row. */
  lemma {:induction false} ExportHeadNotOffset(nodes: seq<JsonNode>, i: nat, opts: ExportOptions)
    requires i <= |nodes|
    ensures |Export(nodes, i, opts)| > 0 ==> Export(nodes, i, opts)[0] != OffsetRow
    decreases |nodes| - i
  {
    if i < |nodes| {
      var d := GetNodeData(nodes[i]);
      if d.ty == ElementType(None) {
        ExportHeadNotOffset(nodes, i + 1, opts);
      } else if Unselected(d, opts) {
        ExportHeadNotOffset(nodes, SkipEnd(nodes, i + 1), opts);
      } else {
        ExportHeadNotOffset(nodes, i + 1, opts);
      }
    }
  }

  /**
   * A dialogue yields its row, followed by a spacing row exactly when the
   * next node's class is not parenthetical; after the last node the class is
   * taken to be action, so a closing dialogue is spaced.
   */
  lemma DialogueSpacing(nodes: seq<JsonNode>, i: nat, opts: ExportOptions)
    requires i < |nodes| && GetNodeData(nodes[i]).ty == ElementType(Dialogue)
    ensures var out := Export(nodes, i, opts);
      && |out| > 0 && out[0] == PdfRow(DialogueStyle, GetNodeData(nodes[i]).text, false)
      && (|out| > 1 && out[1] == OffsetRow <==> NextClass(nodes, i) != "parenthetical")
      && (i + 1 == |nodes| ==> out == [PdfRow(DialogueStyle, GetNodeData(nodes[i]).text, false), OffsetRow])
  {
    ExportHeadNotOffset(nodes, i + 1, opts);
  }

  /**
   * An unselected character drops itself and the character and parenthetical
   * nodes right after it; the export resumes at the next node of another
   * kind, so a dialogue there is still exported.
   */
  lemma UnselectedCharacterSkipsRun(nodes: seq<JsonNode>, i: nat, opts: ExportOptions)
    requires i < |nodes| && Unselected(GetNodeData(nodes[i]), opts)
    ensures var e := SkipEnd(nodes, i + 1);
      && Export(nodes, i, opts) == Export(nodes, e, opts)
      && (forall k :: i < k < e ==> IsCharacterOrParenthetical(nodes, k))
      && (e < |nodes| && GetNodeData(nodes[e]).ty == ElementType(Dialogue) ==>
            Export(nodes, i, opts)[0] == PdfRow(DialogueStyle, GetNodeData(nodes[e]).text, false))
  {
  }

  /** With notes switched off no note row is exported. */
  lemma {:induction false} NotesOffNoNotes(nodes: seq<JsonNode>, i: nat, opts: ExportOptions)
    requires i <= |nodes| && !opts.notes
    ensures forall r :: r in Export(nodes, i, opts) ==> r.style != NoteStyle
    decreases |nodes| - i
  {
    if i < |nodes| {
      var d := GetNodeData(nodes[i]);
      if d.ty == ElementType(None) {
        NotesOffNoNotes(nodes, i + 1, opts);
      } else if Unselected(d, opts) {
        NotesOffNoNotes(nodes, SkipEnd(nodes, i + 1), opts);
      } else {
        NotesOffNoNotes(nodes, i + 1, opts);
      }
    }
  }

  /** With a selection, every character row is the upper-cased text of a selected name. */
  lemma {:induction false} SelectedCharactersOnly(nodes: seq<JsonNode>, i: nat, opts: ExportOptions)
    requires i <= |nodes| && opts.characters.Some?
    ensures forall r :: r in Export(nodes, i, opts) && r.style == CharacterStyle ==>
      exists n :: n in opts.characters.value && r.text == Upper(n)
    decreases |nodes| - i
  {
    if i < |nodes| {
      var d := GetNodeData(nodes[i]);
      if d.ty == ElementType(None) {
        SelectedCharactersOnly(nodes, i + 1, opts);
      } else if Unselected(d, opts) {
        SelectedCharactersOnly(nodes, SkipEnd(nodes, i + 1), opts);
      } else {
        SelectedCharactersOnly(nodes, i + 1, opts);
        if d.ty == ElementType(Character) {
          assert d.text in opts.characters.value;
        }
      }
    }
  }

  /** The number of rows of a style. */
  function CountStyle(rows: seq<PdfRow>, s: RowStyle): nat {
    if |rows| == 0 then 0 else CountStyle(rows[..|rows| - 1], s) + (if rows[|rows| - 1].style == s then 1 else 0)
  }

  lemma {:induction false} CountStyleAppend(a: seq<PdfRow>, b: seq<PdfRow>, s: RowStyle)
    ensures CountStyle(a + b, s) == CountStyle(a, s) + CountStyle(b, s)
    decreases |b|
  {
    if |b| > 0 {
      assert (a + b)[..|a + b| - 1] == a + b[..|b| - 1];
      CountStyleAppend(a, b[..|b| - 1], s);
    } else {
      assert a + b == a;
    }
  }

  /** The number of character nodes from i on. */
  function CountCharacters(nodes: seq<JsonNode>, i: nat): nat
    requires i <= |nodes|
    decreases |nodes| - i
  {
    if i == |nodes| then 0
    else (if GetNodeData(nodes[i]).ty == ElementType(Character) then 1 else 0) + CountCharacters(nodes, i + 1)
  }

  /** Without a selection every character node is exported: one character row each. */
  lemma {:induction false} NoSelectionKeepsCharacters(nodes: seq<JsonNode>, i: nat, opts: ExportOptions)
    requires i <= |nodes| && opts.characters.Missing?
    ensures CountStyle(Export(nodes, i, opts), CharacterStyle) == CountCharacters(nodes, i)
    decreases |nodes| - i
  {
    if i < |nodes| {
      var d := GetNodeData(nodes[i]);
      NoSelectionKeepsCharacters(nodes, i + 1, opts);
      if d.ty != ElementType(None) {
        var sh := Shape(d, NextClass(nodes, i), opts.notes);
        CountStyleAppend(sh, Export(nodes, i + 1, opts), CharacterStyle);
        assert CountStyle(sh, CharacterStyle) == if d.ty == ElementType(Character) then 1 else 0 by {
          assert CountStyle([], CharacterStyle) == 0;
          if |sh| == 2 {
            assert sh[..1][..0] == [];
          }
        }
      }
    }
  }

  /**
   * The text shapes of the rows: a scene row is upper case and followed by a
   * spacing row; character and section rows are upper case; a parenthetical
   * row is wrapped in parentheses; a transition row is upper case with a
   * colon appended.
   */
  predicate RowShaped(rows: seq<PdfRow>, k: nat)
    requires k < |rows|
  {
    var t := rows[k].text;
    && (rows[k].style == SceneStyle ==> IsUpperCase(t) && k + 1 < |rows| && rows[k + 1] == OffsetRow)
    && (rows[k].style == CharacterStyle ==> IsUpperCase(t))
    && (rows[k].style == SectionStyle ==> IsUpperCase(t))
    && (rows[k].style == ParentheticalStyle ==> |t| >= 2 && t[0] == '(' && t[|t| - 1] == ')')
    && (rows[k].style == TransitionStyle ==> |t| >= 1 && t[|t| - 1] == ':' && IsUpperCase(t[..|t| - 1]))
  }

  predicate RowsShaped(rows: seq<PdfRow>) {
    forall k :: 0 <= k < |rows| ==> RowShaped(rows, k)
  }

  lemma ShapeRowsShaped(d: NodeData, nextClass: string, notes: bool)
    ensures RowsShaped(Shape(d, nextClass, notes))
  {
    UpperIsUpperCase(d.text);
    var t := Upper(d.text) + ":";
    assert t[..|t| - 1] == Upper(d.text);
  }

  lemma RowsShapedAppend(a: seq<PdfRow>, b: seq<PdfRow>)
    requires RowsShaped(a) && RowsShaped(b)
    ensures RowsShaped(a + b)
  {
    forall k | 0 <= k < |a + b|
      ensures RowShaped(a + b, k)
    {
      if k < |a| {
        assert RowShaped(a, k);
      } else {
        assert RowShaped(b, k - |a|);
      }
    }
  }

  /** Every exported row has the text shape of its style. */
  lemma {:induction false} ExportRowsShaped(nodes: seq<JsonNode>, i: nat, opts: ExportOptions)
    requires i <= |nodes|
    ensures RowsShaped(Export(nodes, i, opts))
    decreases |nodes| - i
  {
    if i < |nodes| {
      var d := GetNodeData(nodes[i]);
      if d.ty == ElementType(None) {
        ExportRowsShaped(nodes, i + 1, opts);
      } else if Unselected(d, opts) {
        ExportRowsShaped(nodes, SkipEnd(nodes, i + 1), opts);
      } else {
        ExportRowsShaped(nodes, i + 1, opts);
        ShapeRowsShaped(d, NextClass(nodes, i), opts.notes);
        RowsShapedAppend(Shape(d, NextClass(nodes, i), opts.notes), Export(nodes, i + 1, opts));
      }
    }
  }
}
