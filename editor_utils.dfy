/**
 * Editing helpers shared by the editors: reading a style mask off a mark list,
 * toggling marks by a style mask, the character-name autocompletion filter and
 * the default element, page and screenplay.
 */
module EditorUtils {
  import opened Wrappers
  import opened Ascii
  import opened Enums
  import opened Extensions
  import Characters

  // ------------------------------------------------------------- mark styles

  /** The style flag a mark's type name sets; any other mark sets none. */
  function MarkBit(name: string): Style {
    if name == "bold" then StyleBold
    else if name == "italic" then StyleItalic
    else if name == "underline" then StyleUnderline
    else StyleNone
  }

  /** The style of a mark list, by the names present in it. */
  function StyleOf(names: seq<string>): Style {
    StyleOfFlags("bold" in names, "italic" in names, "underline" in names)
  }

  /** The type names of a run's marks. */
  function MarkNames(marks: seq<Mark>): (r: seq<string>)
    ensures |r| == |marks|
    ensures forall i :: 0 <= i < |marks| ==> r[i] == marks[i].Name()
  {
    seq(|marks|, i requires 0 <= i < |marks| => marks[i].Name())
  }

  lemma StyleOfSnoc(names: seq<string>, n: string)
    ensures StyleOf(names + [n]) == StyleOf(names) | MarkBit(n)
  {
    var p := names + [n];
    assert ("bold" in p) == ("bold" in names || n == "bold");
    assert ("italic" in p) == ("italic" in names || n == "italic");
    assert ("underline" in p) == ("underline" in names || n == "underline");
  }

  /**
   * Folds the marks into a style: each flag is set exactly when a mark of
   * that name is present; other marks are ignored.
   */
  method GetStylesFromMarks(marks: seq<string>) returns (style: Style)
    ensures style == StyleOf(marks)
    ensures style as int < 8
    ensures (style & StyleBold != 0) <==> "bold" in marks
    ensures (style & StyleItalic != 0) <==> "italic" in marks
    ensures (style & StyleUnderline != 0) <==> "underline" in marks
  {
    style := StyleNone;
    var i := 0;
    while i < |marks|
      invariant 0 <= i <= |marks|
      invariant style == StyleOf(marks[..i])
    {
      StyleOfSnoc(marks[..i], marks[i]);
      assert marks[..i + 1] == marks[..i] + [marks[i]];
      var styleClass := marks[i];
      if styleClass == "bold" {
        style := style | StyleBold;
      }
      if styleClass == "italic" {
        style := style | StyleItalic;
      }
      if styleClass == "underline" {
        style := style | StyleUnderline;
      }
      i := i + 1;
    }
    assert marks[..|marks|] == marks;
  }

  /** No mark, no style. */
  lemma StyleOfEmpty()
    ensures StyleOf([]) == StyleNone
  {
  }

  /** Mark order and repetition do not matter: only the set of names does. */
  lemma StyleOfSetOnly(a: seq<string>, b: seq<string>)
    requires forall n :: n in a <==> n in b
    ensures StyleOf(a) == StyleOf(b)
  {
  }

  // ------------------------------------------------------------ mark toggles

  /** Which of the three marks are active at the caret. */
  datatype MarkFlags = MarkFlags(bold: bool, italic: bool, underline: bool) {
    predicate Has(m: Mark) {
      match m
      case Bold => bold
      case Italic => italic
      case Underline => underline
    }
  }

  const NoMarks := MarkFlags(false, false, false)

  /** The style flag of a mark. */
  function BitOf(m: Mark): Style {
    match m
    case Bold => StyleBold
    case Italic => StyleItalic
    case Underline => StyleUnderline
  }

  /** The mark flags a style mask describes. */
  function FlagsOfStyle(style: Style): (f: MarkFlags)
    ensures forall m: Mark :: f.Has(m) <==> style & BitOf(m) != 0
  {
    MarkFlags(style & StyleBold != 0, style & StyleItalic != 0, style & StyleUnderline != 0)
  }

  /** Toggles bold, italic and underline, each when its bit is set in the mask. */
  function ApplyMarkToggle(f: MarkFlags, style: Style): (r: MarkFlags)
    ensures forall m: Mark :: r.Has(m) != f.Has(m) <==> style & BitOf(m) != 0
  {
    MarkFlags(
      if style & StyleBold != 0 then !f.bold else f.bold,
      if style & StyleItalic != 0 then !f.italic else f.italic,
      if style & StyleUnderline != 0 then !f.underline else f.underline)
  }

  /** Toggling by the same mask twice restores the marks. */
  lemma ToggleInvolution(f: MarkFlags, style: Style)
    ensures ApplyMarkToggle(ApplyMarkToggle(f, style), style) == f
  {
  }

  /** Two toggles compose to one toggle by the exclusive union of the masks. */
  lemma ToggleCompose(f: MarkFlags, a: Style, b: Style)
    ensures ApplyMarkToggle(ApplyMarkToggle(f, a), b) == ApplyMarkToggle(f, a ^ b)
  {
  }

  // ---------------------------------------------------------- autocompletion

  /** What an autocompletion pass does to the suggestion list. */
  datatype SuggestionUpdate = Unchanged | Replace(list: seq<string>)

  /** At most this many names are suggested while typing. */
  const MaxSuggestions: nat := 5

  /**
   * A registry name is offered for the typed text when its lower-cased form
   * extends the lower-cased typed text, differs from it, and differs from the
   * typed text as typed.
   */
  predicate Suggests(name: string, text: string, trimmed: string) {
    var folded := Lower(name);
    folded != trimmed && StartsWith(folded, trimmed) && folded != text
  }

  /** The names that are offered, in registry order. */
  function FilterNames(keys: seq<string>, text: string, trimmed: string): seq<string>
  {
    if |keys| == 0 then []
    else
      FilterNames(keys[..|keys| - 1], text, trimmed)
      + (if Suggests(keys[|keys| - 1], text, trimmed) then [keys[|keys| - 1]] else [])
  }

  /** The first n elements, or all of them when there are fewer. */
  function Take(s: seq<string>, n: nat): (r: seq<string>)
    ensures |r| <= n && |r| <= |s|
    ensures |s| <= n ==> r == s
    ensures r == s[..|r|]
  {
    if |s| <= n then s else s[..n]
  }

  /**
   * Autocompletion for the element under the caret. Only a character element
   * is completed: when it is empty every registry name is offered; when the
   * caret is not at its end the list is cleared; otherwise the offered names,
   * capped at five.
   */
  function ProcessAutoComplete(cls: string, text: string, cursorInNode: nat, keys: seq<string>): (u: SuggestionUpdate)
    requires cursorInNode <= |text|
    ensures cls != "character" ==> u == Unchanged
    ensures cls == "character" && |text| == 0 ==> u == Replace(keys)
    ensures cls == "character" && |text| > 0 && cursorInNode < |text| ==> u == Replace([])
    ensures cls == "character" && |text| > 0 && cursorInNode == |text| ==>
      && u.Replace? && |u.list| <= MaxSuggestions
      && (forall i :: 0 <= i < |u.list| ==> u.list[i] in keys && Suggests(u.list[i], text, Lower(text)))
      && (Characters.Distinct(keys) ==> FirstAccepted(keys, u.list, text, Lower(text)))
  {
    if cls != "character" then Unchanged
    else if |text| == 0 then Replace(keys)
    else if cursorInNode != |text| then Replace([])
    else
      var list := Take(FilterNames(keys, text, Lower(text[..cursorInNode])), MaxSuggestions);
      assert text[..cursorInNode] == text;
      FilterSound(keys, text, Lower(text));
      FilterFirstAccepted(keys, text, Lower(text), |list|);
      Replace(list)
  }

  /** Every offered name is a registry name that Suggests accepts. */
  lemma {:induction false} FilterSound(keys: seq<string>, text: string, trimmed: string)
    ensures forall i :: 0 <= i < |FilterNames(keys, text, trimmed)| ==>
              FilterNames(keys, text, trimmed)[i] in keys && Suggests(FilterNames(keys, text, trimmed)[i], text, trimmed)
  {
    if |keys| > 0 {
      FilterSound(keys[..|keys| - 1], text, trimmed);
    }
  }

  /** Every registry name that Suggests accepts is offered, before the cap. */
  lemma {:induction false} FilterComplete(keys: seq<string>, text: string, trimmed: string)
    ensures forall k :: k in keys && Suggests(k, text, trimmed) ==> k in FilterNames(keys, text, trimmed)
  {
    if |keys| > 0 {
      var init := keys[..|keys| - 1];
      FilterComplete(init, text, trimmed);
      assert keys == init + [keys[|keys| - 1]];
    }
  }

  /**
   * The offer takes the earliest accepted names: an accepted name that comes
   * before an offered one in the key list is offered too.
   */
  predicate FirstAccepted(keys: seq<string>, offer: seq<string>, text: string, trimmed: string) {
    forall i, j :: 0 <= i < j < |keys| && keys[j] in offer && Suggests(keys[i], text, trimmed) ==> keys[i] in offer
  }

  /** Filtering a concatenation filters each part. */
  lemma {:induction false} FilterAppend(a: seq<string>, b: seq<string>, text: string, trimmed: string)
    ensures FilterNames(a + b, text, trimmed) == FilterNames(a, text, trimmed) + FilterNames(b, text, trimmed)
    decreases |b|
  {
    if |b| == 0 {
      assert a + b == a;
    } else {
      var b' := b[..|b| - 1];
      FilterAppend(a, b', text, trimmed);
      assert (a + b)[..|a + b| - 1] == a + b';
      assert (a + b)[|a + b| - 1] == b[|b| - 1];
    }
  }

  /** One instance of FirstAccepted for a prefix of the filtered names. */
  lemma FirstAcceptedAt(keys: seq<string>, text: string, trimmed: string, m: nat, i: nat, j: nat)
    requires Characters.Distinct(keys) && i < j < |keys|
    requires m <= |FilterNames(keys, text, trimmed)|
    requires keys[j] in FilterNames(keys, text, trimmed)[..m]
    requires Suggests(keys[i], text, trimmed)
    ensures keys[i] in FilterNames(keys, text, trimmed)[..m]
  {
    var f := FilterNames(keys, text, trimmed);
    var before := keys[..j];
    var a := FilterNames(before, text, trimmed);
    assert before + keys[j..] == keys;
    FilterAppend(before, keys[j..], text, trimmed);
    assert f[..|a|] == a;
    assert before[i] == keys[i];
    FilterComplete(before, text, trimmed);
    FilterSound(before, text, trimmed);
    var p :| 0 <= p < m && f[..m][p] == keys[j];
    assert keys[j] !in a;
    assert p >= |a|;
    var r :| 0 <= r < |a| && a[r] == keys[i];
    assert f[..m][r] == keys[i];
  }

  /** Every prefix of the filtered names takes the earliest accepted names. */
  lemma FilterFirstAccepted(keys: seq<string>, text: string, trimmed: string, m: nat)
    requires m <= |FilterNames(keys, text, trimmed)|
    ensures Characters.Distinct(keys) ==> FirstAccepted(keys, FilterNames(keys, text, trimmed)[..m], text, trimmed)
  {
    if Characters.Distinct(keys) {
      forall i, j | 0 <= i < j < |keys| && keys[j] in FilterNames(keys, text, trimmed)[..m] && Suggests(keys[i], text, trimmed)
        ensures keys[i] in FilterNames(keys, text, trimmed)[..m]
      {
        FirstAcceptedAt(keys, text, trimmed, m, i, j);
      }
    }
  }

  /** The offered names keep the registry order. */
  lemma {:induction false} FilterOrdered(keys: seq<string>, text: string, trimmed: string)
    ensures Characters.SubsequenceOf(FilterNames(keys, text, trimmed), keys)
  {
    if |keys| > 0 {
      var init := keys[..|keys| - 1];
      var last := keys[|keys| - 1];
      FilterOrdered(init, text, trimmed);
      var f := FilterNames(init, text, trimmed);
      if Suggests(last, text, trimmed) {
        assert (f + [last])[..|f + [last]| - 1] == f;
      } else {
        assert FilterNames(keys, text, trimmed) == f;
        Characters.SubsequenceDropLast(f, init, last);
      }
    }
  }

  /** Dropping the last element keeps a subsequence one. */
  lemma {:induction false} SubsequenceInit(a: seq<string>, b: seq<string>)
    requires |a| > 0 && Characters.SubsequenceOf(a, b)
    ensures Characters.SubsequenceOf(a[..|a| - 1], b)
    decreases |b|
  {
    var a' := a[..|a| - 1];
    if a[|a| - 1] == b[|b| - 1] && Characters.SubsequenceOf(a', b[..|b| - 1]) {
      Characters.SubsequenceDropLast(a', b[..|b| - 1], b[|b| - 1]);
      assert b[..|b| - 1] + [b[|b| - 1]] == b;
    } else {
      SubsequenceInit(a, b[..|b| - 1]);
      Characters.SubsequenceDropLast(a', b[..|b| - 1], b[|b| - 1]);
      assert b[..|b| - 1] + [b[|b| - 1]] == b;
    }
  }

  /** Every prefix of a subsequence is a subsequence. */
  lemma {:induction false} SubsequencePrefix(a: seq<string>, b: seq<string>, n: nat)
    requires n <= |a| && Characters.SubsequenceOf(a, b)
    ensures Characters.SubsequenceOf(a[..n], b)
    decreases |a| - n
  {
    if n < |a| {
      SubsequencePrefix(a, b, n + 1);
      SubsequenceInit(a[..n + 1], b);
      assert a[..n + 1][..n] == a[..n];
    } else {
      assert a[..n] == a;
    }
  }

  /**
   * Autocompletion at the end of a non-empty character element offers the
   * accepted registry names in registry order, capped at five; they are the
   * earliest accepted names, and when fewer than five are accepted, every
   * accepted name is offered.
   */
  lemma AutoCompleteOffers(text: string, keys: seq<string>)
    requires |text| > 0
    ensures var u := ProcessAutoComplete("character", text, |text|, keys);
      && u.Replace?
      && Characters.SubsequenceOf(u.list, keys)
      && (|u.list| < MaxSuggestions ==> forall k :: k in keys && Suggests(k, text, Lower(text)) ==> k in u.list)
      && (Characters.Distinct(keys) ==> FirstAccepted(keys, u.list, text, Lower(text)))
  {
    var f := FilterNames(keys, text, Lower(text));
    assert text[..|text|] == text;
    var u := ProcessAutoComplete("character", text, |text|, keys);
    assert u.list == Take(f, MaxSuggestions);
    FilterOrdered(keys, text, Lower(text));
    SubsequencePrefix(f, keys, |u.list|);
    FilterComplete(keys, text, Lower(text));
    FilterFirstAccepted(keys, text, Lower(text), |u.list|);
  }

  // ---------------------------------------------------------------- defaults

  /** An empty action element, the one an empty page starts with. */
  const DefaultElement: Element := Element("action", [])

  const DefaultPage: Page := Page([DefaultElement])

  /** A new screenplay: two default pages. */
  const DefaultScreenplay: Screenplay := Screenplay([DefaultPage, DefaultPage])

  /** The defaults are well formed: one action element per page, two pages. */
  lemma DefaultsValid()
    ensures DefaultElement == CreateElement(Missing, [])
    ensures ValidPage(DefaultPage) && |DefaultPage.elements| == 1 && DefaultPage.elements[0].cls == "action"
    ensures ValidScreenplay(DefaultScreenplay) && |DefaultScreenplay.pages| == 2
    ensures forall i :: 0 <= i < 2 ==> DefaultScreenplay.pages[i] == DefaultPage
  {
  }
}
