/**
 * The character registry of a project: character records keyed by name, with
 * the names kept in insertion order (the order Object.keys reports for names
 * that do not look like array indices, and which the autocompletion offers).
 * Lookup, insert-or-overwrite and removal are plain map operations; no case
 * folding is applied to the keys.
 */
module Characters {

  /** The gender select's options, in the order of their values 0, 1 and 2. */
  datatype CharacterGender = Female | Male | Other

  datatype CharacterData = CharacterData(name: string, gender: CharacterGender, synopsis: string, persistent: bool)

  /** The registry: the keys in order and the record stored under each key. */
  datatype CharacterMap = CharacterMap(names: seq<string>, data: map<string, CharacterData>)

  const EmptyCharacters := CharacterMap([], map[])

  predicate Distinct(s: seq<string>) {
    forall i, j :: 0 <= i < j < |s| ==> s[i] != s[j]
  }

  /** The key list holds each key of the map exactly once. */
  predicate ValidMap(m: CharacterMap) {
    && Distinct(m.names)
    && (forall n :: n in m.names ==> n in m.data)
    && (forall n :: n in m.data ==> n in m.names)
  }

  function DoesCharacterExist(m: CharacterMap, name: string): (b: bool)
    requires ValidMap(m)
    ensures b <==> name in m.names
  {
    name in m.data
  }

  /** a keeps some of the elements of b, in b's order. */
  predicate SubsequenceOf(a: seq<string>, b: seq<string>)
    decreases |b|
  {
    if |a| == 0 then true
    else if |b| == 0 then false
    else if a[|a| - 1] == b[|b| - 1] && SubsequenceOf(a[..|a| - 1], b[..|b| - 1]) then true
    else SubsequenceOf(a, b[..|b| - 1])
  }

  /** A subsequence of b is a subsequence of b extended. */
  lemma {:induction false} SubsequenceDropLast(a: seq<string>, b: seq<string>, x: string)
    requires SubsequenceOf(a, b)
    ensures SubsequenceOf(a, b + [x])
  {
    if |a| > 0 {
      assert (b + [x])[..|b + [x]| - 1] == b;
    }
  }

  /** s without x, the rest in order. */
  function Remove(s: seq<string>, x: string): (r: seq<string>)
    ensures forall y :: y in r <==> y in s && y != x
    ensures SubsequenceOf(r, s)
    ensures |r| <= |s|
  {
    if |s| == 0 then []
    else
      var init := s[..|s| - 1];
      var last := s[|s| - 1];
      var rest := Remove(init, x);
      assert s == init + [last];
      if last == x then
        SubsequenceDropLast(rest, init, last);
        rest
      else
        assert (rest + [last])[..|rest + [last]| - 1] == rest;
        rest + [last]
  }

  lemma {:induction false} RemoveDistinct(s: seq<string>, x: string)
    requires Distinct(s)
    ensures Distinct(Remove(s, x))
  {
    if |s| > 0 {
      var init := s[..|s| - 1];
      RemoveDistinct(init, x);
      assert s[|s| - 1] !in init;
    }
  }

  /** Removing an absent element changes nothing. */
  lemma {:induction false} RemoveAbsent(s: seq<string>, x: string)
    requires x !in s
    ensures Remove(s, x) == s
  {
    if |s| > 0 {
      RemoveAbsent(s[..|s| - 1], x);
      assert s[..|s| - 1] + [s[|s| - 1]] == s;
    }
  }

  /** Stores a record under its name: an existing key keeps its place, a new one goes last. */
  function UpsertCharacterData(m: CharacterMap, c: CharacterData): (r: CharacterMap)
    requires ValidMap(m)
    ensures ValidMap(r)
    ensures r.data == m.data[c.name := c]
    ensures c.name in m.data ==> r.names == m.names
    ensures c.name !in m.data ==> r.names == m.names + [c.name]
  {
    if c.name in m.data then CharacterMap(m.names, m.data[c.name := c])
    else CharacterMap(m.names + [c.name], m.data[c.name := c])
  }

  /** Removes the record stored under the name, if any. */
  function DeleteCharacter(m: CharacterMap, name: string): (r: CharacterMap)
    requires ValidMap(m)
    ensures ValidMap(r)
    ensures r.data == m.data - {name}
    ensures r.names == Remove(m.names, name)
    ensures name !in r.data
  {
    RemoveDistinct(m.names, name);
    CharacterMap(Remove(m.names, name), m.data - {name})
  }

  /** Deleting a character that was just created restores the registry. */
  lemma DeleteUndoesCreate(m: CharacterMap, c: CharacterData)
    requires ValidMap(m) && c.name !in m.data
    ensures DeleteCharacter(UpsertCharacterData(m, c), c.name) == m
  {
    var names := m.names + [c.name];
    assert names[..|names| - 1] == m.names;
    RemoveAbsent(m.names, c.name);
    assert Remove(names, c.name) == m.names;
    assert m.data[c.name := c] - {c.name} == m.data;
  }

  /** Deleting an absent name changes nothing. */
  lemma DeleteAbsent(m: CharacterMap, name: string)
    requires ValidMap(m) && name !in m.data
    ensures DeleteCharacter(m, name) == m
  {
    RemoveAbsent(m.names, name);
    assert m.data - {name} == m.data;
  }

  /** Upserting touches only its own key. */
  lemma UpsertLocal(m: CharacterMap, c: CharacterData, other: string)
    requires ValidMap(m) && other != c.name
    ensures var r := UpsertCharacterData(m, c);
      (other in r.data <==> other in m.data) && (other in m.data ==> r.data[other] == m.data[other])
  {
  }
}
