/** The counter tables of pm/xml.go and pm/ves.go: names and values in three encodings, and the name a
    measured object is given. */
module Counters {

  // ---------------------------------------------------------------- the string library

  /** White space as `unicode.IsSpace` has it. */
  predicate IsSpace(c: char) {
    || c == ' ' || '\t' <= c <= '\r' || c == '\U{0085}' || c == '\U{00A0}' || c == '\U{1680}'
    || '\U{2000}' <= c <= '\U{200A}' || c == '\U{2028}' || c == '\U{2029}' || c == '\U{202F}'
    || c == '\U{205F}' || c == '\U{3000}'
  }

  function TrimLeft(s: string): (t: string)
    ensures |t| <= |s|
    ensures t != [] ==> !IsSpace(t[0])
  {
    if s != [] && IsSpace(s[0]) then TrimLeft(s[1..]) else s
  }

  function TrimRight(s: string): (t: string)
    ensures t <= s
    ensures t != [] ==> !IsSpace(t[|t| - 1])
  {
    if s != [] && IsSpace(s[|s| - 1]) then TrimRight(s[..|s| - 1]) else s
  }

  function TrimSpace(s: string): string {
    TrimRight(TrimLeft(s))
  }

  /** How many characters come before the first white space. */
  function WordLength(s: string): (n: nat)
    ensures n <= |s| && (forall i :: 0 <= i < n ==> !IsSpace(s[i])) && (n < |s| ==> IsSpace(s[n]))
  {
    if s == [] || IsSpace(s[0]) then 0 else 1 + WordLength(s[1..])
  }

  /** The words of a text, separated by white space. */
  function Fields(s: string): seq<string>
    decreases |s|
  {
    var t := TrimLeft(s);
    if t == [] then []
    else
      var n := WordLength(t);
      assert n > 0;
      [t[..n]] + Fields(t[n..])
  }

  predicate HasPrefix(s: string, prefix: string) {
    prefix <= s
  }

  predicate OccursAt(s: string, sub: string, i: int) {
    0 <= i <= |s| - |sub| && s[i..i + |sub|] == sub
  }

  predicate Contains(s: string, sub: string) {
    exists i: int :: 0 <= i <= |s| && OccursAt(s, sub, i)
  }

  predicate Word(s: string) {
    s != [] && forall i :: 0 <= i < |s| ==> !IsSpace(s[i])
  }

  predicate Blank(s: string) {
    forall i :: 0 <= i < |s| ==> IsSpace(s[i])
  }

  // ---------------------------------------------------------------- positions and names

  /** A `measType` or an `r` element: its position attribute, zero when it has none, and its text. */
  datatype Placed = Placed(p: int, value: string)

  datatype Info = Info(types: seq<Placed>, list: string)
  datatype Value = Value(results: seq<Placed>, list: string)

  function Highest(types: seq<Placed>): (h: int)
    ensures h >= 0
  {
    if types == [] then 0
    else
      var rest := Highest(types[..|types| - 1]);
      var p := types[|types| - 1].p;
      if p > rest then p else rest
  }

  lemma {:induction false} NoneHigher(types: seq<Placed>)
    ensures forall i :: 0 <= i < |types| ==> types[i].p <= Highest(types)
  {
    if types == [] {
    } else {
      NoneHigher(types[..|types| - 1]);
    }
  }

  lemma {:induction false} HighestIs(types: seq<Placed>, h: int)
    requires h >= 0 && (forall i :: 0 <= i < |types| ==> types[i].p <= h)
    ensures Highest(types) <= h
    ensures (h == 0 || exists i :: 0 <= i < |types| && types[i].p == h) ==> Highest(types) == h
  {
    if types == [] {
    } else {
      var n := |types| - 1;
      HighestIs(types[..n], h);
      if types[n].p != h && h != 0 && exists i :: 0 <= i < |types| && types[i].p == h {
        var i :| 0 <= i < |types| && types[i].p == h;
        assert types[..n][i].p == h;
      }
    }
  }

  /** The place the i-th type names: the one it gives, or its own when it gives none. */
  function Place(types: seq<Placed>, i: nat): int
    requires i < |types|
  {
    if types[i].p >= 1 then types[i].p - 1 else i
  }

  /** The names after the first `n` types, in a table of `highest` places. */
  function NamesAfter(types: seq<Placed>, highest: nat, n: nat): (names: seq<string>)
    requires n <= |types|
    ensures |names| == highest
  {
    if n == 0 then seq(highest, _ => "")
    else
      var names := NamesAfter(types, highest, n - 1);
      var k := Place(types, n - 1);
      if 0 <= k < highest then names[k := TrimSpace(types[n - 1].value)] else names
  }

  function NamesOf(info: Info): seq<string> {
    if |info.types| > 0 then NamesAfter(info.types, Highest(info.types), |info.types|) else Fields(info.list)
  }

  method CounterNames(info: Info) returns (names: seq<string>)
    ensures names == NamesOf(info)
  {
    if |info.types| > 0 {
      var highest := FindHighest(info.types);
      names := PlaceNames(info.types, highest);
      return;
    }
    names := Fields(info.list);
  }

  method FindHighest(types: seq<Placed>) returns (highest: int)
    ensures highest == Highest(types)
  {
    highest := 0;
    for i := 0 to |types|
      invariant highest == Highest(types[..i])
    {
      assert types[..i + 1][..i] == types[..i];
      if types[i].p > highest {
        highest := types[i].p;
      }
    }
    assert types[..|types|] == types;
  }

  method PlaceNames(types: seq<Placed>, highest: nat) returns (names: seq<string>)
    requires highest == Highest(types)
    ensures names == NamesAfter(types, highest, |types|)
  {
    NoneHigher(types);
    names := seq(highest, _ => "");
    for i := 0 to |types|
      invariant names == NamesAfter(types, highest, i)
    {
      var t := types[i];
      var name := TrimSpace(t.value);
      if 1 <= t.p <= highest {
        names := names[t.p - 1 := name];
      } else if i < highest {
        names := names[i := name];
      }
    }
  }

  function NameAt(names: seq<string>, position: int): string {
    if position < 1 || position > |names| then "" else names[position - 1]
  }

  /** One result: the position it is for, and its text. */
  datatype Cell = Cell(position: int, text: string)

  function Fill(names: seq<string>, cells: seq<Cell>): map<string, string> {
    if cells == [] then map[]
    else
      var before := Fill(names, cells[..|cells| - 1]);
      var c := cells[|cells| - 1];
      var name := NameAt(names, c.position);
      if name == "" then before else before[name := c.text]
  }

  function Position(p: int, i: nat): int {
    if p < 1 then i + 1 else p
  }

  function ResultCells(results: seq<Placed>): seq<Cell> {
    seq(|results|, i requires 0 <= i < |results| => Cell(Position(results[i].p, i), TrimSpace(results[i].value)))
  }

  function WordCells(words: seq<string>): seq<Cell> {
    seq(|words|, i requires 0 <= i < |words| => Cell(i + 1, words[i]))
  }

  /** The results of an XML value as cells. */
  function CellsOf(value: Value): seq<Cell> {
    if |value.results| > 0 then ResultCells(value.results) else WordCells(Fields(value.list))
  }

  lemma FillMore(names: seq<string>, cells: seq<Cell>, i: nat)
    requires i < |cells|
    ensures Fill(names, cells[..i + 1]) ==
            var before := Fill(names, cells[..i]);
            var name := NameAt(names, cells[i].position);
            if name == "" then before else before[name := cells[i].text]
  {
    assert cells[..i + 1][..i] == cells[..i];
  }

  method CountersOf(names: seq<string>, value: Value) returns (counters: map<string, string>)
    ensures counters == Fill(names, CellsOf(value))
  {
    if |value.results| > 0 {
      counters := FromResults(names, value.results);
    } else {
      counters := FromWords(names, Fields(value.list));
    }
  }

  method FromResults(names: seq<string>, results: seq<Placed>) returns (counters: map<string, string>)
    ensures counters == Fill(names, ResultCells(results))
  {
    counters := map[];
    ghost var cells := ResultCells(results);
    for i := 0 to |results|
      invariant counters == Fill(names, cells[..i])
    {
      var r := results[i];
      var position := r.p;
      if position < 1 {
        position := i + 1;
      }
      var name := NameAt(names, position);
      if name != "" {
        counters := counters[name := TrimSpace(r.value)];
      }
      FillMore(names, cells, i);
    }
    assert cells[..|results|] == cells;
  }

  method FromWords(names: seq<string>, words: seq<string>) returns (counters: map<string, string>)
    ensures counters == Fill(names, WordCells(words))
  {
    counters := map[];
    ghost var cells := WordCells(words);
    for i := 0 to |words|
      invariant counters == Fill(names, cells[..i])
    {
      var name := NameAt(names, i + 1);
      if name != "" {
        counters := counters[name := words[i]];
      }
      FillMore(names, cells, i);
    }
    assert cells[..|words|] == cells;
  }

  // ---------------------------------------------------------------- VES

  datatype VesResult = VesResult(p: int, sValue: string, iValue: string)

  /** The names of a VES event: the given ones, or the numeric ids in decimal. */
  function VesCounterNames(sTypes: seq<string>, iTypes: seq<string>): seq<string> {
    if |sTypes| > 0 then sTypes else iTypes
  }

  function TrimQuotes(s: string): string {
    if s != [] && s[0] == '"' then TrimQuotes(s[1..])
    else if s != [] && s[|s| - 1] == '"' then TrimQuotes(s[..|s| - 1])
    else s
  }

  function VesValue(r: VesResult): string {
    if r.sValue != "" then r.sValue
    else if |r.iValue| > 0 then TrimQuotes(TrimSpace(r.iValue))
    else ""
  }

  function VesCells(results: seq<VesResult>): seq<Cell> {
    seq(|results|, i requires 0 <= i < |results| => Cell(Position(results[i].p, i), VesValue(results[i])))
  }

  /** The counter-filling loop of `reportFromVES`. */
  method VesCounters(names: seq<string>, results: seq<VesResult>) returns (counters: map<string, string>)
    ensures counters == Fill(names, VesCells(results))
  {
    counters := map[];
    ghost var cells := VesCells(results);
    for i := 0 to |results|
      invariant counters == Fill(names, cells[..i])
    {
      assert cells[..i + 1][..i] == cells[..i];
      var position := results[i].p;
      if position < 1 {
        position := i + 1;
      }
      var name := NameAt(names, position);
      if name == "" {
        continue;
      }
      counters := counters[name := VesValue(results[i])];
    }
    assert cells[..|results|] == cells;
  }

  // ---------------------------------------------------------------- the table they encode

  /** Distinct names that can be written in every encoding, and as many values. */
  ghost predicate IsTable(names: seq<string>, values: seq<string>) {
    && |names| == |values|
    && (forall i :: 0 <= i < |names| ==> Word(names[i]) && Word(values[i]))
    && (forall i, j :: 0 <= i < j < |names| ==> names[i] != names[j])
  }

  ghost predicate Holds(m: map<string, string>, names: seq<string>, values: seq<string>)
    requires |names| == |values|
  {
    && (forall k :: k in m ==> k in names)
    && (forall i :: 0 <= i < |names| ==> names[i] in m && m[names[i]] == values[i])
  }

  /** An element is for the k-th place: by its position, or by its place in the document when it has none. */
  predicate IsFor(p: int, i: nat, k: int) {
    p == k || (p < 1 && i + 1 == k)
  }

  ghost predicate Stands(elements: seq<Placed>, k: int) {
    exists i :: 0 <= i < |elements| && IsFor(elements[i].p, i, k)
  }

  ghost predicate HasCell(cells: seq<Cell>, k: int) {
    exists i :: 0 <= i < |cells| && cells[i].position == k
  }

  /** Elements that give a table of texts: positions in any order, all or some of them left out where they
      agree with document order; each element is for a place and carries its text, and every place has one. */
  ghost predicate Gives(elements: seq<Placed>, texts: seq<string>) {
    && (forall i, k :: 0 <= i < |elements| && k >= 1 && IsFor(elements[i].p, i, k) ==>
          k <= |texts| && TrimSpace(elements[i].value) == texts[k - 1])
    && (forall k :: 1 <= k <= |texts| ==> Stands(elements, k))
  }

  ghost predicate HasPosition(elements: seq<Placed>, k: int) {
    exists i :: 0 <= i < |elements| && elements[i].p == k
  }

  /** The same for the results of a VES event, each of which writes its value as text, as a bare number or
      as a quoted one. */
  ghost predicate VesGives(results: seq<VesResult>, values: seq<string>) {
    && (forall i, k :: 0 <= i < |results| && k >= 1 && IsFor(results[i].p, i, k) ==>
          k <= |values| && Writes(results[i], values[k - 1]))
    && (forall k :: 1 <= k <= |values| ==> VesStands(results, k))
  }

  ghost predicate VesStands(results: seq<VesResult>, k: int) {
    exists i :: 0 <= i < |results| && IsFor(results[i].p, i, k)
  }

  predicate Writes(r: VesResult, v: string) {
    || (r.sValue == v && v != "")
    || (r.sValue == "" && '"' !in v && (r.iValue == v || r.iValue == "\"" + v + "\""))
  }

  ghost predicate CellsMatch(cells: seq<Cell>, values: seq<string>) {
    forall i :: 0 <= i < |cells| ==>
      1 <= cells[i].position <= |values| && cells[i].text == values[cells[i].position - 1]
  }

  ghost predicate CellsCover(cells: seq<Cell>, values: seq<string>) {
    CellsMatch(cells, values) && forall k :: 1 <= k <= |values| ==> HasCell(cells, k)
  }

  lemma {:induction false} NamesPlaced(types: seq<Placed>, names: seq<string>, n: nat)
    requires Gives(types, names) && n <= |types|
    ensures forall i, k :: 0 <= i < n && k >= 1 && IsFor(types[i].p, i, k) ==>
              k <= |names| && NamesAfter(types, |names|, n)[k - 1] == names[k - 1]
  {
    if n == 0 {
    } else {
      NamesPlaced(types, names, n - 1);
      assert IsFor(types[n - 1].p, n - 1, Place(types, n - 1) + 1);
    }
  }

  /** Types that give the names, the highest position among those given, decode to the names in order. */
  lemma NamesCovered(info: Info, names: seq<string>)
    requires names != [] && Gives(info.types, names)
    requires HasPosition(info.types, |names|)
    ensures NamesOf(info) == names
  {
    var types := info.types;
    forall i | 0 <= i < |types| ensures types[i].p <= |names| {
      if types[i].p >= 1 {
        assert IsFor(types[i].p, i, types[i].p);
      }
    }
    HighestIs(types, |names|);
    NamesPlaced(types, names, |types|);
    forall k | 0 <= k < |names| ensures NamesOf(info)[k] == names[k] {
      assert Stands(types, k + 1);
      var i :| 0 <= i < |types| && IsFor(types[i].p, i, k + 1);
    }
  }

  /** The name at place k of the table belongs to no other place. */
  ghost predicate OneOfAKind(names: seq<string>, k: nat)
    requires k < |names|
  {
    names[k] != "" && forall i :: 0 <= i < |names| && i != k ==> names[i] != names[k]
  }

  lemma {:induction false} FillAt(names: seq<string>, values: seq<string>, cells: seq<Cell>, k: nat)
    requires |names| == |values| && k < |names| && OneOfAKind(names, k) && CellsMatch(cells, values)
    ensures HasCell(cells, k + 1) ==> names[k] in Fill(names, cells)
    ensures names[k] in Fill(names, cells) ==> Fill(names, cells)[names[k]] == values[k]
  {
    if cells == [] {
    } else {
      var n := |cells| - 1;
      FillAt(names, values, cells[..n], k);
      if HasCell(cells, k + 1) {
        HasCellSplit(cells, k + 1);
      }
    }
  }

  lemma HasCellSplit(cells: seq<Cell>, k: int)
    requires cells != [] && HasCell(cells, k)
    ensures cells[|cells| - 1].position == k || HasCell(cells[..|cells| - 1], k)
  {
    var i :| 0 <= i < |cells| && cells[i].position == k;
    if i < |cells| - 1 {
      assert cells[..|cells| - 1][i].position == k;
    }
  }

  lemma {:induction false} FillNames(names: seq<string>, cells: seq<Cell>, name: string)
    requires name in Fill(names, cells)
    ensures name in names
  {
    if cells != [] && name in Fill(names, cells[..|cells| - 1]) {
      FillNames(names, cells[..|cells| - 1], name);
    }
  }

  lemma FillHolds(names: seq<string>, values: seq<string>, cells: seq<Cell>)
    requires IsTable(names, values) && CellsCover(cells, values)
    ensures Holds(Fill(names, cells), names, values)
  {
    forall k | k in Fill(names, cells) ensures k in names {
      FillNames(names, cells, k);
    }
    forall i | 0 <= i < |names| ensures names[i] in Fill(names, cells) && Fill(names, cells)[names[i]] == values[i] {
      FillAt(names, values, cells, i);
      assert HasCell(cells, i + 1);
    }
  }

  lemma HeldOnce(m: map<string, string>, m': map<string, string>, names: seq<string>, values: seq<string>)
    requires |names| == |values| && Holds(m, names, values) && Holds(m', names, values)
    ensures m == m'
  {
    forall k | k in names ensures k in m && k in m' && m[k] == m'[k] {
      var i :| 0 <= i < |names| && names[i] == k;
    }
  }

  // ---------------------------------------------------------------- lists of words

  /** Words with white space between them: `gaps` holds what precedes each, and what follows the last. */
  function Text(gaps: seq<string>, words: seq<string>): string
    requires |gaps| == |words| + 1
  {
    if words == [] then gaps[0] else gaps[0] + (words[0] + Text(gaps[1..], words[1..]))
  }

  ghost predicate Gapped(gaps: seq<string>, words: seq<string>) {
    && |gaps| == |words| + 1
    && (forall i :: 0 <= i < |gaps| ==> Blank(gaps[i]))
    && (forall i :: 0 < i < |words| ==> gaps[i] != "")
    && (forall i :: 0 <= i < |words| ==> Word(words[i]))
  }

  lemma {:induction false} TrimBlank(gap: string, s: string)
    requires Blank(gap) && (s != [] ==> !IsSpace(s[0]))
    ensures TrimLeft(gap + s) == s
  {
    if gap == [] {
      assert gap + s == s;
    } else {
      TrimBlank(gap[1..], s);
      assert (gap + s)[1..] == gap[1..] + s;
    }
  }

  lemma {:induction false} WordStops(w: string, s: string)
    requires (forall i :: 0 <= i < |w| ==> !IsSpace(w[i])) && (s != [] ==> IsSpace(s[0]))
    ensures WordLength(w + s) == |w|
  {
    if w == [] {
      assert w + s == s;
    } else {
      WordStops(w[1..], s);
      assert (w + s)[1..] == w[1..] + s;
    }
  }

  /** Splitting at white space gives the words back, however they were spaced. */
  lemma {:induction false} FieldsOfText(gaps: seq<string>, words: seq<string>)
    requires Gapped(gaps, words)
    ensures Fields(Text(gaps, words)) == words
    decreases |words|
  {
    if words == [] {
      TrimBlank(gaps[0], "");
      assert gaps[0] + "" == gaps[0];
    } else {
      var rest := Text(gaps[1..], words[1..]);
      FieldsOfText(gaps[1..], words[1..]);
      TextStartsBlank(gaps[1..], words[1..]);
      var t := words[0] + rest;
      assert t[0] == words[0][0];
      TrimBlank(gaps[0], t);
      WordStops(words[0], rest);
      assert t[..|words[0]|] == words[0] && t[|words[0]|..] == rest;
    }
  }

  lemma TextStartsBlank(gaps: seq<string>, words: seq<string>)
    requires |gaps| == |words| + 1 && Blank(gaps[0]) && (words != [] ==> gaps[0] != "")
    ensures Text(gaps, words) != [] ==> IsSpace(Text(gaps, words)[0])
  {
  }

  // ---------------------------------------------------------------- the encodings agree

  lemma ResultsCover(results: seq<Placed>, values: seq<string>)
    requires Gives(results, values)
    ensures CellsCover(ResultCells(results), values)
  {
    var cells := ResultCells(results);
    forall i | 0 <= i < |cells|
      ensures 1 <= cells[i].position <= |values| && cells[i].text == values[cells[i].position - 1]
    {
      assert IsFor(results[i].p, i, cells[i].position);
    }
    forall k | 1 <= k <= |values| ensures HasCell(cells, k) {
      assert Stands(results, k);
      var i :| 0 <= i < |results| && IsFor(results[i].p, i, k);
      assert cells[i].position == k;
    }
  }

  lemma VesCover(results: seq<VesResult>, values: seq<string>)
    requires VesGives(results, values) && forall i :: 0 <= i < |values| ==> Word(values[i])
    ensures CellsCover(VesCells(results), values)
  {
    var cells := VesCells(results);
    forall i | 0 <= i < |cells|
      ensures 1 <= cells[i].position <= |values| && cells[i].text == values[cells[i].position - 1]
    {
      assert IsFor(results[i].p, i, cells[i].position);
      WritesReads(results[i], values[cells[i].position - 1]);
    }
    forall k | 1 <= k <= |values| ensures HasCell(cells, k) {
      assert VesStands(results, k);
      var i :| 0 <= i < |results| && IsFor(results[i].p, i, k);
      assert cells[i].position == k;
    }
  }

  lemma WritesReads(r: VesResult, v: string)
    requires Word(v) && Writes(r, v)
    ensures VesValue(r) == v
  {
    if r.sValue == "" {
      VesValueReads(r.p, v);
      assert VesValue(r) == VesValue(VesResult(r.p, "", r.iValue));
    }
  }

  lemma PositionalHolds(names: seq<string>, values: seq<string>, info: Info, value: Value)
    requires IsTable(names, values) && names != [] && NamesOf(info) == names
    requires value.results != [] && Gives(value.results, values)
    ensures Holds(Fill(NamesOf(info), CellsOf(value)), names, values)
  {
    ResultsCover(value.results, values);
    FillHolds(names, values, CellsOf(value));
  }

  lemma ListedHolds(names: seq<string>, values: seq<string>, info: Info, value: Value, gaps: seq<string>,
                    gaps': seq<string>)
    requires IsTable(names, values) && info.types == [] && value.results == []
    requires Gapped(gaps, names) && info.list == Text(gaps, names)
    requires Gapped(gaps', values) && value.list == Text(gaps', values)
    ensures Holds(Fill(NamesOf(info), CellsOf(value)), names, values)
  {
    FieldsOfText(gaps, names);
    FieldsOfText(gaps', values);
    var cells := CellsOf(value);
    forall k | 1 <= k <= |values| ensures HasCell(cells, k) {
      assert cells[k - 1].position == k;
    }
    FillHolds(names, values, cells);
  }

  /** One table written three ways (with the positions of the first and the last in any order, or left out
      where they agree with document order, and the white space of the second as you like) decodes to one
      map: the table. */
  lemma EncodingsAgree(names: seq<string>, values: seq<string>,
                       positional: Info, results: Value,
                       listed: Info, list: Value, gaps: seq<string>, gaps': seq<string>,
                       iTypes: seq<string>, ves: seq<VesResult>)
    requires IsTable(names, values) && names != []
    requires Gives(positional.types, names)
    requires HasPosition(positional.types, |names|)
    requires Gives(results.results, values)
    requires listed.types == [] && list.results == []
    requires Gapped(gaps, names) && listed.list == Text(gaps, names)
    requires Gapped(gaps', values) && list.list == Text(gaps', values)
    requires VesGives(ves, values)
    ensures Holds(Fill(NamesOf(positional), CellsOf(results)), names, values)
    ensures Fill(NamesOf(positional), CellsOf(results)) == Fill(NamesOf(listed), CellsOf(list))
    ensures Fill(NamesOf(listed), CellsOf(list)) == Fill(VesCounterNames(names, iTypes), VesCells(ves))
  {
    assert Stands(results.results, 1);
    NamesCovered(positional, names);
    PositionalHolds(names, values, positional, results);
    ListedHolds(names, values, listed, list, gaps, gaps');
    VesCover(ves, values);
    FillHolds(names, values, VesCells(ves));
    HeldOnce(Fill(NamesOf(positional), CellsOf(results)), Fill(NamesOf(listed), CellsOf(list)), names, values);
    HeldOnce(Fill(NamesOf(listed), CellsOf(list)), Fill(names, VesCells(ves)), names, values);
  }

  /** A VES event without type names uses its numeric ids. */
  lemma NumericIdsStandIn(iTypes: seq<string>, values: seq<string>, ves: seq<VesResult>)
    requires IsTable(iTypes, values) && VesGives(ves, values)
    ensures Holds(Fill(VesCounterNames([], iTypes), VesCells(ves)), iTypes, values)
  {
    VesCover(ves, values);
    FillHolds(iTypes, values, VesCells(ves));
  }

  /** Elements with all their positions, in any order, are such elements. */
  lemma AllGiven(elements: seq<Placed>, texts: seq<string>)
    requires forall i :: 0 <= i < |elements| ==>
               1 <= elements[i].p <= |texts| && TrimSpace(elements[i].value) == texts[elements[i].p - 1]
    requires forall k :: 1 <= k <= |texts| ==> HasPosition(elements, k)
    ensures Gives(elements, texts)
  {
    forall k | 1 <= k <= |texts| ensures Stands(elements, k) {
      assert HasPosition(elements, k);
      var i :| 0 <= i < |elements| && elements[i].p == k;
      assert IsFor(elements[i].p, i, k);
    }
  }

  /** And so are elements in document order with none. */
  lemma AllLeftOut(elements: seq<Placed>, texts: seq<string>)
    requires |elements| == |texts|
    requires forall i :: 0 <= i < |elements| ==> elements[i].p == 0 && TrimSpace(elements[i].value) == texts[i]
    ensures Gives(elements, texts)
  {
    forall k | 1 <= k <= |texts| ensures Stands(elements, k) {
      assert IsFor(elements[k - 1].p, k - 1, k);
    }
  }

  /** A VES value reads the same as text, as a bare number, or as a quoted one. */
  lemma VesValueReads(p: int, v: string)
    requires Word(v) && '"' !in v
    ensures VesValue(VesResult(p, v, "")) == v
    ensures VesValue(VesResult(p, "", v)) == v
    ensures VesValue(VesResult(p, "", "\"" + v + "\"")) == v
  {
    TrimWord(v);
    NoQuotes(v);
    var q := "\"" + v + "\"";
    TrimWord(q);
    assert q[1..] == v + "\"";
    assert q[1..][..|v|] == v;
    assert q[1..][0] == v[0] && v[0] in v;
    assert TrimQuotes(q[1..]) == TrimQuotes(q[1..][..|v|]);
  }

  lemma TrimWord(w: string)
    requires w != [] && !IsSpace(w[0]) && !IsSpace(w[|w| - 1])
    ensures TrimSpace(w) == w
  {
  }

  lemma NoQuotes(v: string)
    requires v != [] && '"' !in v
    ensures TrimQuotes(v) == v
  {
    assert v[0] in v && v[|v| - 1] in v;
  }

  // ---------------------------------------------------------------- omitted positions

  /** The j-th type is the last that names place k. */
  ghost predicate LastToName(types: seq<Placed>, j: nat, k: int) {
    && j < |types| && Place(types, j) == k
    && forall i :: j < i < |types| ==> Place(types, i) != k
  }

  lemma {:induction false} LastExists(types: seq<Placed>, i: nat, n: nat) returns (j: nat)
    requires i < n <= |types| && forall m :: n <= m < |types| ==> Place(types, m) != Place(types, i)
    ensures i <= j && LastToName(types, j, Place(types, i))
  {
    if Place(types, n - 1) == Place(types, i) {
      j := n - 1;
    } else {
      j := LastExists(types, i, n - 1);
    }
  }

  lemma {:induction false} LastWins(types: seq<Placed>, highest: nat, n: nat, j: nat, k: nat)
    requires j < n <= |types| && k < highest && Place(types, j) == k
    requires forall i :: j < i < n ==> Place(types, i) != k
    ensures NamesAfter(types, highest, n)[k] == TrimSpace(types[j].value)
  {
    if j < n - 1 {
      LastWins(types, highest, n - 1, j, k);
    }
  }

  /** For every list of types: one that omits its position falls back to its place in document order if
      and only if that place is below the highest position given, and the last type to name it, which
      may be another that gives or falls back to the same position, has the same name. */
  lemma FallsBackExactly(info: Info, i: nat)
    requires i < |info.types| && info.types[i].p < 1
    ensures var types := info.types; var names := NamesOf(info); var name := TrimSpace(types[i].value);
            i < |names| && names[i] == name <==>
              i < Highest(types) && exists j: nat :: LastToName(types, j, i) && TrimSpace(types[j].value) == name
  {
    var types := info.types;
    var j := LastExists(types, i, |types|);
    if i < Highest(types) {
      LastWins(types, Highest(types), |types|, j, i);
    }
    assert forall k: nat :: LastToName(types, k, i) ==> k == j;
  }

  /** Positions omitted here and there, the rest agreeing with document order. */
  ghost predicate InDocumentOrder(types: seq<Placed>) {
    forall i :: 0 <= i < |types| ==> types[i].p < 1 || types[i].p == i + 1
  }

  function Trimmed(types: seq<Placed>): seq<string> {
    seq(|types|, i requires 0 <= i < |types| => TrimSpace(types[i].value))
  }

  /** So when the positions given agree with document order, the whole list falls back to it if and only
      if the last type carries its position: otherwise the table is cut short, to nothing at all when
      every position is omitted. */
  lemma InOrderFallsBackExactly(info: Info)
    requires info.types != [] && InDocumentOrder(info.types)
    ensures NamesOf(info) == Trimmed(info.types) <==> info.types[|info.types| - 1].p == |info.types|
    ensures (forall i :: 0 <= i < |info.types| ==> info.types[i].p < 1) ==> NamesOf(info) == []
  {
    var types := info.types;
    var n := |types|;
    if types[n - 1].p == n {
      HighestIs(types, n);
      forall k | 0 <= k < n ensures NamesOf(info)[k] == TrimSpace(types[k].value) {
        LastWins(types, n, n, k, k);
      }
    } else {
      HighestIs(types, n - 1);
      assert |NamesOf(info)| < n;
    }
    if forall i :: 0 <= i < n ==> types[i].p < 1 {
      HighestIs(types, 0);
    }
  }

  /** Two lists that show what the last type alone does not decide: both types that omit their position
      fall back before one that carries 4, and neither does before one that carries 1. */
  lemma LastTypeDoesNotDecide()
    ensures NamesOf(Info([Placed(4, "a"), Placed(0, "b"), Placed(0, "c")], "")) == ["", "b", "c", "a"]
    ensures NamesOf(Info([Placed(0, "a"), Placed(0, "b"), Placed(1, "c")], "")) == ["c"]
  {
    var long := [Placed(4, "a"), Placed(0, "b"), Placed(0, "c")];
    HighestIs(long, 4);
    assert long[0].p == 4;
    assert NamesAfter(long, 4, 1) == ["", "", "", "a"];
    assert NamesAfter(long, 4, 2) == ["", "b", "", "a"];
    var short := [Placed(0, "a"), Placed(0, "b"), Placed(1, "c")];
    HighestIs(short, 1);
    assert short[2].p == 1;
    assert NamesAfter(short, 1, 1) == ["a"];
    assert NamesAfter(short, 1, 2) == ["a"];
  }

  // ---------------------------------------------------------------- object names

  function Qualify(element: string, name: string): string {
    var o := TrimSpace(name);
    var e := TrimSpace(element);
    if o == "" then e
    else if e == "" || Contains(o, e) then o
    else if HasPrefix(o, "ManagedElement=") then o
    else e + "," + o
  }

  lemma TrimmedEnds(s: string)
    ensures TrimSpace(s) != [] ==> !IsSpace(TrimSpace(s)[0]) && !IsSpace(TrimSpace(s)[|TrimSpace(s)| - 1])
    ensures TrimSpace(TrimSpace(s)) == TrimSpace(s)
  {
    var t := TrimSpace(s);
    if t != [] {
      assert t[0] == TrimLeft(s)[0];
      TrimWord(t);
    }
  }

  /** A qualified name ends with the name and, unless that begins with "ManagedElement=", contains the
      element; it is the name itself if and only if that was absolute already, and otherwise begins with
      the element. */
  lemma QualifiedIs(element: string, name: string)
    ensures var o, e, q := TrimSpace(name), TrimSpace(element), Qualify(element, name);
            && |q| >= |o| && q[|q| - |o|..] == o
            && (Contains(q, e) || HasPrefix(o, "ManagedElement="))
            && (q == o <==> e == "" || Contains(o, e) || HasPrefix(o, "ManagedElement="))
            && (q != o && o != "" ==> q[..|e|] == e && q[|e|] == ',' && |q| == |e| + 1 + |o|)
            && (q != o && o == "" ==> q == e)
  {
    var o, e := TrimSpace(name), TrimSpace(element);
    assert OccursAt(o, "", 0);
    if o == "" {
      assert OccursAt(e, e, 0);
      if e != "" {
        NothingWithin(e);
      }
    } else if !(e == "" || Contains(o, e) || HasPrefix(o, "ManagedElement=")) {
      var q := e + "," + o;
      assert q[0..|e|] == e;
      assert OccursAt(q, e, 0);
    }
  }

  lemma NothingWithin(e: string)
    requires e != ""
    ensures !Contains("", e)
  {
  }

  /** Trimming takes off exactly the white space around a text. */
  lemma TrimsAround(a: string, w: string, b: string)
    requires Blank(a) && Blank(b) && w != [] && !IsSpace(w[0]) && !IsSpace(w[|w| - 1])
    ensures TrimSpace(a + (w + b)) == w
  {
    TrimBlank(a, w + b);
    TrimEnd(w, b);
  }

  lemma {:induction false} TrimEnd(w: string, b: string)
    requires Blank(b) && w != [] && !IsSpace(w[|w| - 1])
    ensures TrimRight(w + b) == w
  {
    if b == [] {
      assert w + b == w;
    } else {
      TrimEnd(w, b[..|b| - 1]);
      assert (w + b)[..|w + b| - 1] == w + b[..|b| - 1];
    }
  }

  /** Qualifying a name that has been qualified changes nothing. */
  lemma QualifyIdempotent(element: string, name: string)
    ensures Qualify(element, Qualify(element, name)) == Qualify(element, name)
  {
    var o := TrimSpace(name);
    var e := TrimSpace(element);
    TrimmedEnds(name);
    TrimmedEnds(element);
    if o == "" {
      assert e == "" || OccursAt(e, e, 0);
    } else if e != "" && !Contains(o, e) && !HasPrefix(o, "ManagedElement=") {
      var q := e + "," + o;
      assert q[0] == e[0] && q[|q| - 1] == o[|o| - 1];
      TrimWord(q);
      assert q[0..|e|] == e;
      assert OccursAt(q, e, 0);
    }
  }
}
