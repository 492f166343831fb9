/** The bodies that are compared: how the contributions of a listing's sections are laid out in them, and how
    they can be told apart again. */
module AsmBodies {
  import opened Protocol
  import opened Decimal
  import opened AsmText
  import opened AsmMarkers
  import opened AsmContent
  import opened AsmFile
  import opened AsmLabels

  function Flatten(chunks: seq<seq<string>>): seq<string> {
    if chunks == [] then [] else Flatten(chunks[..|chunks| - 1]) + Last(chunks)
  }

  /** One section's contribution: an attribute line, then lines that are not attribute lines. */
  predicate IsChunk(c: seq<string>) {
    c != [] && StartsWith(c[0], ATTRS_MARK) && forall p | 1 <= p < |c| :: !StartsWith(c[p], ATTRS_MARK)
  }

  lemma LastChunk(front: seq<string>, c: seq<string>, front': seq<string>, c': seq<string>)
    requires IsChunk(c) && IsChunk(c') && front + c == front' + c'
    ensures |c| <= |c'|
  {
    var w := front + c;
    assert w[|front'|] == c'[0];
    assert forall p | |front| < p < |w| :: w[p] == c[p - |front|] && !StartsWith(w[p], ATTRS_MARK);
  }

  /** A body determines the contributions it is made of. */
  lemma {:induction false} FlattenInjective(xs: seq<seq<string>>, ys: seq<seq<string>>)
    requires (forall x | x in xs :: IsChunk(x)) && (forall y | y in ys :: IsChunk(y))
    requires Flatten(xs) == Flatten(ys)
    ensures xs == ys
  {
    assert xs != [] ==> IsChunk(xs[|xs| - 1]);
    assert ys != [] ==> IsChunk(ys[|ys| - 1]);
    if xs != [] && ys != [] {
      var x, y := Last(xs), Last(ys);
      var xf, yf := xs[..|xs| - 1], ys[..|ys| - 1];
      LastChunk(Flatten(xf), x, Flatten(yf), y);
      LastChunk(Flatten(yf), y, Flatten(xf), x);
      assert Flatten(xf) == Flatten(xs)[..|Flatten(xs)| - |x|];
      assert Flatten(yf) == Flatten(ys)[..|Flatten(ys)| - |y|];
      FlattenInjective(xf, yf);
      assert x == Flatten(xs)[|Flatten(xf)|..] && y == Flatten(ys)[|Flatten(yf)|..];
      assert xs == xf + [x] && ys == yf + [y];
    }
  }

  // ---------------------------------------------------------------- contributions by name

  /** All labels used in the section are defined. */
  predicate LabelsDefined(s: Section, table: Table) {
    forall p | 0 <= p < |s.lines| :: LineDefined(s.lines[p], table)
  }

  predicate LineDefined(line: string, table: Table) { LabelsOnly(Line(line), table.Keys) }

  function CanonicalLine(line: string, table: Table, here: nat): string {
    NormalizeHashes(Render(Line(line), CanonText(table, here)))
  }

  function Chunk(sections: seq<Section>, table: Table, i: nat): (c: seq<string>)
    requires i < |sections|
    ensures |c| == |sections[i].lines| + 1
  {
    [ATTRS_MARK + NormalizeHashes(Strip(sections[i].attrs))]
    + seq(|sections[i].lines|, p requires 0 <= p < |sections[i].lines| => CanonicalLine(sections[i].lines[p], table, i))
  }

  lemma {:induction false} CanonLabelsDefined(lines: seq<string>, here: nat, table: Table)
    ensures CanonLabels(lines, here, table).Ok? <==> forall p | 0 <= p < |lines| :: LineDefined(lines[p], table)
    ensures CanonLabels(lines, here, table).Err? ==> CanonLabels(lines, here, table).error.Undefined?
  {
    if lines != [] {
      var front := lines[..|lines| - 1];
      CanonLabelsDefined(front, here, table);
      assert forall p | 0 <= p < |front| :: front[p] == lines[p];
      assert UndefinedIn(Line(Last(lines)), table).None? <==> LineDefined(lines[|lines| - 1], table);
    }
  }

  lemma LastCanonLabels(lines: seq<string>, here: nat, table: Table)
    requires lines != [] && CanonLabels(lines, here, table).Ok?
    ensures var front := CanonLabels(lines[..|lines| - 1], here, table);
            && front.Ok?
            && CanonLabels(lines, here, table).value
               == front.value + [Render(Line(lines[|lines| - 1]), CanonText(table, here))]
  {
  }

  lemma {:induction false} CanonLabelsLines(lines: seq<string>, here: nat, table: Table)
    requires CanonLabels(lines, here, table).Ok?
    ensures |CanonLabels(lines, here, table).value| == |lines|
    ensures forall p | 0 <= p < |lines| ::
              CanonLabels(lines, here, table).value[p] == Render(Line(lines[p]), CanonText(table, here))
  {
    if lines != [] {
      CanonLabelsLines(lines[..|lines| - 1], here, table);
      LastCanonLabels(lines, here, table);
    }
  }

  lemma ContributionIsChunk(sections: seq<Section>, i: nat, table: Table)
    requires i < |sections|
    ensures Contribution(sections, i, table).Ok? <==> LabelsDefined(sections[i], table)
    ensures Contribution(sections, i, table).Ok? ==> Contribution(sections, i, table).value == Chunk(sections, table, i)
    ensures Contribution(sections, i, table).Err? ==> Contribution(sections, i, table).error.Undefined?
  {
    CanonLabelsDefined(sections[i].lines, i, table);
    if CanonLabels(sections[i].lines, i, table).Ok? {
      CanonLabelsLines(sections[i].lines, i, table);
    }
  }

  /** The contributions to one name, in order. */
  function Chunks(parts: seq<Part>, name: string): seq<seq<string>> {
    if parts == [] then []
    else
      Chunks(parts[..|parts| - 1], name)
      + if Last(parts).name == name && Last(parts).lines.Ok? then [Last(parts).lines.value] else []
  }

  predicate AllOk(parts: seq<Part>) { forall i | 0 <= i < |parts| :: parts[i].lines.Ok? }

  function NamesOf(parts: seq<Part>): set<string> { set i | 0 <= i < |parts| :: parts[i].name }

  /** A bucket holds the bodies of the names of its kind, and only those. */
  predicate Holds(b: Bodies, parts: seq<Part>, text: bool, name: string) {
    && (name in b <==> name in NamesOf(parts) && IsText(name) == text)
    && (name in b ==> b[name] == Flatten(Chunks(parts, name)))
  }

  lemma NamesGrow(parts: seq<Part>)
    requires parts != []
    ensures NamesOf(parts) == NamesOf(parts[..|parts| - 1]) + {Last(parts).name}
  {
    var front := parts[..|parts| - 1];
    assert forall k | 0 <= k < |front| :: front[k] == parts[k];
    assert parts[|parts| - 1].name in NamesOf(parts);
  }

  lemma {:induction false} NoChunks(parts: seq<Part>, name: string)
    requires name !in NamesOf(parts)
    ensures Chunks(parts, name) == []
  {
    if parts != [] {
      NamesGrow(parts);
      NoChunks(parts[..|parts| - 1], name);
    }
  }

  lemma BodyGrows(parts: seq<Part>, name: string)
    requires parts != [] && Last(parts).lines.Ok?
    ensures Flatten(Chunks(parts, name))
            == Flatten(Chunks(parts[..|parts| - 1], name)) + if Last(parts).name == name then Last(parts).lines.value
                else []
  {
    var before, c := Chunks(parts[..|parts| - 1], name), Last(parts).lines.value;
    if Last(parts).name == name {
      assert Chunks(parts, name) == before + [c];
      assert (before + [c])[..|before|] == before && Last(before + [c]) == c;
    } else {
      assert Chunks(parts, name) == before;
    }
  }

  lemma BucketGrows(b: Bodies, parts: seq<Part>, text: bool, name: string)
    requires parts != [] && Last(parts).lines.Ok? && Holds(b, parts[..|parts| - 1], text, name)
    ensures Holds(if IsText(Last(parts).name) == text then Joined(b, Last(parts).name, Last(parts).lines.value) else b,
                  parts, text, name)
  {
    NamesGrow(parts);
    BodyGrows(parts, name);
    if name !in NamesOf(parts[..|parts| - 1]) {
      NoChunks(parts[..|parts| - 1], name);
    }
  }

  /** Every section's contribution ends up in the body of its name, in file order, and nothing else does. */
  lemma {:induction false} CollectedBodies(parts: seq<Part>, name: string)
    requires AllOk(parts)
    ensures Collected(parts).Ok?
    ensures var p := Collected(parts).value;
            Holds(p.funcs, parts, true, name) && Holds(p.blocks, parts, false, name) && !p.untrusted
  {
    if parts != [] {
      CollectedBodies(parts[..|parts| - 1], name);
      var before := Collected(parts[..|parts| - 1]).value;
      BucketGrows(before.funcs, parts, true, name);
      BucketGrows(before.blocks, parts, false, name);
    }
  }

  lemma {:induction false} CollectedDefined(parts: seq<Part>)
    requires Collected(parts).Ok?
    ensures AllOk(parts)
  {
    if parts != [] {
      CollectedDefined(parts[..|parts| - 1]);
    }
  }

  // ---------------------------------------------------------------- contributions by occurrence

  lemma {:induction false} ChunksCounted(sections: seq<Section>, table: Table, n: nat, name: string)
    requires n <= |sections| && AllOk(Parts(sections, table))
    ensures |Chunks(Parts(sections, table)[..n], name)| == Count(sections[..n], name)
  {
    if n > 0 {
      ChunksCounted(sections, table, n - 1, name);
      assert sections[..n][..n - 1] == sections[..n - 1];
      assert Parts(sections, table)[..n][..n - 1] == Parts(sections, table)[..n - 1];
    }
  }

  /** A contribution's place in its body is the number of earlier contributions to it. */
  lemma {:induction false} ChunkInParts(parts: seq<Part>, i: nat)
    requires AllOk(parts) && i < |parts|
    ensures var name := parts[i].name;
            var k := |Chunks(parts[..i], name)|;
            k < |Chunks(parts, name)| && Chunks(parts, name)[k] == parts[i].lines.value
  {
    var front := parts[..|parts| - 1];
    if i == |parts| - 1 {
      assert parts[..i] == front && parts[i] == Last(parts);
    } else {
      ChunkInParts(front, i);
      assert front[..i] == parts[..i];
    }
  }

  lemma ChunkAt(sections: seq<Section>, table: Table, i: nat)
    requires i < |sections| && AllOk(Parts(sections, table))
    ensures var chunks := Chunks(Parts(sections, table), Canon(sections[i]));
            Occurrence(sections, i) < |chunks|
                && Contribution(sections, i, table) == Ok(chunks[Occurrence(sections, i)])
  {
    ChunkInParts(Parts(sections, table), i);
    ChunksCounted(sections, table, i, Canon(sections[i]));
  }

  lemma {:induction false} ChunkOrigin(sections: seq<Section>, table: Table, n: nat, name: string, k: nat)
    returns (i: nat)
    requires n <= |sections| && AllOk(Parts(sections, table)) && k < |Chunks(Parts(sections, table)[..n], name)|
    ensures i < n && Canon(sections[i]) == name && Occurrence(sections, i) == k
  {
    var parts := Parts(sections, table);
    assert parts[..n][..n - 1] == parts[..n - 1];
    if k < |Chunks(parts[..n - 1], name)| {
      i := ChunkOrigin(sections, table, n - 1, name, k);
    } else {
      i := n - 1;
      ChunksCounted(sections, table, i, name);
    }
  }

  // ---------------------------------------------------------------- accepted listings

  /** Every label used is defined, and none is defined twice. */
  ghost predicate Accepted(sections: seq<Section>) { Outcome(sections).Ok? }

  function TableOf(sections: seq<Section>): Table {
    match DefineSections(sections, |sections|) case Ok(table) => table case Err(_) => map[]
  }

  lemma AcceptedFacts(sections: seq<Section>)
    requires Accepted(sections)
    ensures IsTable(TableOf(sections), sections)
    ensures AllOk(Parts(sections, TableOf(sections)))
  {
    DefinitionsDescribed(sections, |sections|);
    CollectedDefined(Parts(sections, TableOf(sections)));
  }

  lemma AcceptedBody(sections: seq<Section>, name: string)
    requires Accepted(sections)
    ensures var parts, p := Parts(sections, TableOf(sections)), Outcome(sections).value;
            Holds(p.funcs, parts, true, name) && Holds(p.blocks, parts, false, name) && !p.untrusted
  {
    CollectedDefined(Parts(sections, TableOf(sections)));
    CollectedBodies(Parts(sections, TableOf(sections)), name);
  }

  /** Bodies are counted among the functions exactly if their name starts with .text, else among the data. */
  lemma FunctionsExactly(sections: seq<Section>, name: string)
    requires Accepted(sections)
    ensures name in Outcome(sections).value.funcs <==>
              (exists i :: 0 <= i < |sections| && Canon(sections[i]) == name) && |name| >= 5 && name[..5] == ".text"
    ensures name in Outcome(sections).value.blocks <==>
              (exists i :: 0 <= i < |sections| && Canon(sections[i]) == name) && !(|name| >= 5 && name[..5] == ".text")
  {
    AcceptedBody(sections, name);
    var parts := Parts(sections, TableOf(sections));
    forall i | 0 <= i < |sections| ensures parts[i].name == Canon(sections[i]) {
    }
    if name in NamesOf(parts) {
      var i :| 0 <= i < |parts| && parts[i].name == name;
      assert Canon(sections[i]) == name;
    }
    if i :| 0 <= i < |sections| && Canon(sections[i]) == name {
      assert parts[i].name in NamesOf(parts);
    }
  }

  lemma AcceptedLabels(sections: seq<Section>, i: nat)
    requires Accepted(sections) && i < |sections|
    ensures LabelsDefined(sections[i], TableOf(sections))
    ensures Contribution(sections, i, TableOf(sections)) == Ok(Chunk(sections, TableOf(sections), i))
  {
    AcceptedFacts(sections);
    assert Parts(sections, TableOf(sections))[i].lines.Ok?;
    ContributionIsChunk(sections, i, TableOf(sections));
  }

  ghost predicate UsesUndefined(sections: seq<Section>) {
    exists i, p, k :: LabelUsed(sections, i, p, k) && forall j: nat, q: nat ::
          !DefinedAt(sections, j, q, UsedLabel(sections, i, p, k))
  }

  predicate LabelUsed(sections: seq<Section>, i: int, p: int, k: int) {
    0 <= i < |sections| && 0 <= p < |sections[i].lines| && 0 <= k < |Line(sections[i].lines[p])|
    && Line(sections[i].lines[p])[k].Label?
  }

  function UsedLabel(sections: seq<Section>, i: int, p: int, k: int): string
    requires LabelUsed(sections, i, p, k)
  {
    Line(sections[i].lines[p])[k].name
  }

  lemma DefinedIffInTable(table: Table, sections: seq<Section>, name: string)
    requires IsTable(table, sections)
    ensures name in table <==> exists j: nat, q: nat :: DefinedAt(sections, j, q, name)
  {
    if name in table {
      var j, q := Located(table, sections, name);
    }
    forall j: nat, q: nat | DefinedAt(sections, j, q, name) ensures name in table {
      InTable(table, sections, j, q, name);
    }
  }

  lemma UndefinedIffUnlisted(table: Table, sections: seq<Section>)
    requires IsTable(table, sections)
    ensures (forall i | 0 <= i < |sections| :: LabelsDefined(sections[i], table)) <==> !UsesUndefined(sections)
  {
    forall name {
      DefinedIffInTable(table, sections, name);
    }
    if !(forall i | 0 <= i < |sections| :: LabelsDefined(sections[i], table)) {
      var i :| 0 <= i < |sections| && !LabelsDefined(sections[i], table);
      var p :| 0 <= p < |sections[i].lines| && !LabelsOnly(Line(sections[i].lines[p]), table.Keys);
      var items := Line(sections[i].lines[p]);
      assert !LabelsOnly(items, table.Keys);
      var k :| 0 <= k < |items| && items[k].Label? && items[k].name !in table;
      assert LabelUsed(sections, i, p, k);
    } else {
      forall i, p, k | LabelUsed(sections, i, p, k) ensures UsedLabel(sections, i, p, k) in table {
        assert LabelsOnly(Line(sections[i].lines[p]), table.Keys);
      }
    }
  }

  /** A listing is rejected exactly when a label is defined twice or used without being defined. */
  lemma RejectedExactly(sections: seq<Section>)
    ensures Accepted(sections) <==> (forall name :: !DefinedTwice(sections, name)) && !UsesUndefined(sections)
  {
    DuplicatesAreFound(sections);
    DefinitionsDescribed(sections, |sections|);
    if DefineSections(sections, |sections|).Ok? {
      var table := DefineSections(sections, |sections|).value;
      UndefinedIffUnlisted(table, sections);
      CollectedIffDefined(sections, table);
    }
  }

  lemma CollectedIffDefined(sections: seq<Section>, table: Table)
    ensures Collected(Parts(sections, table)).Ok? <==>
              forall i | 0 <= i < |sections| :: LabelsDefined(sections[i], table)
  {
    var parts := Parts(sections, table);
    forall i | 0 <= i < |sections| ensures parts[i].lines.Ok? <==> LabelsDefined(sections[i], table) {
      ContributionIsChunk(sections, i, table);
    }
    if Collected(parts).Ok? {
      CollectedDefined(parts);
    }
    if forall i | 0 <= i < |sections| :: LabelsDefined(sections[i], table) {
      CollectedBodies(parts, "");
    }
  }
}
