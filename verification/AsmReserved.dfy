/** Why listings must not spell the comparator's own marks: a spelled mark is written like the label it stands
    for, and a spelled attribute line like the start of another section. */
module AsmReserved {
  import opened Protocol
  import opened Decimal
  import opened AsmText
  import opened AsmMarkers
  import opened AsmContent
  import opened AsmReading
  import opened AsmFile
  import opened AsmLabels
  import opened AsmBodies
  import opened AsmAlpha
  import opened AsmRename
  import opened AsmHashes
  import opened AsmCompare
  import opened AsmBrackets
  import opened AsmBracketFiles

  const DEFINITION: string := OtherLabel + ":"

  /** A jump to a label of its own section, and one to a label of another. */
  function Near(a: string, jump: string): seq<Section> { [Section(a, "", [DEFINITION, jump])] }

  function Far(a: string, b: string, jump: string): seq<Section> {
    [Section(a, "", [DEFINITION]), Section(b, "", [jump])]
  }

  /** A jump that spells its target instead of naming a label. */
  function Spelled(mark: string): string { "j" + (" " + mark) }

  // ---------------------------------------------------------------- the lines

  /** Without a dot there is no local label. */
  lemma {:induction false} DotlessIsPlain(s: string, quiet: nat)
    requires '.' !in s && quiet <= |s|
    ensures Items(s, quiet) == Plain(s)
  {
    if s != [] {
      FirstItem(s, quiet);
      if StartsLabel(s, quiet) {
        StartsWithDot(s);
      }
      DotlessIsPlain(s[1..], NextQuiet(s, quiet));
      assert Plain(s) == [Ch(s[0])] + Plain(s[1..]);
    }
  }

  lemma StartsWithDot(s: string)
    requires s != [] && IsLocal(s[..SymbolLength(s)])
    ensures '.' in s
  {
    assert s[..SymbolLength(s)][..2][0] == s[0];
  }

  /** Text that is read without any label in it. */
  predicate NamesNoLabel(s: string) { Line(s) == Plain(s) }

  lemma SpelledLine(mark: string)
    requires NamesNoLabel(mark)
    ensures NamesNoLabel(Spelled(mark)) && DefinedLabel(Spelled(mark)) == None
    ensures LabelsOnly(Content(Spelled(mark)), {})
  {
    SpelledReads(mark);
    LineDefines(Spelled(mark));
    ErasedLabels(Plain(Spelled(mark)), 0, {});
  }

  lemma PlainFront(c: char, s: string)
    ensures Plain([c] + s) == [Ch(c)] + Plain(s)
  {
  }

  lemma SpelledReads(mark: string)
    requires NamesNoLabel(mark)
    ensures NamesNoLabel(Spelled(mark))
  {
    AfterBlank(mark);
    AfterJ(mark);
    PlainFront(' ', mark);
    PlainFront('j', " " + mark);
  }

  lemma NothingAdded(mark: string)
    ensures Jump(mark, "") == Spelled(mark)
  {
    assert mark + "" == mark;
  }

  lemma JumpLine()
    ensures DefinedLabel(Jump(OtherLabel, "")) == None
    ensures Line(Jump(OtherLabel, "")) == [Ch('j'), Ch(' '), Label(OtherLabel)]
    ensures !LabelsOnly(Content(Jump(OtherLabel, "")), {}) && |Content(Jump(OtherLabel, ""))| == 3
  {
    LabelsAreNames(0);
    NothingBehind();
    JumpDefinesNothing(OtherLabel, "");
    JumpItems(OtherLabel, "");
    var items := [Ch('j'), Ch(' '), Label(OtherLabel)];
    assert items + Plain("") == items;
    assert items[1..] == [Ch(' '), Label(OtherLabel)] && items[1..][1..] == [Label(OtherLabel)];
    FirstErased(items, 0);
    FirstErased(items[1..], 0);
    FirstErased([Label(OtherLabel)], 0);
    assert ErasedItems(items, 0)[2] == Label(OtherLabel);
  }

  /** Both are written alike where the label stands for the mark. */
  lemma WrittenAlike(mark: string, table: Table, here: nat)
    requires NamesNoLabel(mark) && CanonText(table, here)(OtherLabel) == mark
    ensures CanonicalLine(Jump(OtherLabel, ""), table, here) == CanonicalLine(Spelled(mark), table, here)
  {
    var text := CanonText(table, here);
    LabelsAreNames(0);
    NothingBehind();
    JumpText(OtherLabel, "", text);
    NothingAdded(mark);
    SpelledReads(mark);
    RenderPlain(Spelled(mark), text);
  }

  // ---------------------------------------------------------------- listings with one label

  /** The only definition is that of the first line. */
  predicate OneLabel(F: seq<Section>) {
    && F != [] && F[0].lines != [] && F[0].lines[0] == DEFINITION
    && forall i, p | 0 <= i < |F| && 0 <= p < |F[i].lines| && (i, p) != (0, 0) :: DefinedLabel(F[i].lines[p]) == None
  }

  lemma TableOfOne(F: seq<Section>)
    requires OneLabel(F)
    ensures DefineSections(F, |F|).Ok? && OtherLabel in TableOf(F)
    ensures TableOf(F)[OtherLabel] == Definition(0, SectionKey(Canon(F[0]), 0), 0)
  {
    DefinitionDefines(0);
    forall name ensures !DefinedTwice(F, name) {
      forall i: nat, p: nat, j: nat, q: nat | DefinedAt(F, i, p, name) && DefinedAt(F, j, q, name)
        ensures (i, p) == (j, q)
      {
        assert (i, p) == (0, 0) && (j, q) == (0, 0);
      }
    }
    DuplicatesAreFound(F);
    DefinitionsDescribed(F, |F|);
    assert DefinedAt(F, 0, 0, OtherLabel);
    InTable(TableOf(F), F, 0, 0, OtherLabel);
    assert F[..0] == [];
  }

  /** The same name and attributes, and line for line the same definitions and the same canonical text. */
  predicate SectionsWritten(s: Section, t: Section, table: Table, here: nat) {
    && SameDefinedLabels(s, t) && s.attrs == t.attrs && LabelsDefined(s, table) && LabelsDefined(t, table)
    && forall p | 0 <= p < |s.lines| :: CanonicalLine(s.lines[p], table, here) == CanonicalLine(t.lines[p], table, here)
  }

  predicate WrittenTheSame(F: seq<Section>, G: seq<Section>, table: Table) {
    |F| == |G| && forall i | 0 <= i < |F| :: SectionsWritten(F[i], G[i], table, i)
  }

  lemma SamePart(F: seq<Section>, G: seq<Section>, table: Table, i: nat)
    requires WrittenTheSame(F, G, table) && i < |F|
    ensures Parts(F, table)[i] == Parts(G, table)[i]
  {
    ContributionIsChunk(F, i, table);
    ContributionIsChunk(G, i, table);
    assert Chunk(F, table, i) == Chunk(G, table, i);
  }

  lemma SameParts(F: seq<Section>, G: seq<Section>, table: Table)
    requires WrittenTheSame(F, G, table)
    ensures Parts(F, table) == Parts(G, table)
  {
    forall i | 0 <= i < |F| ensures Parts(F, table)[i] == Parts(G, table)[i] {
      SamePart(F, G, table, i);
    }
  }

  lemma AcceptedWhenDefined(F: seq<Section>)
    requires DefineSections(F, |F|).Ok? && forall i | 0 <= i < |F| :: LabelsDefined(F[i], TableOf(F))
    ensures Accepted(F)
  {
    CollectedIffDefined(F, TableOf(F));
    OutcomeIs(F);
  }

  lemma SameOutcome(F: seq<Section>, G: seq<Section>)
    requires DefineSections(F, |F|).Ok? && WrittenTheSame(F, G, TableOf(F))
    ensures Accepted(F) && Accepted(G) && Outcome(F) == Outcome(G)
  {
    SameDefinitions(F, G, |F|);
    SameParts(F, G, TableOf(F));
    AcceptedWhenDefined(F);
    OutcomeIs(F);
    OutcomeIs(G);
  }

  /** A label in one line and none in the other. */
  lemma NotAlike(F: seq<Section>, G: seq<Section>, i: nat, p: nat)
    requires AllSameDefinedLabels(F, G) && i < |F| && p < |F[i].lines|
    requires !LabelsOnly(Content(F[i].lines[p]), {}) && LabelsOnly(Content(G[i].lines[p]), {})
    ensures !AlphaEquivalent(F, G)
  {
    SameNamesSameKey(F, G, i);
    assert Partners(F, i, G, i);
    var content := Content(F[i].lines[p]);
    var k :| 0 <= k < |content| && content[k].Label?;
    forall r ensures !MatchedBy(F, G, r) {
      MapLabelsAt(content, Rename(r), k);
      assert !SameSection(F[i], G[i], r);
    }
  }

  // ---------------------------------------------------------------- each mark has to be excluded

  lemma LocalMarkNamesNoLabel(n: nat)
    ensures NamesNoLabel(LocalMarker(n))
  {
    NotAmongDigits(n, '.');
    DotlessIsPlain(LocalMarker(n), 0);
  }

  lemma TwoLinesWritten(mark: string, table: Table, here: nat)
    requires NamesNoLabel(mark) && CanonText(table, here)(OtherLabel) == mark && OtherLabel in table
    ensures LineDefined(DEFINITION, table)
    ensures LineDefined(Jump(OtherLabel, ""), table) && LineDefined(Spelled(mark), table)
    ensures DefinedLabel(DEFINITION) == Some(OtherLabel)
    ensures DefinedLabel(Jump(OtherLabel, "")) == None == DefinedLabel(Spelled(mark))
    ensures CanonicalLine(Jump(OtherLabel, ""), table, here) == CanonicalLine(Spelled(mark), table, here)
  {
    SpelledLine(mark);
    JumpLine();
    LabelsAreNames(0);
    DefinitionDefines(0);
    DefinitionDefined(OtherLabel, table);
    WrittenAlike(mark, table, here);
  }

  lemma DefinitionIsClean()
    ensures CleanLine(DEFINITION) && CleanLine(Jump(OtherLabel, ""))
  {
    LabelsAreNames(0);
    DefinitionClean(OtherLabel);
    NothingBehind();
    JumpIsClean(OtherLabel, "");
  }

  lemma OnlyOneLabel(a: string, b: string, j: string)
    requires DefinedLabel(j) == None
    ensures OneLabel(Near(a, j)) && OneLabel(Far(a, b, j))
  {
  }

  /** A section in which one line is replaced by a line with the same canonical text. */
  lemma SectionWritten(s: Section, t: Section, table: Table, here: nat, q: nat)
    requires q < |s.lines| == |t.lines| && t == s.(lines := s.lines[q := t.lines[q]])
    requires DefinedLabel(s.lines[q]) == DefinedLabel(t.lines[q])
    requires LabelsDefined(s, table) && LineDefined(t.lines[q], table)
    requires CanonicalLine(s.lines[q], table, here) == CanonicalLine(t.lines[q], table, here)
    ensures SectionsWritten(s, t, table, here)
  {
  }

  lemma SameWritten(s: Section, table: Table, here: nat)
    requires LabelsDefined(s, table)
    ensures SectionsWritten(s, s, table, here)
  {
  }

  lemma NearLines(a: string, j: string, k: string, table: Table)
    requires DefinedLabel(j) == DefinedLabel(k) && CanonicalLine(j, table, 0) == CanonicalLine(k, table, 0)
    requires LineDefined(DEFINITION, table) && LineDefined(j, table) && LineDefined(k, table)
    ensures WrittenTheSame(Near(a, j), Near(a, k), table)
  {
    SectionWritten(Near(a, j)[0], Near(a, k)[0], table, 0, 1);
  }

  lemma FarLines(a: string, b: string, j: string, k: string, table: Table)
    requires DefinedLabel(j) == DefinedLabel(k) && CanonicalLine(j, table, 1) == CanonicalLine(k, table, 1)
    requires LineDefined(DEFINITION, table) && LineDefined(j, table) && LineDefined(k, table)
    ensures WrittenTheSame(Far(a, b, j), Far(a, b, k), table)
  {
    SameWritten(Far(a, b, j)[0], table, 0);
    SectionWritten(Far(a, b, j)[1], Far(a, b, k)[1], table, 1, 0);
  }

  lemma NearWritten(a: string, table: Table)
    requires OtherLabel in table && table[OtherLabel].owner == 0 && table[OtherLabel].ordinal == 0
    ensures WrittenTheSame(Near(a, Jump(OtherLabel, "")), Near(a, Spelled(LocalMarker(0))), table)
  {
    LocalMarkNamesNoLabel(0);
    TwoLinesWritten(LocalMarker(0), table, 0);
    NearLines(a, Jump(OtherLabel, ""), Spelled(LocalMarker(0)), table);
  }

  lemma NearSpelled(a: string)
    requires OneLabel(Near(a, Jump(OtherLabel, "")))
    ensures var F, G := Near(a, Jump(OtherLabel, "")), Near(a, Spelled(LocalMarker(0)));
            Accepted(F) && Accepted(G) && Outcome(F) == Outcome(G) && !AlphaEquivalent(F, G)
  {
    var F, G := Near(a, Jump(OtherLabel, "")), Near(a, Spelled(LocalMarker(0)));
    TableOfOne(F);
    NearWritten(a, TableOf(F));
    SameOutcome(F, G);
    LocalMarkNamesNoLabel(0);
    SpelledLine(LocalMarker(0));
    JumpLine();
    NotAlike(F, G, 0, 1);
  }

  /** A spelled local mark: equal outputs, yet only one of the listings follows its label. */
  lemma SpelledLocalMarkBreaksSoundness(a: string)
    ensures var F, G := Near(a, Jump(OtherLabel, "")), Near(a, Spelled(LocalMarker(0)));
            Accepted(F) && Accepted(G) && Unmarked(F) && Outcome(F) == Outcome(G) && !AlphaEquivalent(F, G)
  {
    JumpLine();
    OnlyOneLabel(a, a, Jump(OtherLabel, ""));
    NearSpelled(a);
    DefinitionIsClean();
  }

  lemma FarWritten(a: string, b: string, mark: string, table: Table)
    requires NamesNoLabel(mark) && OtherLabel in table && CanonText(table, 1)(OtherLabel) == mark
    ensures WrittenTheSame(Far(a, b, Jump(OtherLabel, "")), Far(a, b, Spelled(mark)), table)
  {
    TwoLinesWritten(mark, table, 1);
    FarLines(a, b, Jump(OtherLabel, ""), Spelled(mark), table);
  }

  lemma FarSpelled(a: string, b: string, mark: string)
    requires NamesNoLabel(mark)
    requires var F := Far(a, b, Jump(OtherLabel, "")); CanonText(TableOf(F), 1)(OtherLabel) == mark && OneLabel(F)
    ensures var F, G := Far(a, b, Jump(OtherLabel, "")), Far(a, b, Spelled(mark));
            Accepted(F) && Accepted(G) && Outcome(F) == Outcome(G) && !AlphaEquivalent(F, G)
  {
    var F, G := Far(a, b, Jump(OtherLabel, "")), Far(a, b, Spelled(mark));
    TableOfOne(F);
    FarWritten(a, b, mark, TableOf(F));
    SameOutcome(F, G);
    SpelledLine(mark);
    JumpLine();
    NotAlike(F, G, 1, 0);
  }

  /** A spelled reference, unless the name of the section referred to reads as a label itself. */
  lemma SpelledReferenceBreaksSoundness(a: string, b: string)
    requires NamesNoLabel(RefMarker(SectionKey(EraseAll(a), 0), 0))
    ensures var F := Far(a, b, Jump(OtherLabel, ""));
            var G := Far(a, b, Spelled(RefMarker(SectionKey(EraseAll(a), 0), 0)));
            Accepted(F) && Accepted(G) && Unmarked(F) && Outcome(F) == Outcome(G) && !AlphaEquivalent(F, G)
  {
    var F := Far(a, b, Jump(OtherLabel, ""));
    JumpLine();
    OnlyOneLabel(a, b, Jump(OtherLabel, ""));
    TableOfOne(F);
    var mark := RefMarker(SectionKey(EraseAll(a), 0), 0);
    FarSpelled(a, b, mark);
    DefinitionIsClean();
  }

  // ---------------------------------------------------------------- the attribute line

  lemma NoLabels(F: seq<Section>)
    requires forall i, p | 0 <= i < |F| && 0 <= p < |F[i].lines| :: LabelsOnly(Line(F[i].lines[p]), {})
    ensures DefineSections(F, |F|) == Ok(map[]) && forall i | 0 <= i < |F| :: LabelsDefined(F[i], map[])
  {
    forall i, p | 0 <= i < |F| && 0 <= p < |F[i].lines| ensures DefinedLabel(F[i].lines[p]) == None {
      LineDefines(F[i].lines[p]);
    }
    DuplicatesAreFound(F);
    DefinitionsDescribed(F, |F|);
    if x :| x in TableOf(F) {
      var i, p := Located(TableOf(F), F, x);
    }
  }

  /** The attribute line spelled in a section, and a second section of the same name. */
  function OneSection(a: string): seq<Section> { [Section(a, "", [ATTRS_MARK])] }

  function TwoSections(a: string): seq<Section> { [Section(a, "", []), Section(a, "", [])] }

  lemma MarkReads(text: string -> string)
    ensures NamesNoLabel(ATTRS_MARK) && Render(Line(ATTRS_MARK), text) == ATTRS_MARK
  {
    DotlessIsPlain(ATTRS_MARK, 0);
    RenderPlain(ATTRS_MARK, text);
  }

  lemma MarkStays()
    ensures NormalizeHashes(ATTRS_MARK) == ATTRS_MARK
  {
    assert forall i | 0 <= i < |ATTRS_MARK| :: ATTRS_MARK[i] != 'h' && ATTRS_MARK[i] != '"';
    WithoutHIsInert(ATTRS_MARK);
    InertSkips(ATTRS_MARK, "");
    assert ATTRS_MARK + "" == ATTRS_MARK && ATTRS_MARK + Erased("", 0) == ATTRS_MARK;
  }

  lemma NoAttributes()
    ensures ATTRS_MARK + NormalizeHashes(Strip("")) == ATTRS_MARK
  {
    assert Strip("") == "";
  }

  lemma MarkLine(table: Table, here: nat)
    ensures CanonicalLine(ATTRS_MARK, table, here) == ATTRS_MARK
  {
    MarkReads(CanonText(table, here));
    MarkStays();
  }

  lemma OneMorePart(parts: seq<Part>, part: Part)
    requires Collected(parts).Ok?
    ensures Collected(parts + [part]) == Added(Collected(parts).value, part.name, part.lines)
  {
    assert (parts + [part])[..|parts|] == parts;
  }

  lemma AddedTwice(p: Parsed, name: string, x: seq<string>, y: seq<string>)
    requires name !in p.funcs && name !in p.blocks
    ensures var once := Added(p, name, Ok(x));
            once.Ok? && Added(once.value, name, Ok(y)) == Added(p, name, Ok(x + y))
  {
    assert [] + x == x && [] + (x + y) == x + y;
    assert Joined(Joined(p.funcs, name, x), name, y) == Joined(p.funcs, name, x + y);
    assert Joined(Joined(p.blocks, name, x), name, y) == Joined(p.blocks, name, x + y);
  }

  /** Two contributions to one name are one contribution of all their lines. */
  lemma JoinedParts(name: string, x: seq<string>, y: seq<string>)
    ensures Collected([Part(name, Ok(x)), Part(name, Ok(y))]) == Collected([Part(name, Ok(x + y))])
    ensures Collected([Part(name, Ok(x + y))]).Ok?
  {
    var none := Collected([]).value;
    OneMorePart([], Part(name, Ok(x)));
    OneMorePart([], Part(name, Ok(x + y)));
    AddedTwice(none, name, x, y);
    OneMorePart([] + [Part(name, Ok(x))], Part(name, Ok(y)));
    assert [] + [Part(name, Ok(x + y))] == [Part(name, Ok(x + y))];
    assert [] + [Part(name, Ok(x))] + [Part(name, Ok(y))] == [Part(name, Ok(x)), Part(name, Ok(y))];
  }

  lemma PartIs(F: seq<Section>, i: nat)
    requires i < |F| && LabelsDefined(F[i], map[]) && F[i].attrs == ""
    requires forall p | 0 <= p < |F[i].lines| :: F[i].lines[p] == ATTRS_MARK
    ensures var part := Parts(F, map[])[i];
            && part.name == Canon(F[i]) && part.lines.Ok? && |part.lines.value| == |F[i].lines| + 1
            && forall k | 0 <= k <= |F[i].lines| :: part.lines.value[k] == ATTRS_MARK
  {
    ContributionIsChunk(F, i, map[]);
    NoAttributes();
    MarkLine(map[], i);
  }

  lemma OneMark(lines: seq<string>)
    requires |lines| == 1 && lines[0] == ATTRS_MARK
    ensures lines == [ATTRS_MARK]
  {
  }

  lemma TwoMarks(lines: seq<string>)
    requires |lines| == 2 && lines[0] == ATTRS_MARK && lines[1] == ATTRS_MARK
    ensures lines == [ATTRS_MARK] + [ATTRS_MARK]
  {
  }

  lemma OnlyMark(a: string, i: int, p: int)
    requires 0 <= i < |OneSection(a)| && 0 <= p < |OneSection(a)[i].lines|
    ensures OneSection(a)[i].lines[p] == ATTRS_MARK
  {
  }

  lemma OneTable(a: string)
    ensures DefineSections(OneSection(a), |OneSection(a)|) == Ok(map[])
    ensures |OneSection(a)| == 1 && LabelsDefined(OneSection(a)[0], map[])
  {
    var F := OneSection(a);
    MarkReads(x => x);
    forall i, p | 0 <= i < |F| && 0 <= p < |F[i].lines| ensures LabelsOnly(Line(F[i].lines[p]), {}) {
      OnlyMark(a, i, p);
    }
    NoLabels(F);
  }

  lemma OnePart(a: string)
    ensures Parts(OneSection(a), map[]) == [Part(EraseAll(a), Ok([ATTRS_MARK] + [ATTRS_MARK]))]
  {
    OneTable(a);
    forall p | 0 <= p < |OneSection(a)[0].lines| ensures OneSection(a)[0].lines[p] == ATTRS_MARK {
      OnlyMark(a, 0, p);
    }
    PartIs(OneSection(a), 0);
    TwoMarks(Parts(OneSection(a), map[])[0].lines.value);
  }

  lemma TwoParts(a: string)
    ensures Parts(TwoSections(a), map[]) == [Part(EraseAll(a), Ok([ATTRS_MARK])), Part(EraseAll(a), Ok([ATTRS_MARK]))]
    ensures DefineSections(TwoSections(a), |TwoSections(a)|) == Ok(map[])
  {
    var F := TwoSections(a);
    NoLabels(F);
    PartIs(F, 0);
    PartIs(F, 1);
    OneMark(Parts(F, map[])[0].lines.value);
    OneMark(Parts(F, map[])[1].lines.value);
  }

  lemma SameSectionBodies(a: string)
    ensures var F, G := OneSection(a), TwoSections(a); Accepted(F) && Accepted(G) && Outcome(F) == Outcome(G)
  {
    OneTable(a);
    OnePart(a);
    TwoParts(a);
    JoinedParts(EraseAll(a), [ATTRS_MARK], [ATTRS_MARK]);
    OutcomeIs(OneSection(a));
    OutcomeIs(TwoSections(a));
  }

  lemma NoPartner(a: string)
    ensures !AlphaEquivalent(OneSection(a), TwoSections(a))
  {
    SecondOccurrence(a);
    assert !HasPartner(TwoSections(a), 1, OneSection(a));
  }

  /** A spelled attribute line: equal outputs, yet only one of the listings has a second section. */
  lemma SpelledAttributesBreakSoundness(a: string)
    ensures var F, G := OneSection(a), TwoSections(a);
            Accepted(F) && Accepted(G) && Unmarked(G) && Outcome(F) == Outcome(G) && !AlphaEquivalent(F, G)
  {
    SameSectionBodies(a);
    NoPartner(a);
  }

  lemma SecondOccurrence(a: string)
    ensures Occurrence(TwoSections(a), 1) == 1 && Occurrence(OneSection(a), 0) == 0
  {
    assert TwoSections(a)[..1] == [Section(a, "", [])] && OneSection(a)[..0] == [];
    CountOf([Section(a, "", [])], EraseAll(a), EraseAll(a));
  }

  // ---------------------------------------------------------------- written out as files

  predicate AllWritable(F: seq<Section>) { F != [] && forall i | 0 <= i < |F| :: Writable(F[i]) }

  lemma ExitsZero(F: seq<Section>, G: seq<Section>)
    requires AllWritable(F) && AllWritable(G) && Accepted(F) && Accepted(G) && Outcome(F) == Outcome(G)
    ensures SectionsOf(FileOf(F)) == F && SectionsOf(FileOf(G)) == G && Verdict([FileOf(F)], [FileOf(G)]) == 0
  {
    FileScans(F);
    FileScans(G);
    SameOutcomeExitsZero(FileOf(F), FileOf(G));
  }

  lemma LabelLinesAreContent()
    ensures IsContent(DEFINITION) && IsContent(Jump(OtherLabel, ""))
  {
    LabelsAreNames(0);
    DefinitionIsContent(OtherLabel);
    JumpIsContent(OtherLabel, "");
  }

  lemma SpelledIsContent(mark: string)
    requires mark != "" && !IsSpace(Last(mark))
    ensures IsContent(Spelled(mark))
  {
    PlainlyContent(Spelled(mark));
  }

  lemma MarksEnd(key: string, n: nat)
    ensures LocalMarker(n) != "" && !IsSpace(Last(LocalMarker(n)))
    ensures RefMarker(key, n) != "" && !IsSpace(Last(RefMarker(key, n)))
  {
    assert Last(LocalMarker(n)) == Last(Print(n));
  }

  lemma WritableWith(a: string, b: string, j: string)
    requires DirectiveName(a) && DirectiveName(b) && IsContent(DEFINITION) && IsContent(j)
    ensures AllWritable(Near(a, j)) && AllWritable(Far(a, b, j))
  {
  }

  /** The comparator exits 0 on the files, for every section name. */
  lemma SpelledLocalMarkExitsZero(a: string)
    requires DirectiveName(a)
    ensures Verdict([FileOf(Near(a, Jump(OtherLabel, "")))], [FileOf(Near(a, Spelled(LocalMarker(0))))]) == 0
  {
    MarksEnd("", 0);
    LabelLinesAreContent();
    SpelledIsContent(LocalMarker(0));
    WritableWith(a, a, Jump(OtherLabel, ""));
    WritableWith(a, a, Spelled(LocalMarker(0)));
    SpelledLocalMarkBreaksSoundness(a);
    ExitsZero(Near(a, Jump(OtherLabel, "")), Near(a, Spelled(LocalMarker(0))));
  }

  lemma SpelledReferenceExitsZero(a: string, b: string)
    requires DirectiveName(a) && DirectiveName(b) && NamesNoLabel(RefMarker(SectionKey(EraseAll(a), 0), 0))
    ensures var mark := RefMarker(SectionKey(EraseAll(a), 0), 0);
            Verdict([FileOf(Far(a, b, Jump(OtherLabel, "")))], [FileOf(Far(a, b, Spelled(mark)))]) == 0
  {
    var key := SectionKey(EraseAll(a), 0);
    MarksEnd(key, 0);
    LabelLinesAreContent();
    SpelledIsContent(RefMarker(key, 0));
    WritableWith(a, b, Jump(OtherLabel, ""));
    WritableWith(a, b, Spelled(RefMarker(key, 0)));
    SpelledReferenceBreaksSoundness(a, b);
    ExitsZero(Far(a, b, Jump(OtherLabel, "")), Far(a, b, Spelled(RefMarker(key, 0))));
  }

  lemma MarkIsContent()
    ensures IsContent(ATTRS_MARK)
  {
    assert ATTRS_MARK[0] == '_' == Last(ATTRS_MARK);
    PlainlyContent(ATTRS_MARK);
  }

  lemma SectionsWritable(a: string)
    requires DirectiveName(a) && IsContent(ATTRS_MARK)
    ensures AllWritable(OneSection(a)) && AllWritable(TwoSections(a))
  {
  }

  lemma SpelledAttributesExitZero(a: string)
    requires DirectiveName(a)
    ensures Verdict([FileOf(OneSection(a))], [FileOf(TwoSections(a))]) == 0
  {
    MarkIsContent();
    SectionsWritable(a);
    SpelledAttributesBreakSoundness(a);
    ExitsZero(OneSection(a), TwoSections(a));
  }
}
