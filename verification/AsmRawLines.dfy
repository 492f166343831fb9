/** What each kind of raw line does to the exit code, with the kinds told by what is written on the line. */
module AsmRawLines {
  import opened Protocol
  import opened Decimal
  import opened AsmText
  import opened AsmMarkers
  import opened AsmContent
  import opened AsmReading
  import opened AsmFile
  import opened AsmBlanks
  import opened AsmLabels
  import opened AsmBodies
  import opened AsmAlpha
  import opened AsmRename
  import opened AsmHashes
  import opened AsmAttributes
  import opened AsmGather
  import opened AsmCompare
  import opened AsmBrackets
  import opened AsmBracketFiles
  import opened AsmReserved
  import opened AsmListing

  // ---------------------------------------------------------------- blanks and names

  const SPACES: string :=
    "\t\n\U{b}\U{c}\r\U{1c}\U{1d}\U{1e}\U{1f} \U{85}\U{a0}\U{1680}\U{2000}\U{2001}\U{2002}\U{2003}\U{2004}"
    + "\U{2005}\U{2006}\U{2007}\U{2008}\U{2009}\U{200a}\U{2028}\U{2029}\U{202f}\U{205f}\U{3000}"

  lemma SpacesExactly(c: char)
    ensures IsSpace(c) <==> c in SPACES
  {
  }

  /** The characters of a section name: all but blanks, quotes and commas. */
  lemma NameCharactersExactly(c: char)
    ensures NameChar(c) <==> c !in SPACES && c !in "\","
  {
    SpacesExactly(c);
  }

  // ---------------------------------------------------------------- kinds of lines, by their text

  /** A text that names the compilation unit's file. */
  predicate NamesFile(t: string) { StartsWith(t, ".file") && (|t| > 5 ==> !WordChar(t[5])) }

  /** A line that carries nothing to compare: blank, a comment, call frame information, or a file name. */
  predicate SilentText(t: string) { t == "" || t[0] == '#' || StartsWith(t, ".cfi_") || NamesFile(t) }

  predicate BareText(t: string) { t == ".text" || t == ".data" || t == ".bss" }

  ghost predicate IsSilent(line: string) { exists l, t, r :: StrippedAs(line, l, t, r) && SilentText(t) }

  ghost predicate IsBare(line: string) { exists l, t, r :: StrippedAs(line, l, t, r) && BareText(t) }

  /** Anything else, except a section directive, which has exactly one tab in front, is compared: this text
      with blanks around it. */
  ghost predicate Compared(line: string, t: string) {
    && !SilentText(t) && !BareText(t) && !StartsWith(line, DIRECTIVE)
    && exists l, r :: StrippedAs(line, l, t, r)
  }

  lemma {:induction false} AllBlank(s: string)
    requires Blank(s)
    ensures TrimLeft(s) == ""
  {
    if s != "" {
      BlankTail(s);
      AllBlank(s[1..]);
    }
  }

  const DIRECTIVE: string := "\t.section\t"

  lemma BlankLine(line: string, l: string, r: string)
    requires StrippedAs(line, l, "", r)
    ensures Classify(line) == Skipped
  {
    assert line == l + r;
    forall i | 0 <= i < |line| ensures IsSpace(line[i]) {
    }
    AllBlank(line);
    DiffersAt(line, DIRECTIVE, 1);
  }

  /** A front without blanks stands in the text, not in the blanks behind it. */
  lemma FrontInText(t: string, r: string, m: string)
    requires Blank(r) && forall i | 0 <= i < |m| :: !IsSpace(m[i])
    ensures StartsWith(t + r, m) <==> StartsWith(t, m)
  {
    if |t| < |m| {
      DiffersAt(t + r, m, |t|);
    } else {
      assert (t + r)[..|m|] == t[..|m|];
    }
  }

  lemma FileDirectiveIs(line: string, l: string, t: string, r: string)
    requires StrippedAs(line, l, t, r) && t != ""
    ensures IsFileDirective(line) <==> NamesFile(t)
  {
    StripOf(line, l, t, r);
    FrontInText(t, r, ".file");
    if |t| == 5 && r != "" {
      BlankTail(r);
      assert (t + r)[5] == r[0];
    } else if |t| > 5 {
      assert (t + r)[5] == t[5];
    }
  }

  /** A section directive has exactly one tab in front. */
  lemma DirectiveShape(line: string, l: string, t: string, r: string)
    requires StrippedAs(line, l, t, r) && t != ""
    ensures StartsWith(line, DIRECTIVE) ==> StartsWith(t, ".section")
  {
    if |l| == 0 {
      assert line[0] == t[0];
      DiffersAt(line, DIRECTIVE, 0);
    } else if |l| > 1 {
      assert IsSpace(l[1]) && line[1] == l[1];
      DiffersAt(line, DIRECTIVE, 1);
    } else {
      assert line[1..] == t + r;
      FrontInText(t, r, ".section");
      if StartsWith(line, DIRECTIVE) {
        assert (t + r)[..8] == line[..10][1..9] == ".section";
      }
    }
  }

  lemma SilentIs(line: string)
    requires IsSilent(line)
    ensures Classify(line) == Skipped || Classify(line) == FileDirective
  {
    var l, t, r :| StrippedAs(line, l, t, r) && SilentText(t);
    if t == "" {
      BlankLine(line, l, r);
    } else {
      StripOf(line, l, t, r);
      FileDirectiveIs(line, l, t, r);
      DirectiveShape(line, l, t, r);
      if !NamesFile(t) {
        SilentStart(t);
      }
    }
  }

  lemma SilentStart(t: string)
    requires t != "" && SilentText(t) && !NamesFile(t)
    ensures !StartsWith(t, ".section") && !BareText(t) && (StartsWith(t, "#") || StartsWith(t, ".cfi_"))
  {
    if t[0] == '#' {
      assert t[..1] == "#";
      DiffersAt(t, ".section", 0);
    } else {
      StartsAt(t, ".cfi_", 1);
      DiffersAt(t, ".section", 1);
    }
  }

  lemma BareIs(line: string)
    requires IsBare(line)
    ensures Classify(line) == BareSection
  {
    var l, t, r :| StrippedAs(line, l, t, r) && BareText(t);
    StripOf(line, l, t, r);
    FileDirectiveIs(line, l, t, r);
    DirectiveShape(line, l, t, r);
    DiffersAt(t, ".section", 1);
    DiffersAt(t, ".file", 1);
  }

  lemma ComparedIs(line: string, t: string)
    requires Compared(line, t)
    ensures Classify(line) == ContentLine(t)
  {
    var l, r :| StrippedAs(line, l, t, r);
    StripOf(line, l, t, r);
    FileDirectiveIs(line, l, t, r);
    DiffersAt(t, "#", 0);
  }

  // ---------------------------------------------------------------- silent lines

  /** The second listing is the first with any number of silent lines in between. */
  ghost predicate Interspersed(file: File, other: File)
    decreases |other|
  {
    if other == [] then file == []
    else
      || (file != [] && Last(file) == Last(other) && Interspersed(file[..|file| - 1], other[..|other| - 1]))
      || (IsSilent(Last(other)) && Interspersed(file, other[..|other| - 1]))
  }

  lemma {:induction false} InterspersedScans(file: File, other: File)
    requires Interspersed(file, other)
    ensures ScanFile(file) == ScanFile(other)
    decreases |other|
  {
    if other != [] {
      var front := other[..|other| - 1];
      if file != [] && Last(file) == Last(other) && Interspersed(file[..|file| - 1], front) {
        InterspersedScans(file[..|file| - 1], front);
      } else {
        InterspersedScans(file, front);
        SilentIs(Last(other));
      }
    }
  }

  ghost predicate AllInterspersed(files: seq<File>, others: seq<File>) {
    |files| == |others| && forall i | 0 <= i < |files| :: Interspersed(files[i], others[i])
  }

  lemma SameParsings(files: seq<File>, others: seq<File>)
    requires AllInterspersed(files, others)
    ensures Parsings(files) == Parsings(others)
  {
    forall i | 0 <= i < |files| ensures Parsings(files)[i] == Parsings(others)[i] {
      assert Interspersed(files[i], others[i]);
      InterspersedScans(files[i], others[i]);
    }
  }

  /** Blank lines, comments, call frame information and file names never change the exit code, wherever and
      however many of them stand in the listings. */
  lemma SilentLinesDoNotMatter(a: seq<File>, a': seq<File>, b: seq<File>, b': seq<File>)
    requires AllInterspersed(a, a') && AllInterspersed(b, b')
    ensures Verdict(a, b) == Verdict(a', b')
  {
    SameParsings(a, a');
    SameParsings(b, b');
  }

  // ---------------------------------------------------------------- lines that cannot be attributed

  lemma {:induction false} StaysUntrusted(front: File, back: File)
    requires ScanFile(front).untrusted
    ensures ScanFile(front + back).untrusted
  {
    if back == [] {
      assert front + back == front;
    } else {
      assert (front + back)[..|front + back| - 1] == front + back[..|back| - 1];
      StaysUntrusted(front, back[..|back| - 1]);
    }
  }

  lemma {:induction false} NoSectionYet(front: File)
    requires forall k | 0 <= k < |front| :: !StartsWith(front[k], DIRECTIVE)
    ensures ScanFile(front).current.None?
  {
    if front != [] {
      NoSectionYet(front[..|front| - 1]);
      assert !StartsWith(front[|front| - 1], DIRECTIVE);
    }
  }

  lemma AfterLine(front: File, line: string, back: File)
    ensures front + [line] + back == (front + [line]) + back
    ensures ScanFile(front + [line]) == ScanLine(ScanFile(front), line)
  {
    assert (front + [line])[..|front|] == front;
  }

  lemma UntrustedFileRefused(files: seq<File>, i: nat)
    requires i < |files| && ScanFile(files[i]).untrusted
    ensures !Trusted(files)
  {
    assert !TrustedFile(files[i]);
  }

  /** A bare `.text`, `.data` or `.bss`, on either side, gives exit code 2. */
  lemma BareSectionsAreRefused(files: seq<File>, i: nat, front: File, line: string, back: File, others: seq<File>)
    requires i < |files| && files[i] == front + [line] + back && IsBare(line)
    ensures Verdict(files, others) == 2 && Verdict(others, files) == 2
  {
    BareIs(line);
    AfterLine(front, line, back);
    StaysUntrusted(front + [line], back);
    UntrustedFileRefused(files, i);
    IdenticalExactly(files, others);
    IdenticalExactly(others, files);
  }

  lemma {:induction false} NothingAttributed(front: File, back: File)
    requires ScanFile(front).current.None? && forall k | 0 <= k < |back| :: !StartsWith(back[k], DIRECTIVE)
    ensures ScanFile(front + back).current.None? && ScanFile(front + back).closed == ScanFile(front).closed
  {
    if back == [] {
      assert front + back == front;
    } else {
      var less, line := back[..|back| - 1], back[|back| - 1];
      NothingAttributed(front, less);
      FrontAndLast(front, back);
      OneMoreScanned(front + less, line);
      StaysOutside(ScanFile(front + less), line);
    }
  }

  lemma StaysOutside(s: Scan, line: string)
    requires s.current.None? && !StartsWith(line, DIRECTIVE)
    ensures ScanLine(s, line).current.None? && ScanLine(s, line).closed == s.closed
  {
    assert Sections(s) == s.closed;
  }

  /** A bare section ends the section before it: up to the next section directive nothing is attributed. */
  lemma BareEndsSection(front: File, line: string, back: File)
    requires IsBare(line) && forall k | 0 <= k < |back| :: !StartsWith(back[k], DIRECTIVE)
    ensures SectionsOf(front + [line] + back) == SectionsOf(front)
  {
    BareIs(line);
    AfterLine(front, line, back);
    NothingAttributed(front + [line], back);
  }

  /** So does anything to compare in front of the first section directive. */
  lemma UnattributedIsRefused(files: seq<File>, i: nat, front: File, line: string, t: string, back: File,
                              others: seq<File>)
    requires i < |files| && files[i] == front + [line] + back && Compared(line, t)
    requires forall k | 0 <= k < |front| :: !StartsWith(front[k], DIRECTIVE)
    ensures Verdict(files, others) == 2 && Verdict(others, files) == 2
  {
    ComparedIs(line, t);
    AfterLine(front, line, back);
    NoSectionYet(front);
    StaysUntrusted(front + [line], back);
    UntrustedFileRefused(files, i);
    IdenticalExactly(files, others);
    IdenticalExactly(others, files);
  }

  // ---------------------------------------------------------------- listings that differ in one section

  /** Two ways for a section to be, not affected by one more line on both. */
  type Relation = (Section, Section) -> bool

  ghost predicate Growing(rel: Relation) {
    forall s: Section, t: Section, l: string {:trigger rel(s, t), s.(lines := s.lines + [l])} |
      rel(s, t) :: rel(s.(lines := s.lines + [l]), t.(lines := t.lines + [l]))
  }

  /** The listings agree except in section i, where they are related. */
  ghost predicate Apart(F: seq<Section>, G: seq<Section>, i: nat, rel: Relation) {
    |F| == |G| && i < |F| && rel(F[i], G[i]) && forall k | 0 <= k < |F| && k != i :: F[k] == G[k]
  }

  ghost predicate ScansApart(s: Scan, t: Scan, i: nat, rel: Relation) {
    && Apart(Sections(s), Sections(t), i, rel)
    && s.untrusted == t.untrusted && (s.current.Some? <==> t.current.Some?)
  }

  lemma SectionsWith(s: Scan, section: Section)
    ensures Sections(Scan(s.closed, Some(section), s.untrusted)) == s.closed + [section]
  {
  }

  lemma OneMoreSection(F: seq<Section>, G: seq<Section>, i: nat, rel: Relation, section: Section)
    requires Apart(F, G, i, rel)
    ensures Apart(F + [section], G + [section], i, rel)
  {
  }

  lemma ScansOnApart(s: Scan, t: Scan, i: nat, rel: Relation, line: string)
    requires ScansApart(s, t, i, rel) && Growing(rel)
    ensures ScansApart(ScanLine(s, line), ScanLine(t, line), i, rel)
  {
    match Classify(line)
    case SectionStart(n, a) => OneMoreSection(Sections(s), Sections(t), i, rel, Section(n, a, []));
    case ContentLine(l) =>
      if s.current.Some? {
        OneMoreLine(s, t, i, rel, l);
      }
    case BareSection =>
      assert Sections(Scan(Sections(s), None, true)) == Sections(s);
      assert Sections(Scan(Sections(t), None, true)) == Sections(t);
    case _ =>
  }

  lemma OneMoreLine(s: Scan, t: Scan, i: nat, rel: Relation, l: string)
    requires ScansApart(s, t, i, rel) && Growing(rel) && s.current.Some?
    ensures ScansApart(s.(current := Some(s.current.value.(lines := s.current.value.lines + [l]))),
                       t.(current := Some(t.current.value.(lines := t.current.value.lines + [l]))), i, rel)
  {
    var n := |s.closed|;
    var f, g := s.current.value, t.current.value;
    assert Sections(s)[n] == f && Sections(t)[n] == g && |t.closed| == n;
    var F, G := s.closed + [f.(lines := f.lines + [l])], t.closed + [g.(lines := g.lines + [l])];
    forall k | 0 <= k < n ensures F[k] == Sections(s)[k] && G[k] == Sections(t)[k] {
    }
    if i == n {
      assert rel(f, g);
    } else {
      assert f == g;
    }
  }

  lemma {:induction false} FilesApart(f: File, g: File, back: File, i: nat, rel: Relation)
    requires ScansApart(ScanFile(f), ScanFile(g), i, rel) && Growing(rel)
    ensures ScansApart(ScanFile(f + back), ScanFile(g + back), i, rel)
  {
    if back == [] {
      assert f + back == f && g + back == g;
    } else {
      var front := back[..|back| - 1];
      FilesApart(f, g, front, i, rel);
      ScansOnApart(ScanFile(f + front), ScanFile(g + front), i, rel, Last(back));
      assert (f + back)[..|f + back| - 1] == f + front && (g + back)[..|g + back| - 1] == g + front;
    }
  }

  // ---------------------------------------------------------------- what equal outputs say of such listings

  predicate PartsShaped(xs: seq<Part>, ys: seq<Part>) {
    |xs| == |ys| && forall i | 0 <= i < |xs| ::
      xs[i].name == ys[i].name && xs[i].lines.Ok? && ys[i].lines.Ok? && |xs[i].lines.value| == |ys[i].lines.value|
  }

  lemma {:induction false} ShapedChunks(xs: seq<Part>, ys: seq<Part>, name: string)
    requires PartsShaped(xs, ys)
    ensures SameShape(Chunks(xs, name), Chunks(ys, name))
  {
    if xs != [] {
      var n := |xs| - 1;
      ShapedChunks(xs[..n], ys[..n], name);
      assert xs[n].name == ys[n].name && |xs[n].lines.value| == |ys[n].lines.value|;
    }
  }

  lemma AlikeParts(F: seq<Section>, G: seq<Section>, table: Table)
    requires AllSameDefinedLabels(F, G)
    requires forall i | 0 <= i < |F| :: LabelsDefined(F[i], table) && LabelsDefined(G[i], table)
    ensures PartsShaped(Parts(F, table), Parts(G, table))
    ensures forall i | 0 <= i < |F| ::
              Parts(F, table)[i] == Part(Canon(F[i]), Ok(Chunk(F, table, i)))
              && Parts(G, table)[i] == Part(Canon(F[i]), Ok(Chunk(G, table, i)))
  {
    forall i | 0 <= i < |F|
      ensures Parts(F, table)[i] == Part(Canon(F[i]), Ok(Chunk(F, table, i)))
      ensures Parts(G, table)[i] == Part(Canon(F[i]), Ok(Chunk(G, table, i)))
      ensures |Chunk(F, table, i)| == |Chunk(G, table, i)|
    {
      assert SameDefinedLabels(F[i], G[i]) && LabelsDefined(F[i], table) && LabelsDefined(G[i], table);
      ContributionIsChunk(F, i, table);
      ContributionIsChunk(G, i, table);
    }
  }

  lemma AlikeAccepted(F: seq<Section>, G: seq<Section>)
    requires AllSameDefinedLabels(F, G) && Accepted(F)
    requires forall i | 0 <= i < |G| :: LabelsDefined(G[i], TableOf(F))
    ensures Accepted(G) && TableOf(G) == TableOf(F)
    ensures forall i | 0 <= i < |F| :: LabelsDefined(F[i], TableOf(F))
  {
    SameDefinitions(F, G, |F|);
    AcceptedWhenDefined(G);
    forall i | 0 <= i < |F| ensures LabelsDefined(F[i], TableOf(F)) {
      AcceptedLabels(F, i);
    }
  }

  lemma SharedBody(F: seq<Section>, G: seq<Section>, i: nat)
    requires Accepted(F) && Accepted(G) && Outcome(F) == Outcome(G)
    requires |F| == |G| && i < |F| && Canon(F[i]) == Canon(G[i])
    ensures Flatten(Chunks(Parts(F, TableOf(F)), Canon(F[i]))) == Flatten(Chunks(Parts(G, TableOf(G)), Canon(F[i])))
  {
    var name := Canon(F[i]);
    AcceptedBody(F, name);
    AcceptedBody(G, name);
    assert Parts(F, TableOf(F))[i].name == name && Parts(G, TableOf(G))[i].name == name;
  }

  lemma EqualOutputsEqualChunk(F: seq<Section>, G: seq<Section>, i: nat)
    requires AllSameDefinedLabels(F, G) && Accepted(F) && Accepted(G) && TableOf(G) == TableOf(F)
    requires forall k | 0 <= k < |F| :: LabelsDefined(F[k], TableOf(F)) && LabelsDefined(G[k], TableOf(F))
    requires Outcome(F) == Outcome(G) && i < |F|
    ensures Chunk(F, TableOf(F), i) == Chunk(G, TableOf(F), i)
  {
    var t, name := TableOf(F), Canon(F[i]);
    AlikeParts(F, G, t);
    assert SameDefinedLabels(F[i], G[i]);
    SharedBody(F, G, i);
    ShapedChunks(Parts(F, t), Parts(G, t), name);
    ShapedFlattenInjective(Chunks(Parts(F, t), name), Chunks(Parts(G, t), name));
    SameNamesSameKey(F, G, i);
    ChunkAt(F, t, i);
    ChunkAt(G, t, i);
  }

  /** Listings with the same names and the same definitions line for line have equal outputs exactly if every
      section contributes the same. */
  lemma AlikeDecide(F: seq<Section>, G: seq<Section>)
    requires AllSameDefinedLabels(F, G) && Accepted(F)
    requires forall i | 0 <= i < |G| :: LabelsDefined(G[i], TableOf(F))
    ensures Accepted(G)
    ensures Outcome(F) == Outcome(G) <==>
              forall i | 0 <= i < |F| :: Chunk(F, TableOf(F), i) == Chunk(G, TableOf(F), i)
  {
    AlikeAccepted(F, G);
    AlikeParts(F, G, TableOf(F));
    if forall i | 0 <= i < |F| :: Chunk(F, TableOf(F), i) == Chunk(G, TableOf(F), i) {
      assert Parts(F, TableOf(F)) == Parts(G, TableOf(F));
      OutcomeIs(F);
      OutcomeIs(G);
    }
    if Outcome(F) == Outcome(G) {
      forall i | 0 <= i < |F| ensures Chunk(F, TableOf(F), i) == Chunk(G, TableOf(F), i) {
        EqualOutputsEqualChunk(F, G, i);
      }
    }
  }

  /** The exit code for one trusted listing and another that is accepted too. */
  lemma OneEachVerdict(f: File, g: File)
    requires Trusted([f]) && Accepted(SectionsOf(g)) && !ScanFile(g).untrusted && SectionsOf(g) != []
    ensures Trusted([g]) && Verdict([f], [g]) == Verdict([g], [f])
    ensures Verdict([f], [g]) == if Outcome(SectionsOf(f)) == Outcome(SectionsOf(g)) then 0 else 1
  {
    assert TrustedFile(g) && [g][0] == g;
    IdenticalExactly([f], [g]);
    IdenticalExactly([g], [f]);
    OneFileOutcome(f);
    OneFileOutcome(g);
    ExitCodeExactly(Parsings([f]), Parsings([g]));
    ExitCodeExactly(Parsings([g]), Parsings([f]));
    if SameBodies(Parsings([f]), Parsings([g])) || SameBodies(Parsings([g]), Parsings([f])) {
      SameBodiesSameParsed(Parsing(f).value, Parsing(g).value);
    }
  }

  // ---------------------------------------------------------------- one compared line

  /** Line p of the section is x in one listing and y in the other. */
  predicate LineApart(s: Section, t: Section, p: nat, x: string, y: string) {
    p < |s.lines| && s.lines[p] == x && t == s.(lines := s.lines[p := y])
  }

  lemma LineApartGrows(p: nat, x: string, y: string)
    ensures Growing((s, t) => LineApart(s, t, p, x, y))
  {
    var rel: Relation := (s, t) => LineApart(s, t, p, x, y);
    forall s: Section, t: Section, l: string | rel(s, t)
      ensures rel(s.(lines := s.lines + [l]), t.(lines := t.lines + [l]))
    {
      assert t.lines + [l] == (s.lines + [l])[p := y];
    }
  }

  lemma LastApart(S: Scan, x: string, y: string) returns (i: nat, p: nat)
    requires S.current.Some?
    ensures var s := S.current.value;
            ScansApart(S.(current := Some(s.(lines := s.lines + [x]))), S.(current := Some(s.(lines := s.lines + [y]))),
                       i, (s, t) => LineApart(s, t, p, x, y))
  {
    i, p := |S.closed|, |S.current.value.lines|;
    var s := S.current.value;
    assert s.lines + [y] == (s.lines + [x])[p := y];
    SectionsWith(S, s.(lines := s.lines + [x]));
    SectionsWith(S, s.(lines := s.lines + [y]));
  }

  lemma LinesApart(front: File, x: string, s: string, y: string, t: string, back: File) returns (i: nat, p: nat)
    requires Compared(x, s) && Compared(y, t) && ScanFile(front).current.Some?
    ensures ScansApart(ScanFile(front + [x] + back), ScanFile(front + [y] + back), i,
                       (u, v) => LineApart(u, v, p, s, t))
  {
    ComparedIs(x, s);
    ComparedIs(y, t);
    AfterLine(front, x, back);
    AfterLine(front, y, back);
    i, p := LastApart(ScanFile(front), s, t);
    LineApartGrows(p, s, t);
    FilesApart(front + [x], front + [y], back, i, (u, v) => LineApart(u, v, p, s, t));
  }

  lemma PlainLine(s: string, table: Table, here: nat)
    requires NamesNoLabel(s)
    ensures DefinedLabel(s) == None && LineDefined(s, table) && CanonicalLine(s, table, here) == NormalizeHashes(s)
  {
    LineDefines(s);
    RenderPlain(s, CanonText(table, here));
  }

  lemma LineApartAlike(F: seq<Section>, G: seq<Section>, i: nat, p: nat, s: string, t: string)
    requires Apart(F, G, i, (u, v) => LineApart(u, v, p, s, t)) && Accepted(F) && NamesNoLabel(s) && NamesNoLabel(t)
    ensures AllSameDefinedLabels(F, G) && forall k | 0 <= k < |G| :: LabelsDefined(G[k], TableOf(F))
  {
    PlainLine(s, TableOf(F), i);
    PlainLine(t, TableOf(F), i);
    assert LineApart(F[i], G[i], p, s, t);
    forall k | 0 <= k < |F| ensures SameDefinedLabels(F[k], G[k]) && LabelsDefined(G[k], TableOf(F)) {
      AcceptedLabels(F, k);
      assert LabelsDefined(F[k], TableOf(F)) && (k != i ==> F[k] == G[k]);
    }
  }

  lemma LineApartChunk(F: seq<Section>, G: seq<Section>, i: nat, p: nat, s: string, t: string, table: Table)
    requires i < |F| && i < |G| && LineApart(F[i], G[i], p, s, t) && NamesNoLabel(s) && NamesNoLabel(t)
    ensures Chunk(F, table, i) == Chunk(G, table, i) <==> NormalizeHashes(s) == NormalizeHashes(t)
  {
    PlainLine(s, table, i);
    PlainLine(t, table, i);
    assert Chunk(F, table, i)[p + 1] == NormalizeHashes(s) && Chunk(G, table, i)[p + 1] == NormalizeHashes(t);
    if NormalizeHashes(s) == NormalizeHashes(t) {
      assert Chunk(F, table, i) == Chunk(G, table, i);
    }
  }

  lemma LineApartDecides(F: seq<Section>, G: seq<Section>, i: nat, p: nat, s: string, t: string)
    requires Apart(F, G, i, (u, v) => LineApart(u, v, p, s, t)) && Accepted(F) && NamesNoLabel(s) && NamesNoLabel(t)
    ensures Accepted(G) && (Outcome(F) == Outcome(G) <==> NormalizeHashes(s) == NormalizeHashes(t))
  {
    var table := TableOf(F);
    assert LineApart(F[i], G[i], p, s, t);
    LineApartAlike(F, G, i, p, s, t);
    AlikeDecide(F, G);
    LineApartChunk(F, G, i, p, s, t, table);
    forall k | 0 <= k < |F| && k != i ensures Chunk(F, table, k) == Chunk(G, table, k) {
      assert F[k] == G[k];
    }
  }

  lemma TrustedCurrent(front: File, line: string, t: string, back: File)
    requires Compared(line, t) && Trusted([front + [line] + back])
    ensures ScanFile(front).current.Some?
  {
    ComparedIs(line, t);
    AfterLine(front, line, back);
    if ScanFile(front).current.None? {
      NoCurrentRefused(front, line, t, back);
    }
  }

  lemma NoCurrentRefused(front: File, line: string, t: string, back: File)
    requires Compared(line, t) && ScanFile(front).current.None?
    ensures !Trusted([front + [line] + back])
  {
    ComparedIs(line, t);
    AfterLine(front, line, back);
    StaysUntrusted(front + [line], back);
    UntrustedFileRefused([front + [line] + back], 0);
  }

  /** One compared line without labels: replacing it by another keeps the listing trusted, and the exit code
      tells exactly whether the two texts differ outside instance hashes. */
  lemma ComparedLineShows(front: File, x: string, s: string, y: string, t: string, back: File)
    requires Compared(x, s) && Compared(y, t) && NamesNoLabel(s) && NamesNoLabel(t)
    requires Trusted([front + [x] + back])
    ensures Trusted([front + [y] + back])
    ensures Verdict([front + [x] + back], [front + [y] + back])
            == if NormalizeHashes(s) == NormalizeHashes(t) then 0 else 1
  {
    var f, g := front + [x] + back, front + [y] + back;
    TrustedCurrent(front, x, s, back);
    var i, p := LinesApart(front, x, s, y, t, back);
    assert TrustedFile([f][0]);
    LineApartDecides(SectionsOf(f), SectionsOf(g), i, p, s, t);
    OneEachVerdict(f, g);
  }

  // ---------------------------------------------------------------- section directives

  /** A section directive as it can be written: its name bare or in quotes, its attributes behind it. */
  predicate DirectiveWritten(line: string, name: string, attrs: string) {
    && DirectiveName(name)
    && (|| line == "\t.section\t\"" + name + "\"" + attrs
        || (line == "\t.section\t" + name + attrs && (attrs == "" || (!NameChar(attrs[0]) && attrs[0] != '"'))))
  }

  lemma {:induction false} NameEnds(name: string, rest: string)
    requires (forall i | 0 <= i < |name| :: NameChar(name[i])) && (rest == "" || !NameChar(rest[0]))
    ensures NameLength(name + rest) == |name|
  {
    if name == "" {
      assert name + rest == rest;
    } else {
      assert (name + rest)[1..] == name[1..] + rest;
      NameEnds(name[1..], rest);
    }
  }

  lemma NameIsRead(rest: string, name: string, behind: string)
    requires rest == name + behind && DirectiveName(name) && (behind == "" || !NameChar(behind[0]))
    ensures NameLength(rest) == |name| > 0 && rest[..|name|] == name && rest[|name|..] == behind
    ensures WithoutQuote(rest) == rest
  {
    NameEnds(name, behind);
    assert rest[0] == name[0];
  }

  lemma QuotedParts(name: string, attrs: string)
    ensures var line := "\t.section\t\"" + name + "\"" + attrs;
            && StartsWith(line, DIRECTIVE) && line[10..] == "\"" + (name + ("\"" + attrs))
            && line[10..][1..] == name + ("\"" + attrs) && ("\"" + attrs)[1..] == attrs
  {
    var line := "\t.section\t\"" + name + "\"" + attrs;
    assert line == DIRECTIVE + ("\"" + (name + ("\"" + attrs)));
  }

  lemma BareParts(name: string, attrs: string)
    ensures var line := "\t.section\t" + name + attrs;
            StartsWith(line, DIRECTIVE) && line[10..] == name + attrs
  {
    var line := "\t.section\t" + name + attrs;
    assert line == DIRECTIVE + (name + attrs);
  }

  lemma DirectiveIs(line: string, name: string, attrs: string)
    requires DirectiveWritten(line, name, attrs)
    ensures Classify(line) == SectionStart(name, attrs)
  {
    if line == "\t.section\t\"" + name + "\"" + attrs {
      QuotedParts(name, attrs);
      NameIsRead(line[10..][1..], name, "\"" + attrs);
    } else {
      BareParts(name, attrs);
      NameIsRead(line[10..], name, attrs);
    }
    NoFileDirective(line);
  }

  lemma NoFileDirective(line: string)
    requires StartsWith(line, DIRECTIVE)
    ensures !IsFileDirective(line)
  {
    assert line[0] == line[..10][0] && line[1] == line[..10][1] && line[2] == line[..10][2];
    assert TrimLeft(line) == line[1..];
    DiffersAt(line[1..], ".file", 1);
  }

  /** The sections are named and attributed so, and hold the same lines. */
  predicate HeadApart(s: Section, t: Section, name: string, attrs: string, name': string, attrs': string) {
    s.name == name && s.attrs == attrs && t == Section(name', attrs', s.lines)
  }

  lemma HeadsApart(front: File, x: string, name: string, attrs: string, y: string, name': string, attrs': string,
                   back: File)
    returns (i: nat)
    requires DirectiveWritten(x, name, attrs) && DirectiveWritten(y, name', attrs')
    ensures ScansApart(ScanFile(front + [x] + back), ScanFile(front + [y] + back), i,
                       (u, v) => HeadApart(u, v, name, attrs, name', attrs'))
  {
    DirectiveIs(x, name, attrs);
    DirectiveIs(y, name', attrs');
    AfterLine(front, x, back);
    AfterLine(front, y, back);
    var rel: Relation := (u, v) => HeadApart(u, v, name, attrs, name', attrs');
    i := |Sections(ScanFile(front))|;
    assert rel(Section(name, attrs, []), Section(name', attrs', []));
    assert Growing(rel);
    FilesApart(front + [x], front + [y], back, i, rel);
  }

  lemma AttributesDecide(F: seq<Section>, G: seq<Section>, i: nat, name: string, a: string, a': string)
    requires Apart(F, G, i, (u, v) => HeadApart(u, v, name, a, name, a')) && Accepted(F)
    ensures Accepted(G)
    ensures Outcome(F) == Outcome(G) <==> NormalizeHashes(Strip(a)) == NormalizeHashes(Strip(a'))
  {
    assert HeadApart(F[i], G[i], name, a, name, a');
    forall k | 0 <= k < |F| ensures SectionsSameButAttributes(F[k], G[k]) {
      assert k != i ==> F[k] == G[k];
    }
    OutcomeShowsAttributes(F, G);
    forall k | 0 <= k < |F|
      ensures ShownAttributes(F[k]) == ShownAttributes(G[k])
              <==> k != i || NormalizeHashes(Strip(a)) == NormalizeHashes(Strip(a'))
    {
      assert k != i ==> F[k] == G[k];
    }
  }

  /** Attributes of one section directive: the exit code tells exactly whether they differ outside instance
      hashes and the blanks around them. */
  lemma AttributesShow(front: File, x: string, y: string, name: string, attrs: string, attrs': string, back: File)
    requires DirectiveWritten(x, name, attrs) && DirectiveWritten(y, name, attrs')
    requires Trusted([front + [x] + back])
    ensures Trusted([front + [y] + back])
    ensures Verdict([front + [x] + back], [front + [y] + back])
            == if NormalizeHashes(Strip(attrs)) == NormalizeHashes(Strip(attrs')) then 0 else 1
  {
    var f, g := front + [x] + back, front + [y] + back;
    var i := HeadsApart(front, x, name, attrs, y, name, attrs', back);
    assert TrustedFile([f][0]);
    AttributesDecide(SectionsOf(f), SectionsOf(g), i, name, attrs, attrs');
    OneEachVerdict(f, g);
  }

  // ---------------------------------------------------------------- section names

  /** How many lines the first n sections contribute to the body of a name. */
  function BodySize(sections: seq<Section>, n: nat, name: string): nat
    requires n <= |sections|
  {
    if n == 0 then 0
    else BodySize(sections, n - 1, name) + if Canon(sections[n - 1]) == name then |sections[n - 1].lines| + 1 else 0
  }

  lemma {:induction false} BodySizeIs(sections: seq<Section>, table: Table, n: nat, name: string)
    requires n <= |sections| && forall i | 0 <= i < |sections| :: LabelsDefined(sections[i], table)
    ensures |Flatten(Chunks(Parts(sections, table)[..n], name))| == BodySize(sections, n, name)
  {
    if n > 0 {
      BodySizeIs(sections, table, n - 1, name);
      PartIsChunk(sections, table, n);
      BodyGrows(Parts(sections, table)[..n], name);
    }
  }

  lemma PartIsChunk(sections: seq<Section>, table: Table, n: nat)
    requires 0 < n <= |sections| && LabelsDefined(sections[n - 1], table)
    ensures var front := Parts(sections, table)[..n];
            && Last(front).name == Canon(sections[n - 1]) && Last(front).lines.Ok?
            && |Last(front).lines.value| == |sections[n - 1].lines| + 1
            && front[..n - 1] == Parts(sections, table)[..n - 1]
  {
    ContributionIsChunk(sections, n - 1, table);
  }

  lemma {:induction false} SameBodySize(F: seq<Section>, G: seq<Section>, i: nat, n: nat, name: string)
    requires |F| == |G| && i < |F| && n <= |F| && forall k | 0 <= k < |F| && k != i :: F[k] == G[k]
    requires Canon(F[i]) == name != Canon(G[i])
    ensures BodySize(F, n, name) == BodySize(G, n, name) + if i < n then |F[i].lines| + 1 else 0
  {
    if n > 0 {
      SameBodySize(F, G, i, n - 1, name);
      assert n - 1 != i ==> F[n - 1] == G[n - 1];
    }
  }

  /** Renaming a section changes neither what is defined twice nor what is undefined. */
  lemma HeadsAccepted(F: seq<Section>, G: seq<Section>)
    requires |F| == |G| && (forall k | 0 <= k < |F| :: F[k].lines == G[k].lines) && Accepted(F)
    ensures Accepted(G)
  {
    RejectedExactly(F);
    RejectedExactly(G);
    forall name ensures DefinedTwice(F, name) <==> DefinedTwice(G, name) {
      SameTwice(F, G, name);
      SameTwice(G, F, name);
    }
    UndefinedToo(F, G);
  }

  lemma UndefinedToo(F: seq<Section>, G: seq<Section>)
    requires |F| == |G| && forall k | 0 <= k < |F| :: F[k].lines == G[k].lines
    ensures UsesUndefined(G) ==> UsesUndefined(F)
  {
    if UsesUndefined(G) {
      var i, p, k :| LabelUsed(G, i, p, k) && forall j: nat, q: nat :: !DefinedAt(G, j, q, UsedLabel(G, i, p, k));
      assert LabelUsed(F, i, p, k);
      forall j: nat, q: nat ensures !DefinedAt(F, j, q, UsedLabel(F, i, p, k)) {
        assert !DefinedAt(G, j, q, UsedLabel(G, i, p, k));
      }
    }
  }

  lemma SameTwice(F: seq<Section>, G: seq<Section>, name: string)
    requires |F| == |G| && forall k | 0 <= k < |F| :: F[k].lines == G[k].lines
    ensures DefinedTwice(F, name) ==> DefinedTwice(G, name)
  {
    if DefinedTwice(F, name) {
      var i: nat, p: nat, j: nat, q: nat :| DefinedAt(F, i, p, name) && DefinedAt(F, j, q, name) && (i, p) != (j, q);
      assert DefinedAt(G, i, p, name) && DefinedAt(G, j, q, name);
    }
  }

  lemma SizesDiffer(F: seq<Section>, G: seq<Section>, i: nat)
    requires Accepted(F) && Accepted(G) && i < |F|
    requires BodySize(F, |F|, Canon(F[i])) != BodySize(G, |G|, Canon(F[i]))
    ensures Outcome(F) != Outcome(G)
  {
    var c := Canon(F[i]);
    AcceptedBody(F, c);
    AcceptedBody(G, c);
    assert Parts(F, TableOf(F))[i].name == c;
    AcceptedSize(F, c);
    AcceptedSize(G, c);
  }

  lemma AcceptedSize(F: seq<Section>, name: string)
    requires Accepted(F)
    ensures |Flatten(Chunks(Parts(F, TableOf(F)), name))| == BodySize(F, |F|, name)
  {
    forall i | 0 <= i < |F| ensures LabelsDefined(F[i], TableOf(F)) {
      AcceptedLabels(F, i);
    }
    BodySizeIs(F, TableOf(F), |F|, name);
    assert Parts(F, TableOf(F))[..|F|] == Parts(F, TableOf(F));
  }

  lemma NamesDecide(F: seq<Section>, G: seq<Section>, i: nat, name: string, a: string, name': string, a': string)
    requires Apart(F, G, i, (u, v) => HeadApart(u, v, name, a, name', a')) && Accepted(F)
    requires EraseAll(name) != EraseAll(name')
    ensures Accepted(G) && Outcome(F) != Outcome(G)
  {
    assert HeadApart(F[i], G[i], name, a, name', a');
    forall k | 0 <= k < |F| ensures F[k].lines == G[k].lines {
      assert k != i ==> F[k] == G[k];
    }
    HeadsAccepted(F, G);
    SameBodySize(F, G, i, |F|, Canon(F[i]));
    SizesDiffer(F, G, i);
  }

  /** A section name that differs outside instance hashes shows, whatever else is on the directive. */
  lemma NamesShow(front: File, x: string, name: string, attrs: string, y: string, name': string, attrs': string,
                  back: File)
    requires DirectiveWritten(x, name, attrs) && DirectiveWritten(y, name', attrs')
    requires EraseAll(name) != EraseAll(name') && Trusted([front + [x] + back])
    ensures Trusted([front + [y] + back])
    ensures Verdict([front + [x] + back], [front + [y] + back]) == 1
  {
    var f, g := front + [x] + back, front + [y] + back;
    var i := HeadsApart(front, x, name, attrs, y, name', attrs', back);
    assert TrustedFile([f][0]);
    NamesDecide(SectionsOf(f), SectionsOf(g), i, name, attrs, name', attrs');
    OneEachVerdict(f, g);
  }

  // ---------------------------------------------------------------- the alignment of the documentation

  /** An alignment directive, with a tab in front, and a one-digit amount. */
  predicate Aligns(line: string, s: string, amount: char) {
    line == "\t" + s && s == ".p2align" + ("\t" + [amount]) && IsDigit(amount)
  }

  lemma AlignmentReads(s: string, amount: char)
    requires IsDigit(amount) && s == ".p2align" + ("\t" + [amount])
    ensures NamesNoLabel(s) && NormalizeHashes(s) == s
  {
    var m, w := ".p2align", "\t" + [amount];
    SymbolRead(m, w);
    DotlessIsPlain(w, 0);
    PlainJoins(m, w);
    NothingErased(s);
  }

  lemma PlainJoins(m: string, w: string)
    ensures Plain(m + w) == Plain(m) + Plain(w)
  {
  }

  lemma NothingErased(s: string)
    requires forall i | 0 <= i < |s| :: s[i] != 'h' && s[i] != '"'
    ensures NormalizeHashes(s) == s
  {
    WithoutHIsInert(s);
    InertSkips(s, "");
    assert s + "" == s && s + Erased("", 0) == s;
  }

  lemma AlignmentCompared(line: string, s: string, amount: char)
    requires Aligns(line, s, amount)
    ensures Compared(line, s)
  {
    assert s[0] == '.' && s[1] == 'p' && |s| == 10 && Last(s) == amount && line[2] == 'p';
    assert StrippedAs(line, "\t", s, "") by {
      assert line == "\t" + (s + "");
    }
    DiffersAt(s, ".cfi_", 1);
    DiffersAt(s, ".file", 1);
    DiffersAt(line, DIRECTIVE, 2);
  }

  /** Functions aligned to different powers of two differ. */
  lemma AlignmentShows(front: File, x: string, s: string, m: char, y: string, t: string, n: char, back: File)
    requires Aligns(x, s, m) && Aligns(y, t, n) && Trusted([front + [x] + back])
    ensures Verdict([front + [x] + back], [front + [y] + back]) == if m == n then 0 else 1
  {
    AlignmentReads(s, m);
    AlignmentReads(t, n);
    AlignmentCompared(x, s, m);
    AlignmentCompared(y, t, n);
    assert s[9] == m && t[9] == n;
    ComparedLineShows(front, x, s, y, t, back);
  }
}
