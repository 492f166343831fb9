/** The same at the level of the tool: which section names make exit code 0 for one listing a side mean that
    the listings are alpha-equivalent, with the listings written out as files. */
module AsmBracketFiles {
  import opened Protocol
  import opened Decimal
  import opened AsmText
  import opened AsmMarkers
  import opened AsmContent
  import opened AsmReading
  import opened AsmFile
  import opened AsmBodies
  import opened AsmAlpha
  import opened AsmRename
  import opened AsmGather
  import opened AsmCompare
  import opened AsmBrackets

  // ---------------------------------------------------------------- writing sections as a file

  function Directive(name: string): string { "\t.section\t" + name }

  function FileOf(F: seq<Section>): File {
    if F == [] then [] else FileOf(F[..|F| - 1]) + ([Directive(Last(F).name)] + Last(F).lines)
  }

  /** A name as a section directive can give it. */
  predicate DirectiveName(name: string) { name != "" && forall i | 0 <= i < |name| :: NameChar(name[i]) }

  predicate IsContent(line: string) { Classify(line) == ContentLine(line) }

  predicate Writable(s: Section) {
    s.attrs == "" && DirectiveName(s.name) && forall p | 0 <= p < |s.lines| :: IsContent(s.lines[p])
  }

  lemma {:induction false} WholeName(name: string)
    requires forall i | 0 <= i < |name| :: NameChar(name[i])
    ensures NameLength(name) == |name|
  {
    if name != "" {
      WholeName(name[1..]);
    }
  }

  lemma DirectiveFront(name: string)
    ensures Directive(name)[..10] == "\t.section\t" && Directive(name)[10..] == name
    ensures TrimLeft(Directive(name)) == ".section\t" + name
  {
    var d := Directive(name);
    assert d == "\t" + (".section\t" + name);
    assert d[1..] == ".section\t" + name;
  }

  lemma DirectiveIsStart(name: string)
    requires DirectiveName(name)
    ensures Classify(Directive(name)) == SectionStart(name, "")
  {
    DirectiveFront(name);
    WholeName(name);
    assert name[0] != '"';
    assert name[..|name|] == name && name[|name|..] == "";
    var t := ".section\t" + name;
    DiffersAt(t, ".file", 1);
  }

  lemma OneMoreScanned(file: File, line: string)
    ensures ScanFile(file + [line]) == ScanLine(ScanFile(file), line)
  {
    assert (file + [line])[..|file + [line]| - 1] == file;
  }

  lemma {:induction false} ContentScans(file: File, closed: seq<Section>, s: Section, lines: seq<string>)
    requires ScanFile(file) == Scan(closed, Some(s), false)
    requires forall p | 0 <= p < |lines| :: IsContent(lines[p])
    ensures ScanFile(file + lines) == Scan(closed, Some(s.(lines := s.lines + lines)), false)
  {
    if lines == [] {
      assert file + lines == file && s.lines + lines == s.lines;
    } else {
      var front, last := lines[..|lines| - 1], lines[|lines| - 1];
      ContentScans(file, closed, s, front);
      OneMoreScanned(file + front, last);
      FrontAndLast(file, lines);
      FrontAndLast(s.lines, lines);
      assert IsContent(last);
    }
  }

  lemma FrontAndLast<T>(a: seq<T>, b: seq<T>)
    requires b != []
    ensures a + b[..|b| - 1] + [b[|b| - 1]] == a + b
  {
  }

  lemma StartScans(file: File, name: string)
    requires DirectiveName(name) && !ScanFile(file).untrusted
    ensures ScanFile(file + [Directive(name)]) == Scan(Sections(ScanFile(file)), Some(Section(name, "", [])), false)
  {
    DirectiveIsStart(name);
    OneMoreScanned(file, Directive(name));
  }

  lemma SectionScans(file: File, s: Section, started: File)
    requires Writable(s) && !ScanFile(file).untrusted && started == file + [Directive(s.name)]
    ensures ScanFile(started + s.lines) == Scan(Sections(ScanFile(file)), Some(s), false)
  {
    StartScans(file, s.name);
    ContentScans(started, Sections(ScanFile(file)), Section(s.name, "", []), s.lines);
    assert [] + s.lines == s.lines;
  }

  lemma FileOfLast(F: seq<Section>)
    requires F != []
    ensures FileOf(F) == FileOf(F[..|F| - 1]) + [Directive(Last(F).name)] + Last(F).lines
  {
  }

  lemma SectionsOfScan(closed: seq<Section>, s: Section)
    ensures Sections(Scan(closed, Some(s), false)) == closed + [s]
  {
  }

  lemma LastScans(file: File, F: seq<Section>)
    requires F != [] && Sections(ScanFile(file)) == F[..|F| - 1] && !ScanFile(file).untrusted && Writable(Last(F))
    ensures var scan := ScanFile(file + [Directive(Last(F).name)] + Last(F).lines);
            Sections(scan) == F && !scan.untrusted
  {
    SectionScans(file, Last(F), file + [Directive(Last(F).name)]);
    SectionsOfScan(F[..|F| - 1], Last(F));
    assert F[..|F| - 1] + [Last(F)] == F;
  }

  /** Writing sections and reading them back gives the same sections. */
  lemma {:induction false} FileScans(F: seq<Section>)
    requires forall i | 0 <= i < |F| :: Writable(F[i])
    ensures Sections(ScanFile(FileOf(F))) == F && !ScanFile(FileOf(F)).untrusted
  {
    if F != [] {
      FileScans(F[..|F| - 1]);
      assert Writable(F[|F| - 1]);
      LastScans(FileOf(F[..|F| - 1]), F);
      FileOfLast(F);
    }
  }

  // ---------------------------------------------------------------- the lines of the two listings

  lemma StripsToItself(line: string)
    requires line != "" && !IsSpace(line[0]) && !IsSpace(Last(line))
    ensures TrimLeft(line) == line && Strip(line) == line
  {
  }

  lemma PlainlyContent(line: string)
    requires |line| > 1 && !IsSpace(line[0]) && !IsSpace(Last(line)) && line[0] != '#'
    requires line[0] != '.' || line[1] == 'L'
    ensures IsContent(line)
  {
    StripsToItself(line);
    NotFront(line, ".file");
    NotFront(line, ".cfi_");
    NotFront(line, ".text");
    NotFront(line, ".data");
    NotFront(line, ".bss");
    NotTab(line);
    DiffersAt(line, "#", 0);
  }

  lemma NotFront(line: string, m: string)
    requires |line| > 1 && (line[0] != '.' || line[1] == 'L') && |m| > 1 && m[0] == '.' && m[1] != 'L'
    ensures !StartsWith(line, m) && line != m
  {
    DiffersAt(line, m, if line[0] != '.' then 0 else 1);
  }

  lemma NotTab(line: string)
    requires line != "" && !IsSpace(line[0])
    ensures !StartsWith(line, "\t.section\t")
  {
    DiffersAt(line, "\t.section\t", 0);
  }

  lemma SymbolsAreNoSpaces(c: char)
    requires SymbolPart(c) || c == ':' || c == ']'
    ensures !IsSpace(c)
  {
  }

  lemma DefinitionIsContent(name: string)
    requires IsLabelName(name)
    ensures IsContent(name + ":")
  {
    assert name[..2][0] == name[0] && name[..2][1] == name[1];
    SymbolsAreNoSpaces(name[0]);
    PlainlyContent(name + ":");
  }

  lemma JumpIsContent(name: string, r: string)
    requires IsLabelName(name) && (r == "" || Last(r) == ']')
    ensures IsContent(Jump(name, r))
  {
    var line := Jump(name, r);
    assert line[0] == 'j';
    assert SymbolPart(name[|name| - 1]);
    assert Last(line) == if r == "" then name[|name| - 1] else Last(r);
    SymbolsAreNoSpaces(Last(line));
    PlainlyContent(line);
  }

  lemma ListingWritable(a: string, m: nat, n: nat, b: string, name: string, r: string)
    requires DirectiveName(a) && DirectiveName(b) && IsLabelName(name) && (r == "" || Last(r) == ']')
    ensures var F := Listing(a, m, n, b, Jump(name, r)); forall i | 0 <= i < |F| :: Writable(F[i])
  {
    var F := Listing(a, m, n, b, Jump(name, r));
    SectionsAre(a, m, n, b, Jump(name, r));
    forall i, p | 0 <= i < |F| && 0 <= p < |F[i].lines| ensures IsContent(F[i].lines[p]) {
      LabelsAreNames(p);
      DefinitionIsContent(NumberedLabel(p));
      DefinitionIsContent(OtherLabel);
      JumpIsContent(name, r);
    }
  }

  // ---------------------------------------------------------------- exit code 0 for different programs

  lemma SameOutcomeExitsZero(f: File, g: File)
    requires Accepted(SectionsOf(f)) && SectionsOf(f) != [] && !ScanFile(f).untrusted
    requires Accepted(SectionsOf(g)) && SectionsOf(g) != [] && !ScanFile(g).untrusted
    requires Outcome(SectionsOf(f)) == Outcome(SectionsOf(g))
    ensures Trusted([f]) && Trusted([g]) && Verdict([f], [g]) == 0
  {
    assert TrustedFile(f) && TrustedFile(g);
    assert [f][0] == f && [g][0] == g;
    IdenticalExactly([f], [g]);
    assert Parsings([f]) == Parsings([g]);
  }

  /** For ambiguous names the comparator exits 0 on two files that jump to different labels. */
  lemma AmbiguousFilesExitZero(a: string, m: nat, n: nat, b: string, s: string)
    requires Ambiguous(a, m, n, b, s) && DirectiveName(a) && DirectiveName(b)
    ensures var f, g := FileOf(FirstListing(a, m, n, b, s)), FileOf(SecondListing(a, m, n, b));
            && SectionsOf(f) == FirstListing(a, m, n, b, s) && SectionsOf(g) == SecondListing(a, m, n, b)
            && Trusted([f]) && Trusted([g]) && Unmarked(SectionsOf(f)) && Unmarked(SectionsOf(g))
            && Verdict([f], [g]) == 0 && !AlphaEquivalent(SectionsOf(f), SectionsOf(g))
  {
    LabelsAreNames(n);
    AmbiguousNamesBreakSoundness(a, m, n, b, s);
    ListingWritable(a, m, n, b, NumberedLabel(n), Remainder(s));
    ListingWritable(a, m, n, b, OtherLabel, "");
    FileScans(FirstListing(a, m, n, b, s));
    FileScans(SecondListing(a, m, n, b));
    ListingNames(a, m, n, b, Jump(NumberedLabel(n), Remainder(s)), {a, b});
    ListingNames(a, m, n, b, Jump(OtherLabel, ""), {a, b});
    SameOutcomeExitsZero(FileOf(FirstListing(a, m, n, b, s)), FileOf(SecondListing(a, m, n, b)));
  }

  /** Files with these section names only, trusted and spelling no mark. */
  ghost predicate ComparableFile(f: File, names: set<string>) {
    Trusted([f]) && Unmarked(SectionsOf(f)) && NamesFrom(SectionsOf(f), names)
  }

  ghost predicate VerdictSoundFor(names: set<string>) {
    forall f, g :: ComparableFile(f, names) && ComparableFile(g, names) && Verdict([f], [g]) == 0 ==>
      AlphaEquivalent(SectionsOf(f), SectionsOf(g))
  }

  lemma AmbiguousFilesBreakSoundness(names: set<string>, a: string, m: nat, n: nat, b: string, s: string)
    requires a in names && b in names && DirectiveName(a) && DirectiveName(b) && Ambiguous(a, m, n, b, s)
    ensures !VerdictSoundFor(names)
  {
    AmbiguousFilesExitZero(a, m, n, b, s);
    ListingNames(a, m, n, b, Jump(NumberedLabel(n), Remainder(s)), names);
    ListingNames(a, m, n, b, Jump(OtherLabel, ""), names);
    var f, g := FileOf(FirstListing(a, m, n, b, s)), FileOf(SecondListing(a, m, n, b));
    assert ComparableFile(f, names) && ComparableFile(g, names);
  }

  lemma ConfusableFilesBreakSoundness(names: set<string>, a: string, b: string)
    requires OrdinaryNames(names) && (forall x | x in names :: DirectiveName(x))
    requires a in names && b in names && Confusable(a, b)
    ensures !VerdictSoundFor(names)
  {
    var m, n, s := ConfusableIsAmbiguous(names, a, b);
    AmbiguousFilesBreakSoundness(names, a, m, n, b, s);
  }

  /** The tool's promise, exactly, over section names that spell no mark: exit 0 for one listing a side means
      alpha-equivalence, for all files with these names, if and only if no name runs on from another. */
  lemma VerdictSoundExactly(names: set<string>)
    requires OrdinaryNames(names) && forall x | x in names :: DirectiveName(x)
    ensures VerdictSoundFor(names) <==> forall a, b | a in names && b in names :: !Confusable(a, b)
  {
    if forall a, b | a in names && b in names :: !Confusable(a, b) {
      forall f, g | ComparableFile(f, names) && ComparableFile(g, names) && Verdict([f], [g]) == 0
        ensures AlphaEquivalent(SectionsOf(f), SectionsOf(g))
      {
        UnconfusableUnambiguous(SectionsOf(f), names);
        UnconfusableUnambiguous(SectionsOf(g), names);
        SingleFileVerdict(f, g);
      }
    }
    forall a, b | a in names && b in names && Confusable(a, b) ensures !VerdictSoundFor(names) {
      ConfusableFilesBreakSoundness(names, a, b);
    }
  }

  // ---------------------------------------------------------------- the smallest example

  const SHORT_NAME: string := "x"

  const LONG_NAME: string := "x" + "#" + Print(0) + ":" + Print(0) + "]"

  function First(): seq<Section> { FirstListing(SHORT_NAME, 0, 0, LONG_NAME, "") }

  function Second(): seq<Section> { SecondListing(SHORT_NAME, 0, 0, LONG_NAME) }

  lemma {:induction false} NoOneToErase(s: string)
    requires '1' !in s
    ensures EraseAll(s) == s
  {
    if s != [] {
      NoOneToErase(s[1..]);
    }
  }

  lemma ExampleNames()
    ensures Ambiguous(SHORT_NAME, 0, 0, LONG_NAME, "") && DirectiveName(SHORT_NAME) && DirectiveName(LONG_NAME)
  {
    LongNameIs();
    NoOneToErase(SHORT_NAME);
    NoOneToErase(LONG_NAME);
    NothingCanFollow();
    assert LONG_NAME + "" == LONG_NAME;
  }

  lemma LongNameIs()
    ensures LONG_NAME == "x#0:0]" && DirectiveName(LONG_NAME)
  {
    assert Print(0) == "0";
    assert DirectiveName("x#0:0]");
  }

  lemma NothingCanFollow()
    ensures CanFollow("")
  {
    assert "" + "#" == "#" && Items("", 0) == [];
    FirstItem("#", 0);
  }

  /** Soundness needs its condition on section names: these two listings spell no mark, are accepted and have
      equal outputs, the comparator exits 0 on their files, and yet they jump to different labels. */
  lemma BracketsBreakSoundness()
    ensures Accepted(First()) && Accepted(Second()) && ProperNames(First()) && ProperNames(Second())
    ensures Unmarked(First()) && Unmarked(Second())
    ensures Outcome(First()) == Outcome(Second())
    ensures !AlphaEquivalent(First(), Second())
    ensures SectionsOf(FileOf(First())) == First() && SectionsOf(FileOf(Second())) == Second()
    ensures Verdict([FileOf(First())], [FileOf(Second())]) == 0
  {
    ExampleNames();
    AmbiguousNamesBreakSoundness(SHORT_NAME, 0, 0, LONG_NAME, "");
    AmbiguousFilesExitZero(SHORT_NAME, 0, 0, LONG_NAME, "");
  }
}
