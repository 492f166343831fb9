/** Other digits for instance hashes in raw listings: whatever kind of line they stand on, digits that the
    comparator erases never change the exit code. */
module AsmRehashFiles {
  import opened Protocol
  import opened Decimal
  import opened AsmText
  import opened AsmMarkers
  import opened AsmContent
  import opened AsmReading
  import opened AsmFile
  import opened AsmBlanks
  import opened AsmBodies
  import opened AsmHashes
  import opened AsmGather
  import opened AsmCompare
  import opened AsmRehash

  // ---------------------------------------------------------------- edits of a raw line

  const SECTION_START: string := "\t.section\t"

  /** Where in a section directive its name starts, ends, and where its attributes start. */
  function NameAt(line: string): nat
    requires StartsWith(line, SECTION_START)
  {
    |line| - |WithoutQuote(line[10..])|
  }

  function NameEnd(line: string): nat
    requires StartsWith(line, SECTION_START)
  {
    NameAt(line) + NameLength(WithoutQuote(line[10..]))
  }

  function AttributesAt(line: string): nat
    requires StartsWith(line, SECTION_START)
  {
    var rest := WithoutQuote(line[10..]);
    |line| - |WithoutQuote(rest[NameLength(rest)..])|
  }

  /** The hash behind x is one that the comparator erases: on a content line outside strings and labels, in a
      section's name, in its attributes outside strings, or on a line that is not compared at all. */
  predicate Erases(line: string, x: string, z: string) {
    match Classify(line)
    case ContentLine(_) => Outside(x, z) && !InLabel(x, z, 0)
    case SectionStart(_, _) =>
      StartsWith(line, SECTION_START)
      && (|x| < NameEnd(line) || (AttributesAt(line) <= |x| && Outside(x[AttributesAt(line)..], z)))
    case _ => true
  }

  ghost predicate RawEdit(s: string, t: string) {
    exists x, h, g, y :: HashSwapped(s, t, x, h, g, y) && Erases(s, x, h + y)
  }

  /** What the comparator takes from a line. */
  datatype Seen = SeenContent(items: seq<Item>) | SeenSection(name: string, attrs: string) | SeenOther(kind: Kind)

  function View(line: string): Seen {
    match Classify(line)
    case ContentLine(text) => SeenContent(Content(text))
    case SectionStart(name, attrs) => SeenSection(EraseAll(name), Shown(attrs))
    case _ => SeenOther(Classify(line))
  }

  // ---------------------------------------------------------------- the kind of line does not change

  lemma HashLacks(h: string, c: char)
    requires IsHash(h) && !SymbolPart(c)
    ensures c !in h
  {
    HashIsSymbol(h);
  }

  lemma PrefixEndsBefore(x: string, h: string, z: string, m: string)
    requires IsHash(h) && '1' !in m && StartsWith(x + (h + z), m)
    ensures |m| <= |x| && StartsWith(x, m)
  {
    HashStarts(h);
    if |m| > |x| {
      StartsAt(x + (h + z), m, |x|);
    }
    assert (x + (h + z))[..|m|] == x[..|m|];
  }

  lemma PrefixAcross(x: string, h: string, g: string, z: string, m: string)
    requires IsHash(h) && IsHash(g) && '1' !in m
    ensures StartsWith(x + (h + z), m) <==> StartsWith(x + (g + z), m)
  {
    if StartsWith(x + (h + z), m) {
      PrefixEndsBefore(x, h, z, m);
      assert (x + (g + z))[..|m|] == x[..|m|];
    }
    if StartsWith(x + (g + z), m) {
      PrefixEndsBefore(x, g, z, m);
      assert (x + (h + z))[..|m|] == x[..|m|];
    }
  }

  lemma SameAt(x: string, h: string, g: string, z: string, i: nat)
    requires IsHash(h) && IsHash(g) && i <= |x|
    ensures i < |x + (h + z)| && (x + (h + z))[i] == (x + (g + z))[i]
  {
    HashStarts(h);
    HashStarts(g);
  }

  lemma SameFileDirective(x: string, h: string, g: string, y: string)
    requires IsHash(h) && IsHash(g)
    ensures IsFileDirective(x + (h + y)) <==> IsFileDirective(x + (g + y))
  {
    HashHasNoBlanks(h);
    HashHasNoBlanks(g);
    TrimLeftAround(x, h, y);
    TrimLeftAround(x, g, y);
    var l := TrimLeft(x);
    PrefixAcross(l, h, g, y, ".file");
    if StartsWith(l + (h + y), ".file") {
      PrefixEndsBefore(l, h, y, ".file");
      SameAt(l, h, g, y, 5);
    }
  }

  /** Text with a hash in it is no bare section directive. */
  lemma HoldsHash(x: string, h: string, y: string)
    requires IsHash(h)
    ensures var s := x + (h + y); s != "" && s != ".text" && s != ".data" && s != ".bss"
  {
    assert |x + (h + y)| >= HASH_LENGTH;
  }

  lemma SameStripped(x: string, h: string, g: string, y: string)
    requires IsHash(h) && IsHash(g)
    ensures var s, t := Strip(x + (h + y)), Strip(x + (g + y));
            && s != "" && s != ".text" && s != ".data" && s != ".bss"
            && t != "" && t != ".text" && t != ".data" && t != ".bss"
            && (StartsWith(s, "#") <==> StartsWith(t, "#")) && (StartsWith(s, ".cfi_") <==> StartsWith(t, ".cfi_"))
  {
    StripAround(x, h, y);
    StripAround(x, g, y);
    HoldsHash(TrimLeft(x), h, TrimRight(y));
    HoldsHash(TrimLeft(x), g, TrimRight(y));
    PrefixAcross(TrimLeft(x), h, g, TrimRight(y), "#");
    PrefixAcross(TrimLeft(x), h, g, TrimRight(y), ".cfi_");
  }

  // ---------------------------------------------------------------- section directives

  lemma {:induction false} NamesRunOn(t: string, r: string)
    requires forall i | 0 <= i < |t| :: NameChar(t[i])
    ensures NameLength(t + r) == |t| + NameLength(r)
  {
    if t == "" {
      assert t + r == r;
    } else {
      Slices(t, r, 1);
      NamesRunOn(t[1..], r);
    }
  }

  lemma SymbolNames(c: char)
    requires SymbolPart(c)
    ensures NameChar(c)
  {
  }

  lemma HashIsName(h: string, y: string)
    requires IsHash(h)
    ensures NameLength(h + y) == HASH_LENGTH + NameLength(y)
  {
    HashIsSymbol(h);
    forall i | 0 <= i < |h| ensures NameChar(h[i]) {
      SymbolNames(h[i]);
    }
    NamesRunOn(h, y);
  }

  lemma {:induction false} NameAcross(x: string, h: string, y: string)
    requires IsHash(h)
    ensures NameLength(x + (h + y)) == if NameLength(x) < |x| then NameLength(x) else |x| + HASH_LENGTH + NameLength(y)
  {
    if x == "" {
      assert x + (h + y) == h + y;
      HashIsName(h, y);
    } else {
      Slices(x, h + y, 1);
      NameAcross(x[1..], h, y);
    }
  }

  lemma QuoteInFront(x: string, h: string, y: string)
    requires IsHash(h)
    ensures WithoutQuote(x + (h + y)) == WithoutQuote(x) + (h + y)
  {
    HashStarts(h);
    if x != "" {
      Slices(x, h + y, 1);
    } else {
      assert x + (h + y) == h + y;
    }
  }

  /** The parts of a directive with a hash in it: the name and attributes up to the hash, and where they are. */
  lemma DirectiveParts(x: string, h: string, y: string)
    requires IsHash(h) && StartsWith(x + (h + y), SECTION_START)
    ensures var s := x + (h + y);
            && |x| >= 10 && WithoutQuote(s[10..]) == WithoutQuote(x[10..]) + (h + y)
            && NameAt(s) == |x| - |WithoutQuote(x[10..])|
  {
    PrefixEndsBefore(x, h, y, SECTION_START);
    Slices(x, h + y, 10);
    QuoteInFront(x[10..], h, y);
  }

  /** A hash in the name: the name goes on behind it as far as the text does. */
  lemma NamePart(p: string, h: string, y: string)
    requires IsHash(h) && NameLength(p) == |p|
    ensures var s, k := p + (h + y), NameLength(y);
            && NameLength(s) == |p| + HASH_LENGTH + k
            && s[..NameLength(s)] == p + (h + y[..k]) && s[NameLength(s)..] == y[k..]
  {
    NameAcross(p, h, y);
    Cuts(p, h, y, NameLength(y));
  }

  lemma Cuts(p: string, h: string, y: string, k: nat)
    requires k <= |y|
    ensures var n := |p| + |h| + k; (p + (h + y))[..n] == p + (h + y[..k]) && (p + (h + y))[n..] == y[k..]
  {
  }

  lemma NameShowsNot(p: string, h: string, g: string, r: string)
    requires IsHash(h) && IsHash(g) && NameLength(p) == |p| && forall i | 0 <= i < |r| :: NameChar(r[i])
    ensures EraseAll(p + (h + r)) == EraseAll(p + (g + r))
  {
    HashLacks(h, '"');
    HashLacks(g, '"');
    assert '"' !in p && '"' !in r;
    OutsidePast(p, "", h + r);
    assert p + "" == p;
    NoQuotesNoStrings(p + (h + r));
    NoQuotesNoStrings(p + (g + r));
    TextShowsExactly(p, h, g, r);
  }

  /** A hash in the attributes. */
  lemma AttributesEdited(p: string, h: string, g: string, y: string)
    requires IsHash(h) && IsHash(g) && NameLength(p) < |p|
    ensures var n, a, s, t := NameLength(p), WithoutQuote(p[NameLength(p)..]), p + (h + y), p + (g + y);
            && NameLength(s) == NameLength(t) == n && s[..n] == t[..n]
            && WithoutQuote(s[n..]) == a + (h + y) && WithoutQuote(t[n..]) == a + (g + y)
            && (Outside(a, h + y) ==> Shown(a + (h + y)) == Shown(a + (g + y)))
  {
    var n := NameLength(p);
    NameAcross(p, h, y);
    NameAcross(p, g, y);
    Slices(p, h + y, n);
    Slices(p, g + y, n);
    QuoteInFront(p[n..], h, y);
    QuoteInFront(p[n..], g, y);
    var a := WithoutQuote(p[n..]);
    if Outside(a, h + y) {
      AttributesShowNot(a, h, g, y);
    }
  }

  lemma AttributesShowNot(a: string, h: string, g: string, y: string)
    requires IsHash(h) && IsHash(g) && Outside(a, h + y)
    ensures Shown(a + (h + y)) == Shown(a + (g + y))
  {
    assert HashSwapped(a + (h + y), a + (g + y), a, h, g, y);
    StrippedTextEdit(a + (h + y), a + (g + y));
    TextEditShowsNot(Strip(a + (h + y)), Strip(a + (g + y)));
  }

  /** What a section directive says, if its line is one. */
  function DirectiveView(line: string): Option<Seen> {
    match SectionDirective(line)
    case Some(SectionStart(name, attrs)) => Some(SeenSection(EraseAll(name), Shown(attrs)))
    case _ => None
  }

  /** The same from the text behind the directive. */
  function RestView(rest: string): Option<Seen> {
    var n := NameLength(rest);
    if n == 0 then None else Some(SeenSection(EraseAll(rest[..n]), Shown(WithoutQuote(rest[n..]))))
  }

  lemma RestViewIs(rest: string, name: string, attrs: string)
    requires 0 < NameLength(rest) && rest[..NameLength(rest)] == name && WithoutQuote(rest[NameLength(rest)..]) == attrs
    ensures RestView(rest) == Some(SeenSection(EraseAll(name), Shown(attrs)))
  {
  }

  lemma DirectiveViewIs(line: string)
    ensures DirectiveView(line) == if StartsWith(line, SECTION_START) then RestView(WithoutQuote(line[10..])) else None
  {
  }

  /** The hash is in the name, or in the attributes outside strings. */
  predicate ErasesRest(p: string, z: string) {
    NameLength(p) == |p| || Outside(WithoutQuote(p[NameLength(p)..]), z)
  }

  lemma SameRestView(p: string, h: string, g: string, y: string)
    requires IsHash(h) && IsHash(g)
    ensures RestView(p + (h + y)).Some? <==> RestView(p + (g + y)).Some?
    ensures ErasesRest(p, h + y) ==> RestView(p + (h + y)) == RestView(p + (g + y))
  {
    if NameLength(p) == |p| {
      var r, a := y[..NameLength(y)], WithoutQuote(y[NameLength(y)..]);
      NamePart(p, h, y);
      NamePart(p, g, y);
      NameShowsNot(p, h, g, r);
      RestViewIs(p + (h + y), p + (h + r), a);
      RestViewIs(p + (g + y), p + (g + r), a);
    } else {
      AttributesEdited(p, h, g, y);
    }
  }

  lemma SameDirectiveView(x: string, h: string, g: string, y: string)
    requires IsHash(h) && IsHash(g)
    ensures var s, t := x + (h + y), x + (g + y);
            && (StartsWith(s, SECTION_START) <==> StartsWith(t, SECTION_START))
            && (DirectiveView(s).Some? <==> DirectiveView(t).Some?)
            && (StartsWith(s, SECTION_START) && |x| >= 10 && ErasesRest(WithoutQuote(x[10..]), h + y) ==>
                  DirectiveView(s) == DirectiveView(t))
  {
    var s, t := x + (h + y), x + (g + y);
    PrefixAcross(x, h, g, y, SECTION_START);
    DirectiveViewIs(s);
    DirectiveViewIs(t);
    if StartsWith(s, SECTION_START) {
      DirectiveParts(x, h, y);
      DirectiveParts(x, g, y);
      SameRestView(WithoutQuote(x[10..]), h, g, y);
    }
  }

  /** Where the hash stands in the line is where it stands in the text behind the directive. */
  lemma ErasesInDirective(x: string, h: string, y: string)
    requires IsHash(h) && StartsWith(x + (h + y), SECTION_START)
    requires var s := x + (h + y);
             |x| < NameEnd(s) || (AttributesAt(s) <= |x| && Outside(x[AttributesAt(s)..], h + y))
    ensures |x| >= 10 && ErasesRest(WithoutQuote(x[10..]), h + y)
  {
    DirectiveParts(x, h, y);
    var p := WithoutQuote(x[10..]);
    NameAcross(p, h, y);
    if NameLength(p) < |p| {
      AttributesStart(x, h, y);
    }
  }

  lemma AttributesStart(x: string, h: string, y: string)
    requires IsHash(h) && StartsWith(x + (h + y), SECTION_START) && |x| >= 10
    requires NameLength(WithoutQuote(x[10..])) < |WithoutQuote(x[10..])|
    ensures var p := WithoutQuote(x[10..]);
            var a := WithoutQuote(p[NameLength(p)..]);
            AttributesAt(x + (h + y)) == |x| - |a| && x[|x| - |a|..] == a
  {
    var p := WithoutQuote(x[10..]);
    DirectiveParts(x, h, y);
    NameAcross(p, h, y);
    Slices(p, h + y, NameLength(p));
    QuoteInFront(p[NameLength(p)..], h, y);
    TailWithoutQuote(x, 10);
    TailWithoutQuote(p, NameLength(p));
    TailOfTail(x, p, WithoutQuote(p[NameLength(p)..]));
  }

  lemma TailWithoutQuote(x: string, n: nat)
    requires n <= |x|
    ensures var a := WithoutQuote(x[n..]); |a| <= |x| && a == x[|x| - |a|..]
  {
  }

  lemma TailOfTail(x: string, p: string, a: string)
    requires |a| <= |p| <= |x| && p == x[|x| - |p|..] && a == p[|p| - |a|..]
    ensures x[|x| - |a|..] == a
  {
  }

  // ---------------------------------------------------------------- what is taken from the line does not change

  lemma ContentEdited(x: string, h: string, g: string, y: string)
    requires IsHash(h) && IsHash(g) && Outside(x, h + y) && !InLabel(x, h + y, 0)
    ensures Content(Strip(x + (h + y))) == Content(Strip(x + (g + y)))
  {
    assert HashSwapped(x + (h + y), x + (g + y), x, h, g, y);
    StrippedLineEdit(x + (h + y), x + (g + y));
    LineEditKeepsContent(Strip(x + (h + y)), Strip(x + (g + y)));
  }

  lemma DirectiveIsSeen(line: string)
    ensures !IsFileDirective(line) && DirectiveView(line).Some? ==> View(line) == DirectiveView(line).value
    ensures Classify(line).SectionStart? <==> !IsFileDirective(line) && DirectiveView(line).Some?
    ensures Classify(line).SectionStart? ==> StartsWith(line, SECTION_START)
  {
  }

  lemma SameSeen(x: string, h: string, g: string, y: string)
    requires IsHash(h) && IsHash(g) && Erases(x + (h + y), x, h + y)
    ensures View(x + (h + y)) == View(x + (g + y))
  {
    var s, t := x + (h + y), x + (g + y);
    SameFileDirective(x, h, g, y);
    SameDirectiveView(x, h, g, y);
    SameStripped(x, h, g, y);
    DirectiveIsSeen(s);
    DirectiveIsSeen(t);
    if Classify(s).SectionStart? {
      ErasesInDirective(x, h, y);
    } else if Classify(s).ContentLine? {
      ContentEdited(x, h, g, y);
    }
  }

  lemma RawEditIsNotSeen(s: string, t: string)
    requires RawEdit(s, t)
    ensures View(s) == View(t)
  {
    var x, h, g, y :| HashSwapped(s, t, x, h, g, y) && Erases(s, x, h + y);
    SameSeen(x, h, g, y);
  }

  /** Any number of such edits on a line. */
  ghost predicate RawRehashed(s: string, t: string) { exists n :: Edits(RawEdit, s, t, n) }

  lemma RehashedIsNotSeen(s: string, t: string)
    requires RawRehashed(s, t)
    ensures View(s) == View(t)
  {
    var n :| Edits(RawEdit, s, t, n);
    forall a, b | RawEdit(a, b) ensures View(a) == View(b) {
      RawEditIsNotSeen(a, b);
    }
    EditsKeep(RawEdit, View, s, t, n);
  }

  // ---------------------------------------------------------------- listings and directories

  predicate ScansAlike(s: Scan, t: Scan) {
    && SameButHashes(s.closed, t.closed) && s.untrusted == t.untrusted
    && (s.current.Some? <==> t.current.Some?)
    && (s.current.Some? ==> SectionsSameButHashes(s.current.value, t.current.value))
  }

  lemma AlikeSections(s: Scan, t: Scan)
    requires ScansAlike(s, t)
    ensures SameButHashes(Sections(s), Sections(t))
  {
    var F, G := Sections(s), Sections(t);
    forall i | 0 <= i < |F| ensures SectionsSameButHashes(F[i], G[i]) {
      assert i < |s.closed| ==> SectionsSameButHashes(s.closed[i], t.closed[i]);
    }
  }

  lemma OneMoreAlike(s: Section, t: Section, l: string, m: string)
    requires SectionsSameButHashes(s, t) && Content(l) == Content(m)
    ensures SectionsSameButHashes(s.(lines := s.lines + [l]), t.(lines := t.lines + [m]))
  {
  }

  lemma LinesScanAlike(s: Scan, t: Scan, l: string, m: string)
    requires ScansAlike(s, t) && View(l) == View(m)
    ensures ScansAlike(ScanLine(s, l), ScanLine(t, m))
  {
    AlikeSections(s, t);
    if Classify(l).ContentLine? && s.current.Some? {
      OneMoreAlike(s.current.value, t.current.value, Classify(l).text, Classify(m).text);
    }
  }

  ghost predicate FileRehashed(file: File, other: File) {
    |file| == |other| && forall k | 0 <= k < |file| :: RawRehashed(file[k], other[k])
  }

  lemma {:induction false} RehashedScansAlike(file: File, other: File)
    requires FileRehashed(file, other)
    ensures ScansAlike(ScanFile(file), ScanFile(other))
  {
    if file != [] {
      var k := |file| - 1;
      assert forall i | 0 <= i < k :: RawRehashed(file[i], other[i]);
      RehashedScansAlike(file[..k], other[..k]);
      assert RawRehashed(file[k], other[k]);
      RehashedIsNotSeen(file[k], other[k]);
      LinesScanAlike(ScanFile(file[..k]), ScanFile(other[..k]), file[k], other[k]);
    }
  }

  lemma RehashedFileParses(file: File, other: File)
    requires FileRehashed(file, other)
    ensures Parsing(file).Err? == Parsing(other).Err?
    ensures Parsing(file).Ok? ==> Parsing(file) == Parsing(other)
  {
    RehashedScansAlike(file, other);
    AlikeSections(ScanFile(file), ScanFile(other));
    ScannedNames(file);
    ScannedNames(other);
    HashesDoNotMatter(SectionsOf(file), SectionsOf(other));
  }

  ghost predicate FilesRehashed(files: seq<File>, others: seq<File>) {
    |files| == |others| && forall i | 0 <= i < |files| :: FileRehashed(files[i], others[i])
  }

  lemma RehashedFilesParse(files: seq<File>, others: seq<File>)
    requires FilesRehashed(files, others)
    ensures AgreeWhenOk(Parsings(files), Parsings(others))
  {
    var ps, qs := Parsings(files), Parsings(others);
    forall i | 0 <= i < |ps| ensures ps[i].Err? == qs[i].Err? && (ps[i].Ok? ==> ps[i] == qs[i]) {
      assert FileRehashed(files[i], others[i]);
      RehashedFileParses(files[i], others[i]);
    }
  }

  /** Other digits in the erased instance hashes of either directory's raw listings never change the exit code. */
  lemma VerdictIgnoresHashDigits(a: seq<File>, a': seq<File>, b: seq<File>, b': seq<File>)
    requires FilesRehashed(a, a') && FilesRehashed(b, b')
    ensures Verdict(a, b) == Verdict(a', b')
  {
    RehashedFilesParse(a, a');
    RehashedFilesParse(b, b');
    LoadingAgrees(Parsings(a), Parsings(a'));
    LoadingAgrees(Parsings(b), Parsings(b'));
  }
}
