/** Renaming local labels in the listings themselves: what the comparator says about whole directories does
    not change. */
module AsmListing {
  import opened Protocol
  import opened Decimal
  import opened AsmText
  import opened AsmMarkers
  import opened AsmContent
  import opened AsmReading
  import opened AsmFile
  import opened AsmBlanks
  import opened AsmLabels
  import opened AsmBodies
  import opened AsmRename
  import opened AsmGather
  import opened AsmCompare

  // ---------------------------------------------------------------- renaming in a line with its blanks

  lemma RenamedBetweenBlanks(line: string, l: string, s: string, r: string, rename: string -> string)
    requires StrippedAs(line, l, s, r)
    ensures RenameLine(line, rename) == l + (RenameLine(s, rename) + r)
  {
    BlanksRead(l, s + r);
    ReadBeforeBlanks(s, r, 0);
    RenderAppend(Plain(l), Items(s, 0) + Plain(r), rename);
    RenderAppend(Items(s, 0), Plain(r), rename);
    RenderPlain(l, rename);
    RenderPlain(r, rename);
  }

  lemma SymbolIsNoSpace(c: char)
    requires SymbolPart(c)
    ensures !IsSpace(c)
  {
  }

  lemma LabelIsNoSpace(name: string)
    requires IsLabelName(name)
    ensures name != [] && !IsSpace(name[0]) && !IsSpace(Last(name))
  {
    SymbolIsNoSpace(name[0]);
    SymbolIsNoSpace(name[|name| - 1]);
  }

  /** Renaming leaves the ends of a text as blank or not as they were. */
  lemma {:induction false} RenamedEnd(items: seq<Item>, rename: string -> string)
    requires Renames(rename) && ProperLabels(items) && items != []
    requires Last(items).Ch? ==> !IsSpace(Last(items).c)
    ensures Render(items, rename) != [] && !IsSpace(Last(Render(items, rename)))
  {
    var front, last := items[..|items| - 1], Last(items);
    RenderAppend(front, [last], rename);
    assert items == front + [last] && [last] == [last] + [];
    RenderCons(last, [], rename);
    assert items[|items| - 1] == last;
    if last.Label? {
      LabelIsNoSpace(rename(last.name));
    }
  }

  lemma {:induction false} LastItem(s: string, quiet: nat)
    requires quiet <= |s| && s != []
    ensures Items(s, quiet) != [] && (Last(Items(s, quiet)).Ch? ==> Last(Items(s, quiet)).c == Last(s))
  {
    FirstItem(s, quiet);
    if StartsLabel(s, quiet) {
      if s[SymbolLength(s)..] != [] {
        LastItem(s[SymbolLength(s)..], 0);
      }
    } else if s[1..] != [] {
      LastItem(s[1..], NextQuiet(s, quiet));
    }
  }

  lemma RenamedEnds(s: string, rename: string -> string)
    requires Renames(rename) && s != [] && !IsSpace(s[0]) && !IsSpace(Last(s))
    ensures var t := RenameLine(s, rename); t != [] && t[0] == s[0] && !IsSpace(Last(t))
  {
    Relex(s, 0, rename);
    LastItem(s, 0);
    ItemsLabels(s, 0);
    RenamedEnd(Items(s, 0), rename);
  }

  lemma RenamedStripped(line: string, l: string, s: string, r: string, rename: string -> string)
    requires Renames(rename) && StrippedAs(line, l, s, r) && s != []
    ensures StrippedAs(RenameLine(line, rename), l, RenameLine(s, rename), r) && RenameLine(s, rename) != []
  {
    RenamedBetweenBlanks(line, l, s, r, rename);
    RenamedEnds(s, rename);
  }

  // ---------------------------------------------------------------- directives are recognised as before

  /** A text that some directive starts with: a symbol that is no local label. */
  predicate DirectiveText(m: string) {
    |m| >= 2 && m[0] == '.' && m[1] != 'L' && forall i | 0 <= i < |m| :: SymbolPart(m[i])
  }

  lemma {:induction false} SymbolCovers(s: string, m: string)
    requires StartsWith(s, m) && forall i | 0 <= i < |m| :: SymbolPart(m[i])
    ensures SymbolLength(s) >= |m|
  {
    if m != [] {
      assert s[0] == s[..|m|][0] && s[1..][..|m| - 1] == s[..|m|][1..];
      SymbolCovers(s[1..], m[1..]);
    }
  }

  /** A text and its renamed form start with the same symbol, unless that is a local label. */
  predicate SameHead(s: string, t: string) {
    var n := SymbolLength(s);
    && n == SymbolLength(t) && t[..n] == s[..n]
    && (n < |t| <==> n < |s|) && (n < |t| ==> t[n] == s[n])
  }

  lemma SameHeadAt(s: string, t: string, k: nat)
    requires SameHead(s, t) && k < SymbolLength(s)
    ensures k < |t| && s[k] == t[k] && SymbolPart(s[k])
  {
    var n := SymbolLength(s);
    assert s[..n][k] == s[k] && t[..n][k] == t[k];
  }

  lemma HeadRenamed(s: string, rename: string -> string)
    requires Renames(rename) && s != [] && SymbolStart(s[0]) && !IsLocal(s[..SymbolLength(s)])
    ensures SameHead(s, RenameLine(s, rename))
    ensures RenameLine(s, rename) == [s[0]] + Render(Items(s[1..], SymbolLength(s) - 1), rename)
  {
    var n := SymbolLength(s);
    Relex(s[1..], n - 1, rename);
    FirstItem(s, 0);
    RenderCons(Ch(s[0]), Items(s[1..], n - 1), rename);
    AlikeHead(s, Render(Items(s[1..], n - 1), rename));
  }

  lemma AlikeHead(s: string, rest: string)
    requires s != [] && SymbolStart(s[0]) && Alike(s[1..], SymbolLength(s) - 1, rest)
    ensures SameHead(s, [s[0]] + rest)
  {
    var n := SymbolLength(s);
    SameFront(s, rest, n);
    SymbolEnds([s[0]] + rest, n);
  }

  lemma LabelHeadRenamed(s: string, rename: string -> string)
    requires Renames(rename) && s != [] && SymbolStart(s[0]) && IsLocal(s[..SymbolLength(s)])
    ensures var t := RenameLine(s, rename); |t| >= 2 && t[1] == 'L'
  {
    var n := SymbolLength(s);
    FirstItem(s, 0);
    ItemsLabels(s, 0);
    assert Items(s, 0)[0] == Label(s[..n]);
    RenderCons(Label(s[..n]), Items(s[n..], 0), rename);
    assert rename(s[..n])[..2][1] == 'L';
  }

  lemma FirstRenamed(s: string, rename: string -> string)
    requires Renames(rename) && s != []
    ensures RenameLine(s, rename) != [] && RenameLine(s, rename)[0] == s[0]
  {
    Relex(s, 0, rename);
  }

  lemma HeadHasFront(s: string, t: string, m: string)
    requires SameHead(s, t) && SymbolLength(s) >= |m| && StartsWith(t, m)
    ensures StartsWith(s, m)
  {
    var n := SymbolLength(s);
    assert s[..|m|] == s[..n][..|m|] && t[..|m|] == t[..n][..|m|];
  }

  /** What starts like a directive after a renaming started like it before, with the same symbol. */
  lemma DirectiveHead(s: string, m: string, rename: string -> string)
    requires Renames(rename) && s != [] && DirectiveText(m) && StartsWith(RenameLine(s, rename), m)
    ensures SameHead(s, RenameLine(s, rename)) && StartsWith(s, m) && SymbolLength(s) >= |m|
    ensures RenameLine(s, rename) == [s[0]] + Render(Items(s[1..], SymbolLength(s) - 1), rename)
  {
    var t := RenameLine(s, rename);
    FirstRenamed(s, rename);
    StartsAt(t, m, 0);
    StartsAt(t, m, 1);
    if IsLocal(s[..SymbolLength(s)]) {
      LabelHeadRenamed(s, rename);
    }
    HeadRenamed(s, rename);
    SymbolCovers(t, m);
    HeadHasFront(s, t, m);
  }

  lemma NotFileDirective(line: string, l: string, s: string, r: string, rename: string -> string)
    requires Renames(rename) && StrippedAs(line, l, s, r) && s != [] && !IsFileDirective(line)
    ensures !IsFileDirective(RenameLine(line, rename))
  {
    var t := RenameLine(s, rename);
    RenamedStripped(line, l, s, r, rename);
    StripOf(line, l, s, r);
    StripOf(RenameLine(line, rename), l, t, r);
    if StartsWith(t + r, ".file") {
      BeforeBlanks(t, r, ".file");
      DirectiveHead(s, ".file", rename);
      if |t + r| > 5 ==> !WordChar((t + r)[5]) {
        FileDirectiveBack(s, t, r);
      }
    }
  }

  /** A text of symbol characters cannot reach into the blanks behind a line. */
  lemma BeforeBlanks(t: string, r: string, m: string)
    requires Blank(r) && StartsWith(t + r, m) && forall i | 0 <= i < |m| :: SymbolPart(m[i])
    ensures StartsWith(t, m)
  {
    SymbolCovers(t + r, m);
    SymbolBeforeBlanks(t, r);
    assert (t + r)[..|m|] == t[..|m|];
  }

  lemma FileDirectiveBack(s: string, t: string, r: string)
    requires SameHead(s, t) && StartsWith(s, ".file") && SymbolLength(s) >= 5
    requires |t + r| > 5 ==> !WordChar((t + r)[5])
    ensures StartsWith(s + r, ".file") && (|s + r| > 5 ==> !WordChar((s + r)[5]))
  {
    assert (s + r)[..5] == s[..5];
    if SymbolLength(s) > 5 {
      SameHeadAt(s, t, 5);
    }
  }

  lemma SameNames(s: string, m: string, rename: string -> string)
    requires Renames(rename) && s != [] && DirectiveText(m) && RenameLine(s, rename) == m
    ensures s == m
  {
    DirectiveHead(s, m, rename);
    assert m[..|m|] == m;
    assert s[..|m|] == s;
  }

  lemma NotNamed(s: string, rename: string -> string)
    requires Renames(rename) && s != []
    requires s != ".text" && s != ".data" && s != ".bss" && !StartsWith(s, "#") && !StartsWith(s, ".cfi_")
    ensures var t := RenameLine(s, rename);
            t != ".text" && t != ".data" && t != ".bss" && !StartsWith(t, "#") && !StartsWith(t, ".cfi_")
  {
    var t := RenameLine(s, rename);
    FirstRenamed(s, rename);
    if t == ".text" {
      SameNames(s, ".text", rename);
    }
    if t == ".data" {
      SameNames(s, ".data", rename);
    }
    if t == ".bss" {
      SameNames(s, ".bss", rename);
    }
    if StartsWith(t, ".cfi_") {
      DirectiveHead(s, ".cfi_", rename);
    }
    assert StartsWith(t, "#") <==> t[0] == '#';
    assert StartsWith(s, "#") <==> s[0] == '#';
  }

  // ---------------------------------------------------------------- section directives

  const SECTION: string := ".section"

  /** The line starts like a section directive: a tab, the directive, a tab. */
  lemma SectionHead(line: string, l: string, t: string, r: string)
    requires StrippedAs(line, l, t, r) && t != [] && StartsWith(line, "\t.section\t")
    ensures l == "\t" && StartsWith(t, SECTION) && |t + r| > 8 && (t + r)[8] == '\t'
  {
    var front := "\t.section\t";
    Beginning(line, l, t, r);
    assert line[0] == line[..10][0] && line[1] == line[..10][1] && line[9] == line[..10][9];
    assert l == "\t";
    assert line == "\t" + (t + r) && (t + r)[..8] == line[..10][1..9];
    assert front[1..9] == SECTION;
    BeforeBlanks(t, r, SECTION);
  }

  lemma Beginning(line: string, l: string, t: string, r: string)
    requires StrippedAs(line, l, t, r) && t != []
    ensures |l| == 0 ==> !IsSpace(line[0])
    ensures |l| > 1 ==> IsSpace(line[1])
    ensures |l| == 1 ==> line[0] == l[0]
  {
    assert |l| == 0 ==> line[0] == t[0];
    assert |l| > 0 ==> line[0] == l[0];
    assert |l| > 1 ==> line[1] == l[1];
  }

  predicate NamesNothing(rest: string) { NameLength(WithoutQuote(rest)) == 0 }

  lemma NamesNothingAt(rest: string)
    ensures NamesNothing(rest) <==> || rest == [] || (rest[0] != '"' && !NameChar(rest[0]))
                                    || (rest[0] == '"' && (|rest| == 1 || !NameChar(rest[1])))
  {
  }

  lemma NoNameIsPlain(c: char)
    requires !NameChar(c)
    ensures !SymbolStart(c)
  {
  }

  /** What names no section before a renaming names none after it. */
  lemma StillNameless(u: string, r: string, rename: string -> string)
    requires Renames(rename) && Blank(r) && NamesNothing(u + r)
    ensures NamesNothing(RenameLine(u, rename) + r)
  {
    var v := RenameLine(u, rename);
    NamesNothingAt(u + r);
    NamesNothingAt(v + r);
    if u == [] {
      assert v == [];
    } else {
      FirstRenamed(u, rename);
      if u[0] == '"' {
        QuoteThenNothing(u, r, rename);
      }
    }
  }

  lemma QuoteThenNothing(u: string, r: string, rename: string -> string)
    requires Renames(rename) && Blank(r) && u != [] && u[0] == '"' && (|u + r| == 1 || !NameChar((u + r)[1]))
    ensures var v := RenameLine(u, rename); v != [] && v[0] == '"' && (|v + r| == 1 || !NameChar((v + r)[1]))
  {
    var q := NextQuiet(u, 0);
    FirstItem(u, 0);
    RenderCons(Ch('"'), Items(u[1..], q), rename);
    var rest := Render(Items(u[1..], q), rename);
    assert RenameLine(u, rename) == ['"'] + rest;
    if |u| == 1 {
      assert u[1..] == [] && rest == [];
    } else {
      assert u[1..][0] == u[1] == (u + r)[1];
      NoNameIsPlain(u[1]);
      PlainFirst(u[1..], q, rename);
    }
  }

  lemma PlainFirst(s: string, quiet: nat, rename: string -> string)
    requires quiet <= |s| && s != [] && !SymbolStart(s[0])
    ensures var t := Render(Items(s, quiet), rename); t != [] && t[0] == s[0]
  {
    FirstItem(s, quiet);
    RenderCons(Ch(s[0]), Items(s[1..], NextQuiet(s, quiet)), rename);
  }

  /** Behind the directive and its tab a line is renamed on its own. */
  lemma BehindDirective(s: string, rename: string -> string)
    requires Renames(rename) && StartsWith(s, SECTION) && |s| > 8 && s[8] == '\t'
    ensures RenameLine(s, rename) == s[..9] + RenameLine(s[9..], rename)
  {
    var u := s[9..];
    DirectiveRead(s);
    RenderAppend(Plain(s[..9]), Items(u, 0), rename);
    RenderPlain(s[..9], rename);
  }

  /** A symbol that is no local label is read as plain characters. */
  lemma SymbolRead(m: string, w: string)
    requires DirectiveText(m) && (w == [] || !SymbolPart(w[0]))
    ensures Items(m + w, 0) == Plain(m) + Items(w, 0)
  {
    FirstOfSymbol(m, w);
    PlainAhead(m[1..], w);
    PlainBehind(m, Items(w, 0));
  }

  lemma FirstOfSymbol(m: string, w: string)
    requires DirectiveText(m) && (w == [] || !SymbolPart(w[0]))
    ensures Items(m + w, 0) == [Ch(m[0])] + Items(m[1..] + w, |m| - 1)
  {
    SymbolLengthIs(m, w);
    Slices(m, w, |m|);
    Slices(m, w, 1);
    NotLocal(m);
    FirstItem(m + w, 0);
  }

  lemma NotLocal(m: string)
    requires DirectiveText(m)
    ensures !IsLocal(m)
  {
    assert m[..2][1] == m[1];
  }

  lemma DirectiveRead(s: string)
    requires StartsWith(s, SECTION) && |s| > 8 && s[8] == '\t'
    ensures Items(s, 0) == Plain(s[..9]) + Items(s[9..], 0)
  {
    var w := s[8..];
    assert s == SECTION + w && w[0] == '\t' && w[1..] == s[9..];
    SymbolRead(SECTION, w);
    FirstItem(w, 0);
    assert s[..9] == SECTION + ['\t'];
    PlainThen(SECTION, '\t', Items(s[9..], 0));
  }

  lemma PlainThen(m: string, c: char, rest: seq<Item>)
    ensures Plain(m) + ([Ch(c)] + rest) == Plain(m + [c]) + rest
  {
    assert Plain(m + [c]) == Plain(m) + [Ch(c)];
  }

  lemma {:induction false} PlainAhead(m: string, w: string)
    ensures Items(m + w, |m|) == Plain(m) + Items(w, 0)
  {
    if m == [] {
      assert m + w == w && Plain(m) == [];
    } else {
      Slices(m, w, 1);
      PlainAhead(m[1..], w);
      PlainBehind(m, Items(w, 0));
    }
  }

  lemma NotSectionDirective(line: string, l: string, s: string, r: string, rename: string -> string)
    requires Renames(rename) && StrippedAs(line, l, s, r) && s != [] && SectionDirective(line).None?
    ensures SectionDirective(RenameLine(line, rename)).None?
  {
    if StartsWith(RenameLine(line, rename), "\t.section\t") {
      SectionBefore(line, l, s, r, rename);
      RestNameless(line, s, r, rename);
    }
  }

  lemma SectionBefore(line: string, l: string, s: string, r: string, rename: string -> string)
    requires Renames(rename) && StrippedAs(line, l, s, r) && s != []
             && StartsWith(RenameLine(line, rename), "\t.section\t")
    ensures l == "\t" && StartsWith(s, SECTION) && |s + r| > 8 && (s + r)[8] == '\t'
  {
    RenamedStripped(line, l, s, r, rename);
    SectionHead(RenameLine(line, rename), l, RenameLine(s, rename), r);
    DirectiveHead(s, SECTION, rename);
    SectionBehind(s, RenameLine(s, rename), r);
  }

  lemma SectionBehind(s: string, t: string, r: string)
    requires SameHead(s, t) && StartsWith(s, SECTION) && SymbolLength(s) >= 8 && Blank(r)
    requires |t + r| > 8 && (t + r)[8] == '\t'
    ensures SymbolLength(s) == 8 && |s + r| > 8 && (s + r)[8] == '\t' && (|s| > 8 <==> |t| > 8)
  {
    if SymbolLength(s) > 8 {
      SameHeadAt(s, t, 8);
    }
  }

  lemma RestNameless(line: string, s: string, r: string, rename: string -> string)
    requires Renames(rename) && StrippedAs(line, "\t", s, r) && SectionDirective(line).None?
    requires StartsWith(s, SECTION) && |s + r| > 8 && (s + r)[8] == '\t'
    ensures SectionDirective(RenameLine(line, rename)).None?
  {
    RenamedStripped(line, "\t", s, r, rename);
    FrontIs(line, s, r);
    if |s| > 8 {
      RestRenamed(s, r, rename);
      FrontIs(RenameLine(line, rename), RenameLine(s, rename), r);
    } else {
      assert s == SECTION;
      DirectiveAlone(rename);
    }
  }

  lemma RestRenamed(s: string, r: string, rename: string -> string)
    requires Renames(rename) && StartsWith(s, SECTION) && |s| > 8 && s[8] == '\t' && Blank(r)
             && NamesNothing((s + r)[9..])
    ensures var t := RenameLine(s, rename);
            StartsWith(t, SECTION) && |t| > 8 && t[8] == '\t' && NamesNothing((t + r)[9..])
  {
    var u := RenameLine(s[9..], rename);
    BehindDirective(s, rename);
    Slices(s, r, 9);
    StillNameless(s[9..], r, rename);
    Spliced(s, u, r);
    assert u + r == (RenameLine(s, rename) + r)[9..];
  }

  lemma Spliced(s: string, u: string, r: string)
    requires |s| > 8
    ensures var t := s[..9] + u; t[..8] == s[..8] && t[8] == s[8] && (t + r)[9..] == u + r
  {
  }

  lemma FrontIs(line: string, s: string, r: string)
    requires line == "\t" + (s + r) && StartsWith(s, SECTION) && |s + r| > 8 && (s + r)[8] == '\t'
    ensures StartsWith(line, "\t.section\t") && line[10..] == (s + r)[9..]
    ensures SectionDirective(line).None? <==> NamesNothing((s + r)[9..])
  {
    assert (s + r)[..8] == s[..8];
    assert line[..10] == "\t" + (s + r)[..8] + ['\t'];
    assert line[10..] == (s + r)[9..];
  }

  lemma DirectiveAlone(rename: string -> string)
    requires Renames(rename)
    ensures RenameLine(SECTION, rename) == SECTION
  {
    SymbolRead(SECTION, "");
    assert SECTION + "" == SECTION && Plain(SECTION) + [] == Plain(SECTION);
    RenderPlain(SECTION, rename);
  }

  // ---------------------------------------------------------------- content lines stay content lines

  lemma ContentRenamed(line: string, rename: string -> string)
    requires Renames(rename) && Classify(line).ContentLine?
    ensures Classify(RenameLine(line, rename)) == ContentLine(RenameLine(Classify(line).text, rename))
  {
    var s := Strip(line);
    var l, r := Stripping(line);
    RenamedStripped(line, l, s, r, rename);
    StripOf(RenameLine(line, rename), l, RenameLine(s, rename), r);
    NotFileDirective(line, l, s, r, rename);
    NotSectionDirective(line, l, s, r, rename);
    NotNamed(s, rename);
  }

  // ---------------------------------------------------------------- listings

  /** Renames the labels of a raw line if it carries content; directives that the comparator reads or skips
      and comments stay as they are. */
  function RenameRaw(line: string, rename: string -> string): string {
    if Classify(line).ContentLine? then RenameLine(line, rename) else line
  }

  function RenameFile(file: File, rename: string -> string): File {
    seq(|file|, i requires 0 <= i < |file| => RenameRaw(file[i], rename))
  }

  function RenameScan(s: Scan, rename: string -> string): Scan {
    Scan(RenameSections(s.closed, rename),
         match s.current case None => None case Some(c) => Some(c.(lines := RenameLines(c.lines, rename))), s.untrusted)
  }

  lemma RenameLinesGrow(lines: seq<string>, text: string, rename: string -> string)
    ensures RenameLines(lines + [text], rename) == RenameLines(lines, rename) + [RenameLine(text, rename)]
  {
  }

  lemma RenamedSections(s: Scan, rename: string -> string)
    ensures Sections(RenameScan(s, rename)) == RenameSections(Sections(s), rename)
  {
  }

  lemma ScanLineRenamed(s: Scan, line: string, rename: string -> string)
    requires Renames(rename)
    ensures ScanLine(RenameScan(s, rename), RenameRaw(line, rename)) == RenameScan(ScanLine(s, line), rename)
  {
    RenamedSections(s, rename);
    if Classify(line).ContentLine? {
      ContentRenamed(line, rename);
      if s.current.Some? {
        RenameLinesGrow(s.current.value.lines, Classify(line).text, rename);
      }
    } else {
      assert RenameLines([], rename) == [];
    }
  }

  /** Reading a renamed listing gives the renamed sections. */
  lemma {:induction false} ScanRenamed(file: File, rename: string -> string)
    requires Renames(rename)
    ensures ScanFile(RenameFile(file, rename)) == RenameScan(ScanFile(file), rename)
  {
    if file == [] {
      assert RenameSections([], rename) == [];
    } else {
      var front := file[..|file| - 1];
      ScanRenamed(front, rename);
      assert RenameFile(file, rename)[..|file| - 1] == RenameFile(front, rename);
      ScanLineRenamed(ScanFile(front), Last(file), rename);
    }
  }

  /** Renaming the labels in the content lines of a listing, as text and one to one, changes nothing in what
      the listing contributes, and a rejected one gets the same complaint about the renamed label. */
  lemma ParsingRenamed(file: File, rename: string -> string)
    requires Renames(rename) && OneToOne(rename)
    ensures Parsing(RenameFile(file, rename)) == RenameResult(Parsing(file), rename)
  {
    ScanRenamed(file, rename);
    RenamedSections(ScanFile(file), rename);
    RenamingKeepsOutcome(Sections(ScanFile(file)), rename);
  }

  // ---------------------------------------------------------------- directories

  /** Every listing of a directory under its own renaming. */
  function RenameFiles(files: seq<File>, renames: seq<string -> string>): seq<File>
    requires |renames| == |files|
  {
    seq(|files|, i requires 0 <= i < |files| => RenameFile(files[i], renames[i]))
  }

  /** The labels on the content lines of a listing. */
  function FileLabels(file: File): set<string> {
    if file == [] then {}
    else FileLabels(file[..|file| - 1]) + if Classify(Last(file)).ContentLine? then LabelsOf(Last(file)) else {}
  }

  /** Every listing's own labels are renamed one to one; what a renaming does to others does not matter. */
  ghost predicate EachRenamed(files: seq<File>, renames: seq<string -> string>) {
    |renames| == |files| && forall i | 0 <= i < |files| :: RenamesOnly(FileLabels(files[i]), renames[i])
  }

  lemma {:induction false} FileAgrees(file: File, f: string -> string, g: string -> string)
    requires forall x | x in FileLabels(file) :: f(x) == g(x)
    ensures RenameFile(file, f) == RenameFile(file, g)
  {
    if file != [] {
      var front := file[..|file| - 1];
      FileAgrees(front, f, g);
      if Classify(Last(file)).ContentLine? {
        RenameAgrees(Last(file), f, g);
      }
      RenameFileGrows(file, f);
      RenameFileGrows(file, g);
    }
  }

  lemma RenameFileGrows(file: File, rename: string -> string)
    requires file != []
    ensures RenameFile(file, rename) == RenameFile(file[..|file| - 1], rename) + [RenameRaw(file[|file| - 1], rename)]
  {
  }

  /** The same for a renaming that is one to one on the labels of the listing. */
  lemma OwnLabelsRenamed(file: File, rename: string -> string)
    requires RenamesOnly(FileLabels(file), rename)
    ensures Parsing(RenameFile(file, rename)).Err? == Parsing(file).Err?
    ensures Parsing(file).Ok? ==> Parsing(RenameFile(file, rename)) == Parsing(file)
  {
    var all := RenamingExtends(FileLabels(file), rename);
    FileAgrees(file, rename, all);
    ParsingRenamed(file, all);
  }

  lemma FilesRenamed(files: seq<File>, renames: seq<string -> string>)
    requires EachRenamed(files, renames)
    ensures AgreeWhenOk(Parsings(files), Parsings(RenameFiles(files, renames)))
  {
    var ps, qs := Parsings(files), Parsings(RenameFiles(files, renames));
    forall i | 0 <= i < |files| ensures ps[i].Err? == qs[i].Err? && (ps[i].Ok? ==> ps[i] == qs[i]) {
      OwnLabelsRenamed(files[i], renames[i]);
    }
  }

  /** What the comparator is for: renaming local labels in the listings of both directories, each listing's
      labels one to one on their own, never changes the exit code. */
  lemma VerdictIgnoresLabelNames(a: seq<File>, b: seq<File>, f: seq<string -> string>, g: seq<string -> string>)
    requires EachRenamed(a, f) && EachRenamed(b, g)
    ensures Verdict(RenameFiles(a, f), RenameFiles(b, g)) == Verdict(a, b)
  {
    FilesRenamed(a, f);
    FilesRenamed(b, g);
    LoadingAgrees(Parsings(a), Parsings(RenameFiles(a, f)));
    LoadingAgrees(Parsings(b), Parsings(RenameFiles(b, g)));
  }
}
