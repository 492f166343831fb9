/** What the canonical output of one listing means: two listings have equal outputs exactly when one is the
    other with its local labels renamed and its instance hashes changed. */
module AsmAlpha {
  import opened Protocol
  import opened Decimal
  import opened AsmText
  import opened AsmMarkers
  import opened AsmContent
  import opened AsmReading
  import opened AsmFile
  import opened AsmLabels
  import opened AsmBodies

  // ---------------------------------------------------------------- what is compared

  ghost predicate IsDefined(sections: seq<Section>, name: string) {
    exists i: nat, p: nat :: DefinedAt(sections, i, p, name)
  }

  type Renaming = map<string, string>

  function Rename(m: Renaming): string -> string { x => if x in m then m[x] else x }

  /** A one-to-one correspondence between the local labels of two listings. */
  ghost predicate Bijection(m: Renaming, F: seq<Section>, G: seq<Section>) {
    && (forall a :: a in m <==> IsDefined(F, a))
    && (forall a :: a in m ==> IsDefined(G, m[a]))
    && (forall a, b :: a in m && b in m && m[a] == m[b] ==> a == b)
    && (forall b :: IsDefined(G, b) ==> exists a :: a in m && m[a] == b)
  }

  /** Same attributes, and the same lines once labels are renamed, up to instance hashes. */
  ghost predicate SameSection(s: Section, t: Section, m: Renaming) {
    && NormalizeHashes(Strip(s.attrs)) == NormalizeHashes(Strip(t.attrs))
    && |s.lines| == |t.lines|
    && forall p | 0 <= p < |s.lines| :: MapLabels(Content(s.lines[p]), Rename(m)) == Content(t.lines[p])
  }

  /** Every section of the first listing has a partner in the second. */
  ghost predicate Partnered(F: seq<Section>, G: seq<Section>) {
    forall i: nat :: i < |F| ==> HasPartner(F, i, G)
  }

  ghost predicate HasPartner(F: seq<Section>, i: nat, G: seq<Section>) { exists j: nat :: Partners(F, i, G, j) }

  ghost predicate MatchedBy(F: seq<Section>, G: seq<Section>, m: Renaming) {
    forall i: nat, j: nat :: Partners(F, i, G, j) ==> SameSection(F[i], G[j], m)
  }

  ghost predicate AlphaEquivalent(F: seq<Section>, G: seq<Section>) {
    Partnered(F, G) && Partnered(G, F) && exists m :: Bijection(m, F, G) && MatchedBy(F, G, m)
  }

  // ---------------------------------------------------------------- reserved text

  predicate CleanLine(line: string) { Unreserved(Line(line)) && !Begins(Line(line), ATTRS_MARK) }

  /** The listing itself never spells the texts the comparator writes. */
  predicate Unmarked(sections: seq<Section>) {
    forall i, p | 0 <= i < |sections| && 0 <= p < |sections[i].lines| :: CleanLine(sections[i].lines[p])
  }

  /** No reference to one section can run on into a reference to another: no name starts with another
      section's key, an ordinal and a bracket, behind which comes something that can follow a label. */
  ghost predicate Unambiguous(sections: seq<Section>) {
    forall i, j | 0 <= i < |sections| && 0 <= j < |sections| :: !RunsInto(Key(sections, i), Canon(sections[j]))
  }

  ghost predicate Clean(sections: seq<Section>) { ProperNames(sections) && Unambiguous(sections) && Unmarked(sections) }

  /** In particular section names without closing brackets are unambiguous. */
  lemma NoBracketsUnambiguous(sections: seq<Section>)
    requires NoBrackets(sections)
    ensures Unambiguous(sections)
  {
    forall i, j | 0 <= i < |sections| && 0 <= j < |sections| ensures !RunsInto(Key(sections, i), Canon(sections[j])) {
      EraseAllAvoids(sections[j].name, ']');
      if RunsInto(Key(sections, i), Canon(sections[j])) {
        RunsIntoBracket(Key(sections, i), Canon(sections[j]));
      }
    }
  }

  lemma RunsIntoBracket(key: string, name: string)
    requires RunsInto(key, name)
    ensures ']' in name
  {
    var n: nat, s :| name == key + ":" + Print(n) + "]" + s && CanFollow(s);
    assert name[|key + ":" + Print(n)|] == ']';
  }

  lemma CanonicalLineIs(line: string, sections: seq<Section>, table: Table, here: nat)
    requires IsTable(table, sections) && ProperNames(sections) && LineDefined(line, table)
    ensures CanonicalLine(line, table, here) == Render(Content(line), CanonText(table, here))
  {
    var items, text := Line(line), CanonText(table, here);
    forall i | 0 <= i < |items| && items[i].Label? ensures Harmless(text(items[i].name)) {
      MarkersAreHarmless(table, sections, here, items[i].name);
    }
    ItemsSeparated(line, 0);
    EraseRender(items, text, 0);
    assert items[..0] == [];
  }

  lemma ContentFacts(line: string, table: Table)
    requires LineDefined(line, table)
    ensures Separated(Content(line)) && Unglued(Content(line)) && LabelsOnly(Content(line), table.Keys)
    ensures Unreserved(Line(line)) ==> Unreserved(Content(line))
  {
    ItemsSeparated(line, 0);
    ItemsUnglued(line, 0);
    ErasedSeparated(Line(line), 0);
    ErasedUnglued(Line(line), 0);
    ErasedLabels(Line(line), 0, table.Keys);
    if Unreserved(Line(line)) {
      ErasedUnreserved(Line(line), 0);
    }
  }

  lemma MarkIsNoAttrs(t: string, rest: string)
    requires StartsMark(t)
    ensures !StartsWith(t + rest, ATTRS_MARK)
  {
    var w := t + rest;
    assert w[2] == t[2] == t[..5][2];
  }

  /** Only attribute lines look like attribute lines. */
  lemma ContentIsNoAttrs(line: string, sections: seq<Section>, table: Table, here: nat)
    requires IsTable(table, sections) && ProperNames(sections)
    requires LineDefined(line, table) && CleanLine(line)
    ensures !StartsWith(CanonicalLine(line, table, here), ATTRS_MARK)
  {
    CanonicalLineIs(line, sections, table, here);
    ContentFacts(line, table);
    var items, text := Content(line), CanonText(table, here);
    if items != [] && items[0].Label? {
      TextsAreMarks(table, sections, here, items[0].name);
      MarkIsNoAttrs(text(items[0].name), Render(items[1..], text));
    } else if StartsWith(Render(items, text), ATTRS_MARK) {
      RenderedSymbol(items, text, ATTRS_MARK);
      BeginsErased(Line(line), 0, ATTRS_MARK);
    }
  }

  lemma AttrsAreAttrs(x: string)
    ensures StartsWith(ATTRS_MARK + x, ATTRS_MARK)
  {
    assert (ATTRS_MARK + x)[..|ATTRS_MARK|] == ATTRS_MARK;
  }

  lemma ChunkLine(sections: seq<Section>, i: nat, p: nat)
    requires Accepted(sections) && Clean(sections) && i < |sections| && p < |sections[i].lines|
    ensures !StartsWith(CanonicalLine(sections[i].lines[p], TableOf(sections), i), ATTRS_MARK)
  {
    AcceptedFacts(sections);
    AcceptedLabels(sections, i);
    assert CleanLine(sections[i].lines[p]) && LineDefined(sections[i].lines[p], TableOf(sections));
    ContentIsNoAttrs(sections[i].lines[p], sections, TableOf(sections), i);
  }

  lemma MakesChunk(head: string, lines: seq<string>)
    requires StartsWith(head, ATTRS_MARK) && forall p | 0 <= p < |lines| :: !StartsWith(lines[p], ATTRS_MARK)
    ensures IsChunk([head] + lines)
  {
  }

  lemma ChunksAreChunks(sections: seq<Section>, i: nat)
    requires Accepted(sections) && Clean(sections) && i < |sections|
    ensures IsChunk(Chunk(sections, TableOf(sections), i))
  {
    AttrsAreAttrs(NormalizeHashes(Strip(sections[i].attrs)));
    var c := Chunk(sections, TableOf(sections), i);
    forall p | 0 <= p < |c| - 1 ensures !StartsWith(c[1..][p], ATTRS_MARK) {
      ChunkLine(sections, i, p);
    }
    MakesChunk(c[0], c[1..]);
    assert c == [c[0]] + c[1..];
  }

  // ---------------------------------------------------------------- outputs and contributions

  function AllChunks(sections: seq<Section>, name: string): seq<seq<string>> {
    Chunks(Parts(sections, TableOf(sections)), name)
  }

  lemma ChunkOf(sections: seq<Section>, i: nat)
    requires Accepted(sections) && i < |sections|
    ensures var chunks := AllChunks(sections, Canon(sections[i]));
            Occurrence(sections, i) < |chunks|
                && chunks[Occurrence(sections, i)] == Chunk(sections, TableOf(sections), i)
  {
    AcceptedFacts(sections);
    AcceptedLabels(sections, i);
    ChunkAt(sections, TableOf(sections), i);
  }

  lemma OriginOf(sections: seq<Section>, name: string, k: nat) returns (i: nat)
    requires Accepted(sections) && k < |AllChunks(sections, name)|
    ensures i < |sections| && Canon(sections[i]) == name && Occurrence(sections, i) == k
    ensures AllChunks(sections, name)[k] == Chunk(sections, TableOf(sections), i)
  {
    AcceptedFacts(sections);
    var parts := Parts(sections, TableOf(sections));
    assert parts[..|sections|] == parts;
    i := ChunkOrigin(sections, TableOf(sections), |sections|, name, k);
    ChunkOf(sections, i);
  }

  /** The output lists, for every name, the body made of all contributions to it. */
  lemma OutputBody(sections: seq<Section>, name: string)
    requires Accepted(sections)
    ensures var p := Outcome(sections).value;
            && (name in p.funcs <==> IsText(name) && AllChunks(sections, name) != [])
            && (name in p.blocks <==> !IsText(name) && AllChunks(sections, name) != [])
            && (name in p.funcs ==> p.funcs[name] == Flatten(AllChunks(sections, name)))
            && (name in p.blocks ==> p.blocks[name] == Flatten(AllChunks(sections, name)))
  {
    AcceptedBody(sections, name);
    var parts := Parts(sections, TableOf(sections));
    if name !in NamesOf(parts) {
      NoChunks(parts, name);
    } else {
      var i :| 0 <= i < |parts| && parts[i].name == name;
      ChunkOf(sections, i);
    }
  }

  lemma EqualOutputsEqualChunks(F: seq<Section>, G: seq<Section>, name: string)
    requires Accepted(F) && Accepted(G) && Clean(F) && Clean(G) && Outcome(F) == Outcome(G)
    ensures AllChunks(F, name) == AllChunks(G, name)
  {
    OutputBody(F, name);
    OutputBody(G, name);
    var xs, ys := AllChunks(F, name), AllChunks(G, name);
    if xs != [] {
      forall k | 0 <= k < |xs| ensures IsChunk(xs[k]) {
        var i := OriginOf(F, name, k);
        ChunksAreChunks(F, i);
      }
      forall k | 0 <= k < |ys| ensures IsChunk(ys[k]) {
        var i := OriginOf(G, name, k);
        ChunksAreChunks(G, i);
      }
      FlattenInjective(xs, ys);
    }
  }

  lemma EqualChunksEqualOutputs(F: seq<Section>, G: seq<Section>)
    requires Accepted(F) && Accepted(G) && forall name :: AllChunks(F, name) == AllChunks(G, name)
    ensures Outcome(F) == Outcome(G)
  {
    var p, q := Outcome(F).value, Outcome(G).value;
    forall name
      ensures name in p.funcs <==> name in q.funcs
      ensures name in p.blocks <==> name in q.blocks
      ensures name in p.funcs ==> p.funcs[name] == q.funcs[name]
      ensures name in p.blocks ==> p.blocks[name] == q.blocks[name]
    {
      OutputBody(F, name);
      OutputBody(G, name);
    }
    assert p.funcs == q.funcs && p.blocks == q.blocks;
    AcceptedBody(F, "");
    AcceptedBody(G, "");
  }

  // ---------------------------------------------------------------- equal outputs are alpha-equivalent

  lemma EqualOutputsPartnered(F: seq<Section>, G: seq<Section>)
    requires Accepted(F) && Accepted(G) && Clean(F) && Clean(G) && Outcome(F) == Outcome(G)
    ensures Partnered(F, G)
  {
    forall i: nat | i < |F| ensures HasPartner(F, i, G) {
      ChunkOf(F, i);
      EqualOutputsEqualChunks(F, G, Canon(F[i]));
      var j := OriginOf(G, Canon(F[i]), Occurrence(F, i));
      assert Partners(F, i, G, j);
    }
  }

  lemma PartnersContributeAlike(F: seq<Section>, i: nat, G: seq<Section>, j: nat)
    requires Accepted(F) && Accepted(G) && Clean(F) && Clean(G) && Outcome(F) == Outcome(G) && Partners(F, i, G, j)
    ensures Chunk(F, TableOf(F), i) == Chunk(G, TableOf(G), j)
  {
    EqualOutputsEqualChunks(F, G, Canon(F[i]));
    ChunkOf(F, i);
    ChunkOf(G, j);
  }

  /** Without brackets in section names a canonical line can even be read back by itself: every mark ends at its
      first bracket. */
  lemma LineReads(sections: seq<Section>, table: Table, i: nat, l: string, names: string -> string)
    requires IsTable(table, sections) && ProperNames(sections) && NoBrackets(sections)
    requires LineDefined(l, table) && CleanLine(l)
    ensures Decode(CanonicalLine(l, table, i), names) == MapLabels(Content(l), x => names(CanonText(table, i)(x)))
  {
    CanonicalLineIs(l, sections, table, i);
    ContentFacts(l, table);
    forall k | 0 <= k < |Content(l)| && Content(l)[k].Label? ensures IsMarker(CanonText(table, i)(Content(l)[k].name)) {
      MarkersAreMarkers(table, sections, i, Content(l)[k].name);
    }
    DecodeRender(Content(l), CanonText(table, i), names);
  }

  lemma AllTextsAreMarks(items: seq<Item>, sections: seq<Section>, table: Table, here: nat)
    requires IsTable(table, sections) && LabelsOnly(items, table.Keys)
    ensures AllMarks(items, CanonText(table, here))
  {
    forall k | 0 <= k < |items| && items[k].Label? ensures StartsMark(CanonText(table, here)(items[k].name)) {
      TextsAreMarks(table, sections, here, items[k].name);
    }
  }

  /** Both are local, or both are references, or neither begins the other. */
  lemma KindsDiffer(m: nat, key: string, n: nat, behind: string)
    ensures !RunsOn(LocalMarker(m), behind, RefMarker(key, n)) && !RunsOn(RefMarker(key, n), behind, LocalMarker(m))
  {
    ThirdDiffers(LocalMarker(m), behind, RefMarker(key, n));
    ThirdDiffers(RefMarker(key, n), behind, LocalMarker(m));
  }

  lemma ThirdDiffers(x: string, behind: string, y: string)
    requires |x| > 2 && |y| > 2 && x[2] != y[2]
    ensures !RunsOn(x, behind, y)
  {
    if RunsOn(x, behind, y) {
      var r := Continuation(x, behind, y);
    }
  }

  lemma LocalRunsNotOn(m: nat, n: nat, items: seq<Item>, text: string -> string, k: nat)
    requires Separated(items) && k < |items| && items[k].Label?
    ensures !RunsOn(LocalMarker(m), Render(items[k + 1..], text), LocalMarker(n))
  {
    if RunsOn(LocalMarker(m), Render(items[k + 1..], text), LocalMarker(n)) {
      var r := Continuation(LocalMarker(m), Render(items[k + 1..], text), LocalMarker(n));
      LocalNeverContinues(m, n, r);
      FirstBehind(items, text, k, r);
    }
  }

  lemma SharedKeys(F: seq<Section>, G: seq<Section>, f: nat, g: nat)
    requires Unambiguous(F) && Partnered(G, F) && f < |F| && g < |G|
    ensures !RunsInto(Key(F, f), Canon(G[g]))
  {
    assert HasPartner(G, g, F);
    var h: nat :| Partners(G, g, F, h);
    assert !RunsInto(Key(F, f), Canon(F[h]));
  }

  /** A reference never runs on into a reference of the other listing, because their sections are the same. */
  lemma ReferenceRunsNotOn(F: seq<Section>, G: seq<Section>, f: nat, g: nat, n: nat, n': nat,
                           l: string, text: string -> string, k: nat)
    requires Clean(F) && ProperNames(G) && Partnered(G, F) && f < |F| && g < |G|
    requires Separated(Content(l)) && AllMarks(Content(l), text) && k < |Content(l)| && Content(l)[k].Label?
    ensures !RunsOn(RefMarker(Key(F, f), n), Render(Content(l)[k + 1..], text), RefMarker(Key(G, g), n'))
  {
    SharedKeys(F, G, f, g);
    if RunsOn(RefMarker(Key(F, f), n), Render(Content(l)[k + 1..], text), RefMarker(Key(G, g), n')) {
      EraseAllAvoids(G[g].name, '"');
      RunningOnNeedsNames(l, text, k, Key(F, f), n, Canon(G[g]), Occurrence(G, g), n');
    }
  }

  lemma TextRunsNotOn(F: seq<Section>, A: Table, i: nat, l: string, k: nat, G: seq<Section>, B: Table, j: nat,
                      b: string)
    requires IsTable(A, F) && IsTable(B, G) && Clean(F) && ProperNames(G) && Partnered(G, F)
    requires LineDefined(l, A) && k < |Content(l)| && Content(l)[k].Label? && b in B
    ensures !RunsOn(CanonText(A, i)(Content(l)[k].name), Render(Content(l)[k + 1..], CanonText(A, i)),
            CanonText(B, j)(b))
  {
    ContentFacts(l, A);
    AllTextsAreMarks(Content(l), F, A, i);
    var a := Content(l)[k].name;
    var f, p := Located(A, F, a);
    var g, q := Located(B, G, b);
    var behind := Render(Content(l)[k + 1..], CanonText(A, i));
    KindsDiffer(A[a].ordinal, B[b].key, B[b].ordinal, behind);
    KindsDiffer(B[b].ordinal, A[a].key, A[a].ordinal, behind);
    LocalRunsNotOn(A[a].ordinal, B[b].ordinal, Content(l), CanonText(A, i), k);
    ReferenceRunsNotOn(F, G, f, g, A[a].ordinal, B[b].ordinal, l, CanonText(A, i), k);
  }

  lemma LineRunsNotOn(F: seq<Section>, A: Table, i: nat, l: string, G: seq<Section>, B: Table, j: nat, l': string)
    requires IsTable(A, F) && IsTable(B, G) && Clean(F) && ProperNames(G) && Partnered(G, F)
    requires LineDefined(l, A) && LineDefined(l', B)
    ensures NeverRunsOn(Content(l), CanonText(A, i), Content(l'), CanonText(B, j))
  {
    ContentFacts(l', B);
    var s, t, x, y := Content(l), Content(l'), CanonText(A, i), CanonText(B, j);
    forall k, m | 0 <= k < |s| && 0 <= m < |t| && s[k].Label? && t[m].Label?
      ensures !RunsOn(x(s[k].name), Render(s[k + 1..], x), y(t[m].name))
    {
      TextRunsNotOn(F, A, i, l, k, G, B, j, t[m].name);
    }
  }

  /** Two lines with the same canonical text say the same, up to labels with the same text. */
  lemma LinesReadAlike(F: seq<Section>, A: Table, i: nat, l: string, G: seq<Section>, B: Table, j: nat, l': string)
    requires IsTable(A, F) && IsTable(B, G) && Clean(F) && Clean(G) && Partnered(F, G) && Partnered(G, F)
    requires LineDefined(l, A) && LineDefined(l', B) && CleanLine(l) && CleanLine(l')
    requires CanonicalLine(l, A, i) == CanonicalLine(l', B, j)
    ensures SameItems(Content(l), CanonText(A, i), Content(l'), CanonText(B, j))
  {
    CanonicalLineIs(l, F, A, i);
    CanonicalLineIs(l', G, B, j);
    ContentFacts(l, A);
    ContentFacts(l', B);
    AllTextsAreMarks(Content(l), F, A, i);
    AllTextsAreMarks(Content(l'), G, B, j);
    LineRunsNotOn(F, A, i, l, G, B, j, l');
    LineRunsNotOn(G, B, j, l', F, A, i, l);
    RenderedAlike(Content(l), CanonText(A, i), Content(l'), CanonText(B, j));
  }

  /** Corresponding occurrences of labels are labels with the same address. */
  lemma OccurrencesAgree(F: seq<Section>, A: Table, i: nat, l: string, G: seq<Section>, B: Table, j: nat, l': string,
                         k: nat)
    requires IsTable(A, F) && IsTable(B, G) && Partners(F, i, G, j)
    requires LineDefined(l, A) && LineDefined(l', B)
    requires SameItems(Content(l), CanonText(A, i), Content(l'), CanonText(B, j))
    requires k < |Content(l)| && Content(l)[k].Label?
    ensures k < |Content(l')| && Content(l')[k].Label?
    ensures SameAddress(F, A, Content(l)[k].name, G, B, Content(l')[k].name)
  {
    ContentFacts(l, A);
    ContentFacts(l', B);
    assert SameItem(Content(l)[k], CanonText(A, i), Content(l')[k], CanonText(B, j));
    SameTextSameAddress(F, A, i, Content(l)[k].name, G, B, j, Content(l')[k].name);
  }

  // ---------------------------------------------------------------- the renaming

  ghost function Counterpart(F: seq<Section>, A: Table, a: string, G: seq<Section>, B: Table): string {
    if exists b :: SameAddress(F, A, a, G, B, b) then var b :| SameAddress(F, A, a, G, B, b); b else ""
  }

  lemma CounterpartIs(F: seq<Section>, A: Table, a: string, G: seq<Section>, B: Table, b: string)
    requires IsTable(B, G) && SameAddress(F, A, a, G, B, b)
    ensures Counterpart(F, A, a, G, B) == b
  {
    var c := Counterpart(F, A, a, G, B);
    PartnersUnique(F, A[a].owner, G, B[b].owner, B[c].owner);
    AddressesDiffer(B, G, b, c);
  }

  ghost predicate Aligned(F: seq<Section>, G: seq<Section>) {
    && Accepted(F) && Accepted(G) && Clean(F) && Clean(G) && Outcome(F) == Outcome(G)
  }

  lemma AlignedLines(F: seq<Section>, i: nat, G: seq<Section>, j: nat, p: nat)
    requires Aligned(F, G) && Partners(F, i, G, j) && p < |F[i].lines|
    ensures IsTable(TableOf(F), F) && IsTable(TableOf(G), G) && |F[i].lines| == |G[j].lines|
    ensures LineDefined(F[i].lines[p], TableOf(F)) && LineDefined(G[j].lines[p], TableOf(G))
    ensures CleanLine(F[i].lines[p]) && CleanLine(G[j].lines[p])
    ensures CanonicalLine(F[i].lines[p], TableOf(F), i) == CanonicalLine(G[j].lines[p], TableOf(G), j)
  {
    AcceptedFacts(F);
    AcceptedFacts(G);
    AcceptedLabels(F, i);
    AcceptedLabels(G, j);
    PartnersContributeAlike(F, i, G, j);
    assert Chunk(F, TableOf(F), i)[p + 1] == Chunk(G, TableOf(G), j)[p + 1];
  }

  /** Lines in the same place say the same. */
  lemma AlignedLinesReadAlike(F: seq<Section>, i: nat, G: seq<Section>, j: nat, p: nat)
    requires Aligned(F, G) && Partners(F, i, G, j) && p < |F[i].lines| == |G[j].lines|
    ensures SameItems(Content(F[i].lines[p]), CanonText(TableOf(F), i), Content(G[j].lines[p]),
            CanonText(TableOf(G), j))
  {
    AlignedLines(F, i, G, j, p);
    EqualOutputsPartnered(F, G);
    EqualOutputsPartnered(G, F);
    LinesReadAlike(F, TableOf(F), i, F[i].lines[p], G, TableOf(G), j, G[j].lines[p]);
  }

  /** Every label of the first listing has a counterpart in the second. */
  lemma HasCounterpart(F: seq<Section>, G: seq<Section>, a: string)
    requires Aligned(F, G) && Partnered(F, G) && IsDefined(F, a)
    ensures SameAddress(F, TableOf(F), a, G, TableOf(G), Counterpart(F, TableOf(F), a, G, TableOf(G)))
  {
    var i: nat, p: nat :| DefinedAt(F, i, p, a);
    assert HasPartner(F, i, G);
    var j: nat :| Partners(F, i, G, j);
    AlignedLines(F, i, G, j, p);
    AlignedLinesReadAlike(F, i, G, j, p);
    ContentDefines(F[i].lines[p]);
    OccurrencesAgree(F, TableOf(F), i, F[i].lines[p], G, TableOf(G), j, G[j].lines[p], 0);
    CounterpartIs(F, TableOf(F), a, G, TableOf(G), Content(G[j].lines[p])[0].name);
  }

  ghost function Correspondence(F: seq<Section>, G: seq<Section>): Renaming {
    map a | a in TableOf(F) :: Counterpart(F, TableOf(F), a, G, TableOf(G))
  }

  lemma SameAddressSwaps(F: seq<Section>, A: Table, a: string, G: seq<Section>, B: Table, b: string)
    requires SameAddress(F, A, a, G, B, b)
    ensures SameAddress(G, B, b, F, A, a)
  {
  }

  lemma CorrespondenceIsBijection(F: seq<Section>, G: seq<Section>)
    requires Aligned(F, G) && Partnered(F, G) && Partnered(G, F)
    ensures Bijection(Correspondence(F, G), F, G)
  {
    AcceptedFacts(F);
    AcceptedFacts(G);
    var A, B, m := TableOf(F), TableOf(G), Correspondence(F, G);
    forall a ensures a in A <==> IsDefined(F, a) {
      DefinedIffInTable(A, F, a);
    }
    forall a | a in m ensures SameAddress(F, A, a, G, B, m[a]) && IsDefined(G, m[a]) {
      HasCounterpart(F, G, a);
      DefinedIffInTable(B, G, m[a]);
    }
    forall a, b | a in m && b in m && m[a] == m[b] ensures a == b {
      SameAddressSwaps(F, A, a, G, B, m[a]);
      SameAddressSwaps(F, A, b, G, B, m[b]);
      CounterpartIs(G, B, m[a], F, A, a);
      CounterpartIs(G, B, m[a], F, A, b);
    }
    forall b | IsDefined(G, b) ensures exists a :: a in m && m[a] == b {
      HasCounterpart(G, F, b);
      var a := Counterpart(G, B, b, F, A);
      CounterpartIs(F, A, a, G, B, b);
      assert a in m && m[a] == b;
    }
  }

  lemma CorrespondenceMatches(F: seq<Section>, G: seq<Section>, i: nat, j: nat)
    requires Aligned(F, G) && Partnered(F, G) && Partners(F, i, G, j)
    ensures SameSection(F[i], G[j], Correspondence(F, G))
  {
    var A, B, m := TableOf(F), TableOf(G), Correspondence(F, G);
    PartnersContributeAlike(F, i, G, j);
    var c, d := Chunk(F, A, i), Chunk(G, B, j);
    assert c[0][|ATTRS_MARK|..] == NormalizeHashes(Strip(F[i].attrs));
    assert d[0][|ATTRS_MARK|..] == NormalizeHashes(Strip(G[j].attrs));
    forall p | 0 <= p < |F[i].lines| ensures MapLabels(Content(F[i].lines[p]), Rename(m)) == Content(G[j].lines[p]) {
      AlignedLines(F, i, G, j, p);
      AlignedLinesReadAlike(F, i, G, j, p);
      LineCorresponds(F, A, i, F[i].lines[p], G, B, j, G[j].lines[p]);
    }
  }

  lemma LineCorresponds(F: seq<Section>, A: Table, i: nat, l: string, G: seq<Section>, B: Table, j: nat, l': string)
    requires A == TableOf(F) && B == TableOf(G) && IsTable(A, F) && IsTable(B, G) && Partners(F, i, G, j)
    requires LineDefined(l, A) && LineDefined(l', B)
    requires SameItems(Content(l), CanonText(A, i), Content(l'), CanonText(B, j))
    ensures MapLabels(Content(l), Rename(Correspondence(F, G))) == Content(l')
  {
    var s, t, rename := Content(l), Content(l'), Rename(Correspondence(F, G));
    forall k | 0 <= k < |s| ensures t[k] == (match s[k] case Ch(c) => Ch(c) case Label(name) => Label(rename(name))) {
      assert SameItem(s[k], CanonText(A, i), t[k], CanonText(B, j));
      if s[k].Label? {
        OccurrencesAgree(F, A, i, l, G, B, j, l', k);
        CounterpartIs(F, A, s[k].name, G, B, t[k].name);
      }
    }
    MapLabelsPointwise(s, t, rename);
  }

  lemma MapLabelsPointwise(s: seq<Item>, t: seq<Item>, rename: string -> string)
    requires |s| == |t|
    requires forall k | 0 <= k < |s| :: t[k] == match s[k] case Ch(c) => Ch(c) case Label(name) => Label(rename(name))
    ensures MapLabels(s, rename) == t
  {
    forall k | 0 <= k < |s| ensures MapLabels(s, rename)[k] == t[k] {
      MapLabelsAt(s, rename, k);
    }
  }

  /** Soundness: equal outputs come from listings that differ only in label names and instance hashes. */
  lemma EqualOutputsAlphaEquivalent(F: seq<Section>, G: seq<Section>)
    requires Accepted(F) && Accepted(G) && Clean(F) && Clean(G) && Outcome(F) == Outcome(G)
    ensures AlphaEquivalent(F, G)
  {
    EqualOutputsPartnered(F, G);
    EqualOutputsPartnered(G, F);
    CorrespondenceIsBijection(F, G);
    forall i: nat, j: nat | Partners(F, i, G, j) ensures SameSection(F[i], G[j], Correspondence(F, G)) {
      CorrespondenceMatches(F, G, i, j);
    }
    assert MatchedBy(F, G, Correspondence(F, G));
  }

  // ---------------------------------------------------------------- alpha-equivalent listings have equal outputs

  lemma OrdinalsAgree(s: Section, t: Section, m: Renaming, p: nat)
    requires SameSection(s, t, m) && p <= |s.lines|
    ensures Ordinal(s.lines, p) == Ordinal(t.lines, p)
  {
    forall q: nat | q < p ensures DefinedLabel(s.lines[q]).Some? == DefinedLabel(t.lines[q]).Some? {
      DefinitionsAgree(s, t, m, q);
    }
    SameOrdinals(s.lines, t.lines, p);
  }

  lemma {:induction false} SameOrdinals(a: seq<string>, b: seq<string>, p: nat)
    requires p <= |a| && p <= |b|
    requires forall q: nat | q < p :: DefinedLabel(a[q]).Some? == DefinedLabel(b[q]).Some?
    ensures Ordinal(a, p) == Ordinal(b, p)
  {
    if p > 0 {
      SameOrdinals(a, b, p - 1);
    }
  }

  lemma DefinitionsAgree(s: Section, t: Section, m: Renaming, p: nat)
    requires SameSection(s, t, m) && p < |s.lines|
    ensures DefinedLabel(t.lines[p])
            == match DefinedLabel(s.lines[p]) case None => None case Some(name) => Some(Rename(m)(name))
  {
    ContentDefines(s.lines[p]);
    ContentDefines(t.lines[p]);
    MapLabelsHead(Content(s.lines[p]), Rename(m));
  }

  lemma RenamedKeepsAddress(F: seq<Section>, G: seq<Section>, m: Renaming, a: string)
    requires Accepted(F) && Accepted(G) && Partnered(F, G) && MatchedBy(F, G, m) && a in TableOf(F) && a in m
    ensures SameAddress(F, TableOf(F), a, G, TableOf(G), m[a])
  {
    AcceptedFacts(F);
    AcceptedFacts(G);
    var i, p := Located(TableOf(F), F, a);
    assert HasPartner(F, i, G);
    var j: nat :| Partners(F, i, G, j);
    DefinitionsAgree(F[i], G[j], m, p);
    OrdinalsAgree(F[i], G[j], m, p);
    assert DefinedAt(G, j, p, m[a]);
    InTable(TableOf(G), G, j, p, m[a]);
  }

  lemma MatchedChunks(F: seq<Section>, G: seq<Section>, m: Renaming, i: nat, j: nat)
    requires Accepted(F) && Accepted(G) && ProperNames(F) && ProperNames(G)
    requires Partnered(F, G) && Bijection(m, F, G) && MatchedBy(F, G, m) && Partners(F, i, G, j)
    ensures Chunk(F, TableOf(F), i) == Chunk(G, TableOf(G), j)
  {
    var A, B := TableOf(F), TableOf(G);
    AcceptedFacts(F);
    AcceptedFacts(G);
    AcceptedLabels(F, i);
    AcceptedLabels(G, j);
    assert SameSection(F[i], G[j], m);
    forall p | 0 <= p < |F[i].lines| ensures CanonicalLine(F[i].lines[p], A, i) == CanonicalLine(G[j].lines[p], B, j) {
      assert LineDefined(F[i].lines[p], A) && LineDefined(G[j].lines[p], B);
      CanonicalLineIs(F[i].lines[p], F, A, i);
      CanonicalLineIs(G[j].lines[p], G, B, j);
      MatchedRender(F, G, m, i, j, F[i].lines[p]);
    }
  }

  lemma MatchedRender(F: seq<Section>, G: seq<Section>, m: Renaming, i: nat, j: nat, l: string)
    requires Accepted(F) && Accepted(G) && LineDefined(l, TableOf(F))
    requires Partnered(F, G) && Bijection(m, F, G) && MatchedBy(F, G, m) && Partners(F, i, G, j)
    ensures Render(Content(l), CanonText(TableOf(F), i))
            == Render(MapLabels(Content(l), Rename(m)), CanonText(TableOf(G), j))
  {
    var A, B := TableOf(F), TableOf(G);
    AcceptedFacts(F);
    AcceptedFacts(G);
    ContentFacts(l, A);
    forall k | 0 <= k < |Content(l)| && Content(l)[k].Label?
      ensures CanonText(A, i)(Content(l)[k].name) == CanonText(B, j)(Rename(m)(Content(l)[k].name))
    {
      var a := Content(l)[k].name;
      DefinedIffInTable(A, F, a);
      RenamedKeepsAddress(F, G, m, a);
      SameTextSameAddress(F, A, i, a, G, B, j, m[a]);
    }
    RenderSame(Content(l), CanonText(A, i), Rename(m), CanonText(B, j));
  }

  lemma MatchedAt(F: seq<Section>, G: seq<Section>, m: Renaming, name: string, k: nat)
    requires Accepted(F) && Accepted(G) && ProperNames(F) && ProperNames(G)
    requires Partnered(F, G) && Bijection(m, F, G) && MatchedBy(F, G, m) && k < |AllChunks(F, name)|
    ensures k < |AllChunks(G, name)| && AllChunks(F, name)[k] == AllChunks(G, name)[k]
  {
    var i := OriginOf(F, name, k);
    assert HasPartner(F, i, G);
    var j: nat :| Partners(F, i, G, j);
    ChunkOf(G, j);
    MatchedChunks(F, G, m, i, j);
  }

  lemma AsMany(F: seq<Section>, G: seq<Section>, name: string)
    requires Accepted(F) && Accepted(G) && Partnered(F, G)
    ensures |AllChunks(F, name)| <= |AllChunks(G, name)|
  {
    if AllChunks(F, name) != [] {
      var i := OriginOf(F, name, |AllChunks(F, name)| - 1);
      assert HasPartner(F, i, G);
      var j: nat :| Partners(F, i, G, j);
      ChunkOf(G, j);
    }
  }

  lemma MatchedBodies(F: seq<Section>, G: seq<Section>, m: Renaming, name: string)
    requires Accepted(F) && Accepted(G) && ProperNames(F) && ProperNames(G)
    requires Partnered(F, G) && Partnered(G, F) && Bijection(m, F, G) && MatchedBy(F, G, m)
    ensures AllChunks(F, name) == AllChunks(G, name)
  {
    AsMany(F, G, name);
    AsMany(G, F, name);
    forall k: nat | k < |AllChunks(F, name)| ensures AllChunks(F, name)[k] == AllChunks(G, name)[k] {
      MatchedAt(F, G, m, name, k);
    }
  }

  /** Completeness: renaming labels and changing instance hashes does not change the output. */
  lemma AlphaEquivalentEqualOutputs(F: seq<Section>, G: seq<Section>)
    requires Accepted(F) && Accepted(G) && ProperNames(F) && ProperNames(G) && AlphaEquivalent(F, G)
    ensures Outcome(F) == Outcome(G)
  {
    var m :| Bijection(m, F, G) && MatchedBy(F, G, m);
    forall name ensures AllChunks(F, name) == AllChunks(G, name) {
      MatchedBodies(F, G, m, name);
    }
    EqualChunksEqualOutputs(F, G);
  }

  /** For listings that do not spell reserved text, the canonical output decides alpha-equivalence. */
  lemma OutputDecidesAlphaEquivalence(F: seq<Section>, G: seq<Section>)
    requires Accepted(F) && Accepted(G) && Clean(F) && Clean(G)
    ensures Outcome(F) == Outcome(G) <==> AlphaEquivalent(F, G)
  {
    if Outcome(F) == Outcome(G) {
      EqualOutputsAlphaEquivalent(F, G);
    }
    if AlphaEquivalent(F, G) {
      AlphaEquivalentEqualOutputs(F, G);
    }
  }
}
